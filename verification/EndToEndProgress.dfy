/** Progress of SDK and server together: exactly when everything pending can
    still be delivered and counted. */
module EndToEndProgress {
  import opened Text
  import Runs
  import Spool
  import Delivery
  import DeliveryRuns
  import DeliveryProgress
  import opened Ingest
  import IngestRuns
  import opened EndToEnd

  // ---- What is pending ---------------------------------------------------

  /** Queued, awaiting a response, or spooled. */
  ghost predicate Pending(s: Delivery.State, e: Event) {
    && s.taken <= |s.commands|
    && (e in DeliveryRuns.Queued(s.commands[s.taken..]) || e in Awaited(s.phase) || e in DeliveryRuns.OnDisk(s.files))
  }

  /** From one state to the next, pending events stay pending or are delivered,
      and nothing else becomes pending. */
  ghost predicate Carried(s: Delivery.State, u: Delivery.State) {
    && (forall e | Pending(s, e) :: Pending(u, e) || e in u.ledger.delivered)
    && (forall e | Pending(u, e) :: Pending(s, e))
    && s.ledger.delivered <= u.ledger.delivered
  }

  /** The same queue and spool; at most a spooled event is being resent now. */
  lemma SameHeld(s: Delivery.State, u: Delivery.State)
    requires u.commands == s.commands && u.taken == s.taken && u.ledger.delivered == s.ledger.delivered
    requires DeliveryRuns.OnDisk(u.files) == DeliveryRuns.OnDisk(s.files)
    requires Awaited(s.phase) == {} && forall e | e in Awaited(u.phase) :: e in DeliveryRuns.OnDisk(u.files)
    ensures Carried(s, u)
  {
  }

  lemma ReceiveCarries(s: Delivery.State, u: Delivery.State)
    requires s.phase.Idle? && s.taken < |s.commands| && !s.commands[s.taken].Shutdown? && u == Delivery.Received(s)
    ensures Carried(s, u)
  {
    var queue := s.commands[s.taken..];
    assert queue[1..] == u.commands[u.taken..] && queue[0] == s.commands[s.taken] && u.files == s.files;
    assert Awaited(u.phase) == if queue[0].Send? then {queue[0].event} else {};
  }

  lemma SendCarries(cfg: Delivery.Config, s: Delivery.State, u: Delivery.State, name: string)
    requires s.phase.Sending? && u == Delivery.SendFinished(cfg, s, DeliveryProgress.ACCEPTED, name)
    ensures Carried(s, u)
  {
  }

  lemma DrainKeeps(s: Delivery.State, u: Delivery.State)
    requires s.phase.Draining? && u == Delivery.DrainAdvanced(s, false)
    ensures u.files == Spool.WithoutCorruptHead(s.files)
    ensures u.commands == s.commands && u.taken == s.taken && u.ledger == s.ledger
    ensures u.phase.Idle? || (u.phase.Resending? && u.files != [] && u.phase.entry == u.files[0])
  {
  }

  lemma DrainCarries(s: Delivery.State, u: Delivery.State)
    requires DeliveryRuns.Filed(s.files, s.names) && s.phase.Draining? && u == Delivery.DrainAdvanced(s, false)
    ensures Carried(s, u)
  {
    DrainKeeps(s, u);
    DeliveryRuns.LiveKept(s.files, s.names);
    if u.files != [] { DeliveryRuns.OnDiskMember(u.files, u.files[0]); }
    SameHeld(s, u);
  }

  lemma ResendKeeps(s: Delivery.State, u: Delivery.State)
    requires s.phase.Resending? && s.phase.entry.content.Some?
    requires u == Delivery.ResendFinished(s, DeliveryProgress.ACCEPTED)
    ensures u.files == Spool.Without(s.files, s.phase.entry.name) && u.phase.Draining?
    ensures u.commands == s.commands && u.taken == s.taken
    ensures u.ledger.delivered == s.ledger.delivered + multiset{s.phase.entry.content.value}
  {
  }

  lemma ResendCarries(s: Delivery.State, u: Delivery.State)
    requires DeliveryRuns.Filed(s.files, s.names) && s.phase.Resending?
    requires DeliveryRuns.Tracked(s.files, s.names, s.phase, s.ledger.evicted)
    requires u == Delivery.ResendFinished(s, DeliveryProgress.ACCEPTED)
    ensures Carried(s, u)
  {
    var entry := s.phase.entry;
    ResendKeeps(s, u);
    if entry in s.files {
      DeliveryRuns.WithoutPresent(s.files, entry);
    } else {
      DeliveryRuns.WithoutAbsent(s.files, entry.name);
    }
    OneSettled(s, u, entry.content.value);
  }

  /** The awaited event was delivered, and its file, if any, is gone. */
  lemma OneSettled(s: Delivery.State, u: Delivery.State, event: Event)
    requires u.commands == s.commands && u.taken == s.taken && Awaited(s.phase) == {event} && Awaited(u.phase) == {}
    requires u.ledger.delivered == s.ledger.delivered + multiset{event}
    requires DeliveryRuns.OnDisk(s.files) == DeliveryRuns.OnDisk(u.files)
          || DeliveryRuns.OnDisk(s.files) == DeliveryRuns.OnDisk(u.files) + multiset{event}
    ensures Carried(s, u)
  {
  }

  lemma NextIdle(cfg: Delivery.Config, s: Delivery.State, u: Delivery.State, name: string)
    requires s.phase.Idle? && u == Delivery.Step(cfg, s, DeliveryProgress.Next(s, name))
    ensures u == if s.taken < |s.commands| then Delivery.Received(s) else s.(phase := Delivery.Draining(None, 0))
  {
  }

  lemma NextSending(cfg: Delivery.Config, s: Delivery.State, u: Delivery.State, name: string)
    requires s.phase.Sending? && name !in s.names && u == Delivery.Step(cfg, s, DeliveryProgress.Next(s, name))
    ensures u == Delivery.SendFinished(cfg, s, DeliveryProgress.ACCEPTED, name)
  {
  }

  lemma NextDraining(cfg: Delivery.Config, s: Delivery.State, u: Delivery.State, name: string)
    requires s.phase.Draining? && u == Delivery.Step(cfg, s, DeliveryProgress.Next(s, name))
    ensures u == Delivery.DrainAdvanced(s, false)
  {
  }

  lemma NextResending(cfg: Delivery.Config, s: Delivery.State, u: Delivery.State, name: string)
    requires s.phase.Resending? && s.phase.entry.content.Some?
    requires u == Delivery.Step(cfg, s, DeliveryProgress.Next(s, name))
    ensures u == Delivery.ResendFinished(s, DeliveryProgress.ACCEPTED)
  {
    assert DeliveryProgress.Next(s, name) == Delivery.FinishResend(DeliveryProgress.ACCEPTED);
  }

  lemma NextCarries(cfg: Delivery.Config, s: Delivery.State, u: Delivery.State, name: string)
    requires DeliveryRuns.Valid(s) && DeliveryProgress.NoStop(s) && !DeliveryProgress.Done(s) && name !in s.names
    requires u == Delivery.Step(cfg, s, DeliveryProgress.Next(s, name))
    ensures Carried(s, u)
  {
    match s.phase
    case Idle =>
      NextIdle(cfg, s, u, name);
      if s.taken < |s.commands| { ReceiveCarries(s, u); } else { SameHeld(s, u); }
    case Sending(_, _) =>
      NextSending(cfg, s, u, name);
      SendCarries(cfg, s, u, name);
    case Draining(_, _) =>
      NextDraining(cfg, s, u, name);
      DrainCarries(s, u);
    case Resending(_, _, _) =>
      NextResending(cfg, s, u, name);
      ResendCarries(s, u);
  }

  // ---- What can be accepted ----------------------------------------------

  /** No row holds the event's id under another hash. */
  ghost predicate Acceptable(p: Setting, t: Tables, e: Event) {
    forall s | IsRaw(t.raws, s, p.project, e.id) :: RowFor(p, t, s, e)
  }

  /** The id has a row older than body hashing, which answers for any body. */
  ghost predicate Legacy(t: Tables, project: int, id: string) {
    exists s :: IsRaw(t.raws, s, project, id) && t.raws[s].bodyHash.None?
  }

  /** Every pending event is acceptable, and none will stand in another's way. */
  ghost predicate Compatible(p: Setting, w: World) {
    && (forall e | Pending(w.client, e) :: Acceptable(p, w.server, e))
    && (forall e, f | Pending(w.client, e) && Pending(w.client, f) && e.id == f.id ::
          p.hash(e.body) == p.hash(f.body) || Legacy(w.server, p.project, e.id))
  }

  lemma OnlyRowsMatter(p: Setting, w: World, server: Tables)
    requires Compatible(p, w) && server.raws == w.server.raws
    ensures Compatible(p, w.(server := server))
  {
    var u := w.(server := server);
    forall e | Pending(u.client, e) ensures Acceptable(p, server, e) {
      assert Acceptable(p, w.server, e);
      forall s | IsRaw(server.raws, s, p.project, e.id) ensures RowFor(p, server, s, e) {
        assert RowFor(p, w.server, s, e);
      }
    }
    forall project, id | Legacy(w.server, project, id) ensures Legacy(server, project, id) {
      var s :| IsRaw(w.server.raws, s, project, id) && w.server.raws[s].bodyHash.None?;
      assert IsRaw(server.raws, s, project, id);
    }
  }

  /** The request that carries a pending event. */
  function RequestFor(p: Setting, e: Event, storageId: string): Request {
    Request(p.project, 0, e.id, p.hash(e.body), p.fingerprint(e.body), "", [], storageId)
  }

  lemma RequestAccepted(p: Setting, t: Tables, e: Event, storageId: string)
    requires IngestRuns.Valid(t) && Acceptable(p, t, e) && storageId !in t.raws
    ensures var (u, r) := Ingested(t, RequestFor(p, e, storageId), 0);
            && r.Ok?
            && (u.raws == t.raws
                || (u.raws == t.raws[storageId := RawEvent(p.project, 0, e.id, Some(p.hash(e.body)))]
                    && forall s :: !IsRaw(t.raws, s, p.project, e.id)))
  {
    var q := RequestFor(p, e, storageId);
    if s :| IsRaw(t.raws, s, p.project, e.id) {
      assert RowFor(p, t, s, e);
      IngestRuns.KnownAnswer(t, s, q, 0);
    } else {
      assert RawOf(t.raws, p.project, e.id).None?;
      IngestRuns.IngestedCases(t, q, 0);
    }
  }

  lemma NewRowCompatible(p: Setting, w: World, server: Tables, e: Event, storageId: string)
    requires Compatible(p, w) && Pending(w.client, e) && storageId !in w.server.raws
    requires server.raws == w.server.raws[storageId := RawEvent(p.project, 0, e.id, Some(p.hash(e.body)))]
    requires forall s :: !IsRaw(w.server.raws, s, p.project, e.id)
    ensures Compatible(p, w.(server := server))
  {
    var u := w.(server := server);
    forall f | Pending(u.client, f) ensures Acceptable(p, server, f) {
      assert Acceptable(p, w.server, f);
      forall s | IsRaw(server.raws, s, p.project, f.id) ensures RowFor(p, server, s, f) {
        if s == storageId {
          assert e.id == f.id && !Legacy(w.server, p.project, e.id);
        } else {
          assert IsRaw(w.server.raws, s, p.project, f.id) && RowFor(p, w.server, s, f);
        }
      }
    }
    forall project, id | Legacy(w.server, project, id) ensures Legacy(server, project, id) {
      var s :| IsRaw(w.server.raws, s, project, id) && w.server.raws[s].bodyHash.None?;
      assert IsRaw(server.raws, s, project, id);
    }
  }

  // ---- Fresh names -------------------------------------------------------

  lemma {:induction false} LongerThanAll(names: set<string>) returns (n: nat)
    ensures forall name | name in names :: |name| < n
  {
    n := 0;
    if x :| x in names {
      var m := LongerThanAll(names - {x});
      n := m + |x| + 1;
      forall name | name in names ensures |name| < n { assert name == x || name in names - {x}; }
    }
  }

  lemma FreshString(names: set<string>) returns (name: string)
    ensures name !in names
  {
    var n := LongerThanAll(names);
    name := seq(n, _ => 'x');
  }

  // ---- Delivering everything ---------------------------------------------

  /** The SDK's worker and the arrival of its requests; no other traffic. */
  ghost predicate OwnActions(run: seq<Action>) {
    forall i | 0 <= i < |run| :: run[i].Sdk? || run[i].Arrive?
  }

  lemma AfterConcat(p: Setting, w: World, a: seq<Action>, b: seq<Action>)
    ensures After(p, w, a + b) == After(p, After(p, w, a), b)
  {
    Runs.Concat((v: World, run: seq<Action>) => After(p, v, run), (v: World, c: Action) => Step(p, v, c), w, a, b);
  }

  lemma AfterOne(p: Setting, w: World, a: Action)
    ensures After(p, w, [a]) == Step(p, w, a)
  {
    assert [a][..0] == [];
  }

  /** What a stretch of the catching up keeps. */
  ghost predicate Advanced(p: Setting, w: World, u: World) {
    && Valid(p, u) && Compatible(p, u) && DeliveryProgress.NoStop(u.client)
    && Carried(w.client, u.client) && DeliveryProgress.NoneLost(w.client, u.client)
  }

  /** The awaited event reaches the server and is answered with success. */
  lemma Answered(p: Setting, w: World, e: Event) returns (a: Action)
    requires Valid(p, w) && Compatible(p, w) && DeliveryProgress.NoStop(w.client) && Awaited(w.client.phase) == {e}
    ensures a.Arrive?
    ensures var u := Step(p, w, a); Advanced(p, w, u) && u.client == w.client && e in u.acked
  {
    var storageId := FreshString(w.server.raws.Keys);
    var q := RequestFor(p, e, storageId);
    a := Arrive(e, q, 0);
    assert Pending(w.client, e);
    assert Enabled(p, w, a) by { assert e in w.wire; }
    RequestAccepted(p, w.server, e, storageId);
    var server := Ingested(w.server, q, 0).0;
    if server.raws == w.server.raws {
      OnlyRowsMatter(p, w, server);
    } else {
      NewRowCompatible(p, w, server, e, storageId);
    }
    ArriveValid(p, w, e, q, 0);
    SamePending(p, w.(server := server), Step(p, w, a));
  }

  lemma SamePending(p: Setting, w: World, u: World)
    requires Compatible(p, w) && u.server == w.server && forall e | Pending(u.client, e) :: Pending(w.client, e)
    ensures Compatible(p, u)
  {
  }

  /** The worker's next step, once its awaited event, if any, is answered. */
  lemma Worked(p: Setting, w: World, name: string)
    requires Valid(p, w) && Compatible(p, w) && DeliveryProgress.NoStop(w.client)
    requires !DeliveryProgress.Done(w.client) && name !in w.client.names && Awaited(w.client.phase) <= w.acked
    ensures var u := Step(p, w, Sdk(DeliveryProgress.Next(w.client, name)));
            Advanced(p, w, u) && DeliveryProgress.Work(u.client) < DeliveryProgress.Work(w.client)
  {
    var a := DeliveryProgress.Next(w.client, name);
    var u := Step(p, w, Sdk(a));
    assert Enabled(p, w, Sdk(a)) && u.client == Delivery.Step(p.cfg, w.client, a) && u.server == w.server;
    DeliveryProgress.Advances(p.cfg, w.client, name);
    NextCarries(p.cfg, w.client, u.client, name);
    SdkValid(p, w, a);
    SamePending(p, w, u);
  }

  lemma CarriedOn(a: Delivery.State, b: Delivery.State, c: Delivery.State)
    requires Carried(a, b) && Carried(b, c)
    ensures Carried(a, c)
  {
    forall e | Pending(a, e) ensures Pending(c, e) || e in c.ledger.delivered {
      assert Pending(b, e) || e in b.ledger.delivered;
    }
  }

  lemma AdvancedOn(p: Setting, a: World, b: World, c: World)
    ensures Advanced(p, a, b) && Advanced(p, b, c) ==> Advanced(p, a, c)
  {
    if Advanced(p, a, b) && Advanced(p, b, c) { CarriedOn(a.client, b.client, c.client); }
  }

  ghost predicate Reaches(p: Setting, w: World, run: seq<Action>, u: World) {
    OwnActions(run) && After(p, w, run) == u
  }

  lemma ReachesOne(p: Setting, w: World, a: Action, u: World)
    requires u == Step(p, w, a) && (a.Sdk? || a.Arrive?)
    ensures Reaches(p, w, [a], u)
  {
    AfterOne(p, w, a);
  }

  lemma ReachesOn(p: Setting, w: World, a: seq<Action>, v: World, b: seq<Action>, u: World)
    requires Reaches(p, w, a, v) && Reaches(p, v, b, u)
    ensures Reaches(p, w, a + b, u)
  {
    AfterConcat(p, w, a, b);
  }

  lemma WorkTurn(p: Setting, w: World, name: string) returns (run: seq<Action>, u: World)
    requires Valid(p, w) && Compatible(p, w) && DeliveryProgress.NoStop(w.client)
    requires !DeliveryProgress.Done(w.client) && name !in w.client.names && Awaited(w.client.phase) <= w.acked
    ensures Reaches(p, w, run, u) && Advanced(p, w, u)
    ensures DeliveryProgress.Work(u.client) < DeliveryProgress.Work(w.client)
  {
    var a := Sdk(DeliveryProgress.Next(w.client, name));
    Worked(p, w, name);
    u := Step(p, w, a);
    run := [a];
    ReachesOne(p, w, a, u);
  }

  lemma AnswerTurn(p: Setting, w: World, e: Event) returns (run: seq<Action>, u: World)
    requires Valid(p, w) && Compatible(p, w) && DeliveryProgress.NoStop(w.client) && Awaited(w.client.phase) == {e}
    ensures Reaches(p, w, run, u) && Advanced(p, w, u) && u.client == w.client && e in u.acked
  {
    var a := Answered(p, w, e);
    u := Step(p, w, a);
    run := [a];
    ReachesOne(p, w, a, u);
  }

  lemma OneAwaited(phase: Delivery.Phase) returns (e: Event)
    requires Awaited(phase) != {}
    ensures Awaited(phase) == {e}
  {
    e := if phase.Sending? then phase.event else phase.entry.content.value;
  }

  lemma AnswerAndWorkTurn(p: Setting, w: World, e: Event, name: string) returns (run: seq<Action>, u: World)
    requires Valid(p, w) && Compatible(p, w) && DeliveryProgress.NoStop(w.client)
    requires !DeliveryProgress.Done(w.client) && name !in w.client.names && Awaited(w.client.phase) == {e}
    ensures Reaches(p, w, run, u) && Advanced(p, w, u)
    ensures DeliveryProgress.Work(u.client) < DeliveryProgress.Work(w.client)
  {
    var arrival, answered := AnswerTurn(p, w, e);
    var rest;
    rest, u := WorkTurn(p, answered, name);
    AdvancedOn(p, w, answered, u);
    ReachesOn(p, w, arrival, answered, rest, u);
    run := arrival + rest;
  }

  /** One turn: the awaited event is answered first. */
  lemma Turn(p: Setting, w: World, name: string) returns (run: seq<Action>, u: World)
    requires Valid(p, w) && Compatible(p, w) && DeliveryProgress.NoStop(w.client)
    requires !DeliveryProgress.Done(w.client) && name !in w.client.names
    ensures Reaches(p, w, run, u) && Advanced(p, w, u)
    ensures DeliveryProgress.Work(u.client) < DeliveryProgress.Work(w.client)
  {
    if Awaited(w.client.phase) == {} {
      run, u := WorkTurn(p, w, name);
    } else {
      var e := OneAwaited(w.client.phase);
      run, u := AnswerAndWorkTurn(p, w, e, name);
    }
  }

  lemma {:induction false} DeliverAll(p: Setting, w: World, name: string) returns (run: seq<Action>, u: World)
    requires Valid(p, w) && Compatible(p, w) && DeliveryProgress.NoStop(w.client) && name !in w.client.names
    requires DeliveryProgress.Work(w.client) >= 0
    decreases DeliveryProgress.Work(w.client)
    ensures Reaches(p, w, run, u) && DeliveryProgress.Done(u.client) && Advanced(p, w, u)
  {
    if DeliveryProgress.Done(w.client) {
      run, u := [], w;
    } else {
      var turn, next := Turn(p, w, name);
      WorkNatural(next.client);
      var rest;
      rest, u := DeliverAll(p, next, name);
      AdvancedOn(p, w, next, u);
      ReachesOn(p, w, turn, next, rest, u);
      run := turn + rest;
    }
  }

  lemma WorkNatural(s: Delivery.State)
    requires DeliveryRuns.Valid(s)
    ensures DeliveryProgress.Work(s) >= 0
  {
  }

  // ---- The other direction -----------------------------------------------

  /** Only rows that were there already lack a hash. */
  ghost predicate OnlyOldUnhashed(t: Tables, u: Tables) {
    forall s | s in u.raws && u.raws[s].bodyHash.None? :: s in t.raws && u.raws[s] == t.raws[s]
  }

  lemma NewRowsHashed(t: Tables, a: IngestRuns.Action)
    ensures OnlyOldUnhashed(t, IngestRuns.Apply(t, a))
  {
    if a.IngestEvent? { IngestRuns.IngestedCases(t, a.q, a.now); } else { IngestRuns.ManualKeeps(t, a); }
  }

  lemma {:induction false} RunRowsHashed(t: Tables, run: seq<IngestRuns.Action>)
    ensures OnlyOldUnhashed(t, IngestRuns.After(t, run))
  {
    if run != [] {
      RunRowsHashed(t, run[..|run| - 1]);
      NewRowsHashed(IngestRuns.After(t, run[..|run| - 1]), run[|run| - 1]);
    }
  }

  /** Events the server ends up holding were acceptable and in nobody's way. */
  lemma RecordedWereCompatible(p: Setting, w: World, u: Tables)
    requires UniqueRaws(u.raws) && IngestRuns.Extends(w.server, u) && OnlyOldUnhashed(w.server, u)
    requires forall e | Pending(w.client, e) :: Recorded(p, u, e)
    ensures Compatible(p, w)
  {
    forall e | Pending(w.client, e) ensures Acceptable(p, w.server, e) {
      var r :| RowFor(p, u, r, e);
      forall s | IsRaw(w.server.raws, s, p.project, e.id) ensures RowFor(p, w.server, s, e) {
        assert IsRaw(u.raws, s, p.project, e.id) && s == r;
      }
    }
    forall e, f | Pending(w.client, e) && Pending(w.client, f) && e.id == f.id
      ensures p.hash(e.body) == p.hash(f.body) || Legacy(w.server, p.project, e.id)
    {
      var r :| RowFor(p, u, r, e);
      var s :| RowFor(p, u, s, f);
      assert r == s;
      if u.raws[r].bodyHash.None? { assert IsRaw(w.server.raws, r, p.project, e.id); }
    }
  }

  // ---- The result --------------------------------------------------------

  /** This continuation leaves nothing pending, loses nothing, and what was
      pending is delivered and counted once. */
  ghost predicate DeliversAll(p: Setting, files: seq<Spool.Entry>, t: Tables, past: seq<Action>, run: seq<Action>) {
    var start := Start(files, t);
    var w, u := After(p, start, past), After(p, start, past + run);
    && OwnActions(run) && DeliveryProgress.Done(u.client) && DeliveryProgress.NoneLost(w.client, u.client)
    && forall e | Pending(w.client, e) ::
         e in u.client.ledger.delivered && DeliveredOnce(p, t, ServerRun(p, start, past + run), e)
  }

  lemma CompatibleDelivers(p: Setting, files: seq<Spool.Entry>, t: Tables, past: seq<Action>) returns (run: seq<Action>)
    requires Spool.Ordered(files) && IngestRuns.Valid(t) && HashedRows(p, t)
    requires DeliveryProgress.NoStop(After(p, Start(files, t), past).client)
    requires Compatible(p, After(p, Start(files, t), past))
    ensures DeliversAll(p, files, t, past, run)
  {
    var start := Start(files, t);
    var w := After(p, start, past);
    RunValid(p, files, t, past);
    WorkNatural(w.client);
    var name := FreshString(w.client.names);
    var u;
    run, u := DeliverAll(p, w, name);
    AfterConcat(p, start, past, run);
    ExactlyOnce(p, files, t, past + run);
    NothingPending(u.client);
  }

  lemma NothingPending(s: Delivery.State)
    requires DeliveryRuns.Valid(s) && DeliveryProgress.Done(s)
    ensures forall e :: !Pending(s, e)
  {
    assert s.commands[s.taken..] == [];
  }

  lemma DeliveredWereCompatible(p: Setting, files: seq<Spool.Entry>, t: Tables, past: seq<Action>, run: seq<Action>)
    requires Spool.Ordered(files) && IngestRuns.Valid(t) && HashedRows(p, t)
    requires DeliversAll(p, files, t, past, run)
    ensures Compatible(p, After(p, Start(files, t), past))
  {
    var start := Start(files, t);
    var w, u := After(p, start, past), After(p, start, past + run);
    RunValid(p, files, t, past);
    RunValid(p, files, t, past + run);
    AfterConcat(p, start, past, run);
    SidesAlone(p, w, run);
    SidesAlone(p, start, past + run);
    IngestRuns.RunExtends(w.server, ServerRun(p, w, run));
    RunRowsHashed(w.server, ServerRun(p, w, run));
    forall e | Pending(w.client, e) ensures Recorded(p, u.server, e) {
      assert DeliveredOnce(p, t, ServerRun(p, start, past + run), e);
    }
    RecordedWereCompatible(p, w, u.server);
  }

  /** Before a stop, whatever happened so far: sends and arrivals alone can bring
      everything pending to be delivered and counted once, exactly when no row
      holds a pending event's id under another hash, and no two pending events
      claim one id with different bodies. */
  lemma PendingDeliverable(p: Setting, files: seq<Spool.Entry>, t: Tables, past: seq<Action>)
    requires Spool.Ordered(files) && IngestRuns.Valid(t) && HashedRows(p, t)
    requires DeliveryProgress.NoStop(After(p, Start(files, t), past).client)
    ensures Compatible(p, After(p, Start(files, t), past)) <==> exists run :: DeliversAll(p, files, t, past, run)
  {
    if Compatible(p, After(p, Start(files, t), past)) {
      var run := CompatibleDelivers(p, files, t, past);
    } else if run :| DeliversAll(p, files, t, past, run) {
      DeliveredWereCompatible(p, files, t, past, run);
    }
  }
}
