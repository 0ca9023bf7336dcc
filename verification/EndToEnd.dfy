/** SDK and server together. The network may lose, delay and repeat requests and
    responses and the server serves other traffic at any time, but what the SDK
    counts as delivered is stored, and counted once. */
module EndToEnd {
  import opened Text
  import Spool
  import Delivery
  import DeliveryOrder
  import DeliveryRuns
  import opened Ingest
  import IngestRuns

  type Event = Spool.Event

  /** The SDK's project, and what the server computes from a request body. */
  datatype Setting = Setting(cfg: Delivery.Config, project: int, hash: string -> string, fingerprint: string -> string)

  /** `wire` holds the events the SDK has put on the network, `acked` those the
      server has answered with success at least once. */
  datatype World = World(client: Delivery.State, server: Tables, wire: set<Event>, acked: set<Event>)

  datatype Action =
    | Sdk(action: Delivery.Action)
    | Arrive(event: Event, q: Request, now: int)
    | Other(request: IngestRuns.Action)

  ghost function Start(files: seq<Spool.Entry>, t: Tables): World {
    World(Delivery.Start(files), t, {}, {})
  }

  /** The event whose response the worker awaits. */
  function Awaited(phase: Delivery.Phase): set<Event> {
    if phase.Sending? then {phase.event}
    else if phase.Resending? && phase.entry.content.Some? then {phase.entry.content.value}
    else {}
  }

  /** The request carries this body. */
  ghost predicate Carries(p: Setting, q: Request, body: string) {
    q.bodyHash == p.hash(body) && q.fingerprint == p.fingerprint(body)
  }

  /** A success response needs a success answer; any other response, or none,
      may come at any time, whatever the server did. */
  ghost predicate Enabled(p: Setting, w: World, a: Action) {
    match a
    case Sdk(action) =>
      (action.FinishSend? || action.FinishResend?) && Spool.Classify(action.response).Delivered? ==>
        Awaited(w.client.phase) <= w.acked
    case Arrive(event, q, _) =>
      event in w.wire && q.project == p.project && q.producerId == event.id && Carries(p, q, event.body)
    case Other(request) => request.IngestEvent? ==> exists body :: Carries(p, request.q, body)
  }

  ghost function Moved(p: Setting, w: World, a: Action): World {
    match a
    case Sdk(action) =>
      var client := Delivery.Step(p.cfg, w.client, action);
      w.(client := client, wire := w.wire + Awaited(client.phase))
    case Arrive(event, q, now) =>
      var (server, r) := Ingested(w.server, q, now);
      w.(server := server, acked := if r.Ok? then w.acked + {event} else w.acked)
    case Other(request) => w.(server := IngestRuns.Apply(w.server, request))
  }

  ghost function Step(p: Setting, w: World, a: Action): World {
    if Enabled(p, w, a) then Moved(p, w, a) else w
  }

  ghost function After(p: Setting, w: World, run: seq<Action>): World {
    if run == [] then w else Step(p, After(p, w, run[..|run| - 1]), run[|run| - 1])
  }

  // ---- Each side's own run -----------------------------------------------

  function OnClient(a: Action): seq<Delivery.Action> {
    if a.Sdk? then [a.action] else []
  }

  function OnServer(a: Action): seq<IngestRuns.Action> {
    match a
    case Sdk(_) => []
    case Arrive(_, q, now) => [IngestRuns.IngestEvent(q, now)]
    case Other(request) => [request]
  }

  ghost function ClientRun(p: Setting, w: World, run: seq<Action>): seq<Delivery.Action> {
    if run == [] then []
    else
      var before, a := run[..|run| - 1], run[|run| - 1];
      ClientRun(p, w, before) + (if Enabled(p, After(p, w, before), a) then OnClient(a) else [])
  }

  ghost function ServerRun(p: Setting, w: World, run: seq<Action>): seq<IngestRuns.Action> {
    if run == [] then []
    else
      var before, a := run[..|run| - 1], run[|run| - 1];
      ServerRun(p, w, before) + (if Enabled(p, After(p, w, before), a) then OnServer(a) else [])
  }

  lemma MovedSides(p: Setting, w: World, a: Action)
    ensures Moved(p, w, a).client == Delivery.After(p.cfg, w.client, OnClient(a))
    ensures Moved(p, w, a).server == IngestRuns.After(w.server, OnServer(a))
  {
    match a
    case Sdk(action) => DeliveryOrder.AfterOne(p.cfg, w.client, action);
    case Arrive(_, q, now) => assert OnServer(a)[..0] == [];
    case Other(request) => assert OnServer(a)[..0] == [];
  }

  /** Together, each side does what it could do alone. */
  lemma {:induction false} SidesAlone(p: Setting, w: World, run: seq<Action>)
    ensures After(p, w, run).client == Delivery.After(p.cfg, w.client, ClientRun(p, w, run))
    ensures After(p, w, run).server == IngestRuns.After(w.server, ServerRun(p, w, run))
  {
    if run != [] {
      var before, a := run[..|run| - 1], run[|run| - 1];
      var clientRun, serverRun := ClientRun(p, w, before), ServerRun(p, w, before);
      SidesAlone(p, w, before);
      if Enabled(p, After(p, w, before), a) {
        MovedSides(p, After(p, w, before), a);
        DeliveryOrder.AfterConcat(p.cfg, w.client, clientRun, OnClient(a));
        IngestRuns.AfterConcat(w.server, serverRun, OnServer(a));
      } else {
        assert clientRun + [] == clientRun && serverRun + [] == serverRun;
      }
    }
  }

  // ---- Delivered means stored --------------------------------------------

  /** The server holds a row for the event; a row older than body hashing
      counts for any body. */
  ghost predicate Recorded(p: Setting, t: Tables, e: Event) {
    exists s :: RowFor(p, t, s, e)
  }

  ghost predicate RowFor(p: Setting, t: Tables, s: string, e: Event) {
    IsRaw(t.raws, s, p.project, e.id) && (t.raws[s].bodyHash.None? || t.raws[s].bodyHash.value == p.hash(e.body))
  }

  /** Every row's event was grouped by a body with the row's hash. */
  ghost predicate Hashed(p: Setting, t: Tables, s: string, body: string) {
    && s in t.raws && s in t.events && t.raws[s].bodyHash == Some(p.hash(body))
    && t.events[s].fingerprint == p.fingerprint(body)
  }

  ghost predicate HashedRows(p: Setting, t: Tables) {
    forall s | s in t.raws && t.raws[s].bodyHash.Some? :: exists body :: Hashed(p, t, s, body)
  }

  ghost predicate Valid(p: Setting, w: World) {
    && DeliveryRuns.Valid(w.client) && IngestRuns.Valid(w.server) && HashedRows(p, w.server)
    && (forall e | e in w.client.ledger.delivered :: e in w.acked)
    && (forall e | e in w.acked :: Recorded(p, w.server, e))
    && w.acked <= w.wire && (forall e | e in w.wire :: e in w.client.ledger.captured)
    && Awaited(w.client.phase) <= w.wire
  }

  lemma RecordedStays(p: Setting, t: Tables, u: Tables, e: Event)
    requires IngestRuns.Extends(t, u) && Recorded(p, t, e)
    ensures Recorded(p, u, e)
  {
    var s :| RowFor(p, t, s, e);
    assert RowFor(p, u, s, e);
  }

  /** A success answer means the event is stored, now or before. */
  lemma AckedRecorded(p: Setting, t: Tables, e: Event, q: Request, now: int)
    requires IngestRuns.Paired(t) && UniqueRaws(t.raws)
    requires q.project == p.project && q.producerId == e.id && q.bodyHash == p.hash(e.body)
    requires Ingested(t, q, now).1.Ok?
    ensures Recorded(p, Ingested(t, q, now).0, e)
  {
    var u := Ingested(t, q, now).0;
    if s :| IsRaw(t.raws, s, q.project, q.producerId) {
      IngestRuns.KnownAnswer(t, s, q, now);
      assert RowFor(p, u, s, e);
    } else {
      assert RawOf(t.raws, q.project, q.producerId).None?;
      IngestRuns.IngestedCases(t, q, now);
      assert RowFor(p, u, q.storageId, e);
    }
  }

  lemma IngestHashes(p: Setting, t: Tables, q: Request, now: int, body: string)
    requires IngestRuns.Paired(t) && HashedRows(p, t) && Carries(p, q, body)
    ensures HashedRows(p, Ingested(t, q, now).0)
  {
    var u := Ingested(t, q, now).0;
    IngestRuns.IngestedCases(t, q, now);
    forall s | s in u.raws && u.raws[s].bodyHash.Some? ensures exists body :: Hashed(p, u, s, body) {
      if IngestRuns.IsNew(t, q) && s == q.storageId {
        assert Hashed(p, u, s, body);
      } else {
        var b :| Hashed(p, t, s, b);
        assert Hashed(p, u, s, b);
      }
    }
  }

  lemma SameRowsHashed(p: Setting, t: Tables, u: Tables)
    requires HashedRows(p, t) && u.raws == t.raws && u.events == t.events
    ensures HashedRows(p, u)
  {
    forall s | s in u.raws && u.raws[s].bodyHash.Some? ensures exists body :: Hashed(p, u, s, body) {
      var b :| Hashed(p, t, s, b);
      assert Hashed(p, u, s, b);
    }
  }

  lemma ApplyHashes(p: Setting, t: Tables, a: IngestRuns.Action)
    requires IngestRuns.Paired(t) && HashedRows(p, t) && (a.IngestEvent? ==> exists body :: Carries(p, a.q, body))
    ensures HashedRows(p, IngestRuns.Apply(t, a))
  {
    if a.IngestEvent? {
      var body :| Carries(p, a.q, body);
      IngestHashes(p, t, a.q, a.now, body);
    } else {
      IngestRuns.ManualKeeps(t, a);
      SameRowsHashed(p, t, IngestRuns.Apply(t, a));
    }
  }

  /** The ledger grows only by what a capture adds, and delivers only on success. */
  lemma LedgerStep(cfg: Delivery.Config, s: Delivery.State, a: Delivery.Action)
    ensures s.ledger.captured <= Delivery.Step(cfg, s, a).ledger.captured
    ensures Delivery.Step(cfg, s, a).ledger.delivered == s.ledger.delivered
         || ((a.FinishSend? || a.FinishResend?) && Spool.Classify(a.response).Delivered?
             && exists e | e in Awaited(s.phase) ::
                  Delivery.Step(cfg, s, a).ledger.delivered == s.ledger.delivered + multiset{e})
  {
    match a
    case FinishSend(response, name) =>
      if s.phase.Sending? && name !in s.names && Spool.Classify(response).Delivered? {
        assert s.phase.event in Awaited(s.phase);
      }
    case FinishResend(response) =>
      if s.phase.Resending? && s.phase.entry.content.Some? && Spool.Classify(response).Delivered? {
        assert s.phase.entry.content.value in Awaited(s.phase);
      }
    case _ =>
  }

  lemma AwaitedCaptured(s: Delivery.State)
    requires DeliveryRuns.Valid(s)
    ensures forall e | e in Awaited(s.phase) :: e in s.ledger.captured
  {
    if s.phase.Resending? && s.phase.entry in s.files { DeliveryRuns.OnDiskMember(s.files, s.phase.entry); }
  }

  lemma SdkValid(p: Setting, w: World, action: Delivery.Action)
    requires Valid(p, w) && Enabled(p, w, Sdk(action))
    ensures Valid(p, Moved(p, w, Sdk(action)))
  {
    var u := Moved(p, w, Sdk(action));
    DeliveryRuns.StepValid(p.cfg, w.client, action);
    LedgerStep(p.cfg, w.client, action);
    AwaitedCaptured(u.client);
    forall e | e in u.client.ledger.delivered ensures e in u.acked {
      assert e in w.client.ledger.delivered || e in Awaited(w.client.phase);
    }
  }

  lemma ServerValid(p: Setting, w: World, a: IngestRuns.Action)
    requires Valid(p, w) && (a.IngestEvent? ==> exists body :: Carries(p, a.q, body))
    ensures Valid(p, w.(server := IngestRuns.Apply(w.server, a)))
  {
    var server := IngestRuns.Apply(w.server, a);
    IngestRuns.ApplyValid(w.server, a);
    IngestRuns.ApplyExtends(w.server, a);
    ApplyHashes(p, w.server, a);
    forall e | e in w.acked ensures Recorded(p, server, e) { RecordedStays(p, w.server, server, e); }
  }

  lemma AckedValid(p: Setting, w: World, e: Event)
    requires Valid(p, w) && e in w.wire && Recorded(p, w.server, e)
    ensures Valid(p, w.(acked := w.acked + {e}))
  {
  }

  lemma ArriveValid(p: Setting, w: World, event: Event, q: Request, now: int)
    requires Valid(p, w) && Enabled(p, w, Arrive(event, q, now))
    ensures Valid(p, Moved(p, w, Arrive(event, q, now)))
  {
    ServerValid(p, w, IngestRuns.IngestEvent(q, now));
    if Ingested(w.server, q, now).1.Ok? {
      AckedRecorded(p, w.server, event, q, now);
      AckedValid(p, w.(server := Ingested(w.server, q, now).0), event);
    }
  }

  lemma StepValid(p: Setting, w: World, a: Action)
    requires Valid(p, w)
    ensures Valid(p, Step(p, w, a))
  {
    if Enabled(p, w, a) {
      match a
      case Sdk(action) => SdkValid(p, w, action);
      case Arrive(event, q, now) => ArriveValid(p, w, event, q, now);
      case Other(request) => ServerValid(p, w, request);
    }
  }

  lemma {:induction false} RunKeepsValid(p: Setting, w: World, run: seq<Action>)
    requires Valid(p, w)
    ensures Valid(p, After(p, w, run))
  {
    if run != [] {
      RunKeepsValid(p, w, run[..|run| - 1]);
      StepValid(p, After(p, w, run[..|run| - 1]), run[|run| - 1]);
    }
  }

  lemma RunValid(p: Setting, files: seq<Spool.Entry>, t: Tables, run: seq<Action>)
    requires Spool.Ordered(files) && IngestRuns.Valid(t) && HashedRows(p, t)
    ensures Valid(p, After(p, Start(files, t), run))
  {
    DeliveryRuns.RunValid(p.cfg, files, []);
    RunKeepsValid(p, Start(files, t), run);
  }

  // ---- Exactly once ------------------------------------------------------

  /** The event id has one row, counted in one issue. */
  ghost predicate CountedIn(t: Tables, s: string, project: int, id: string) {
    && IsRaw(t.raws, s, project, id) && (forall r | IsRaw(t.raws, r, project, id) :: r == s)
    && s in t.events && t.events[s].issueId in t.issues
    && (var i := t.events[s].issueId;
        t.issues[i].project == project && t.issues[i].fingerprint == t.events[s].fingerprint
        && t.issues[i].eventCount == |IngestRuns.EventsOf(t.events, i)|)
    && forall i | i in t.issues :: s in IngestRuns.EventsOf(t.events, i) <==> i == t.events[s].issueId
  }

  lemma RowCounted(t: Tables, s: string, project: int, id: string)
    requires IngestRuns.Valid(t) && IsRaw(t.raws, s, project, id)
    ensures CountedIn(t, s, project, id)
  {
  }

  lemma {:induction false} NoBatches(outbox: seq<Batch>, project: int, id: string)
    requires forall k | 0 <= k < |outbox| :: outbox[k].project != project || outbox[k].eventId != id
    ensures IngestRuns.BatchesFor(outbox, project, id) == 0
  {
    if outbox != [] { NoBatches(outbox[..|outbox| - 1], project, id); }
  }

  lemma {:induction false} OneBatch(outbox: seq<Batch>, project: int, id: string)
    requires forall j, k | 0 <= j < k < |outbox| ::
               outbox[j].project != outbox[k].project || outbox[j].eventId != outbox[k].eventId
    ensures IngestRuns.BatchesFor(outbox, project, id) <= 1
  {
    if outbox != [] {
      var before, last := outbox[..|outbox| - 1], outbox[|outbox| - 1];
      if last.project == project && last.eventId == id {
        NoBatches(before, project, id);
      } else {
        OneBatch(before, project, id);
      }
    }
  }

  /** The event id has one row, counted in one issue; it was accepted once, unless
      its row was there from the start, and notified at most once. */
  ghost predicate StoredOnce(t: Tables, serverRun: seq<IngestRuns.Action>, project: int, id: string) {
    var u := IngestRuns.After(t, serverRun);
    && (exists s :: CountedIn(u, s, project, id))
    && IngestRuns.AcceptsIn(t, serverRun, project, id) == (if IngestRuns.Committed(t, project, id) then 0 else 1)
    && IngestRuns.BatchesFor(u.outbox, project, id) <= 1
  }

  lemma CommittedOnce(t: Tables, serverRun: seq<IngestRuns.Action>, project: int, id: string)
    requires IngestRuns.Valid(t) && IngestRuns.Committed(IngestRuns.After(t, serverRun), project, id)
    ensures StoredOnce(t, serverRun, project, id)
  {
    var u := IngestRuns.After(t, serverRun);
    IngestRuns.RunValid(t, serverRun);
    var s :| IsRaw(u.raws, s, project, id);
    RowCounted(u, s, project, id);
    IngestRuns.CountedOnce(t, serverRun, project, id);
    OneBatch(u.outbox, project, id);
  }

  /** What being delivered means at the server, all told. */
  ghost predicate DeliveredOnce(p: Setting, t: Tables, serverRun: seq<IngestRuns.Action>, e: Event) {
    Recorded(p, IngestRuns.After(t, serverRun), e) && StoredOnce(t, serverRun, p.project, e.id)
  }

  lemma RecordedIsCommitted(p: Setting, t: Tables, e: Event)
    requires Recorded(p, t, e)
    ensures IngestRuns.Committed(t, p.project, e.id)
  {
    var s :| RowFor(p, t, s, e);
    assert IsRaw(t.raws, s, p.project, e.id);
  }

  /** Over any interleaving of sends, lost and repeated messages, spool retries
      and other traffic: every event the SDK accepted is still queued, in flight
      or spooled, or delivered, or known lost; every event id the server holds,
      acknowledged or not, was accepted exactly once, sits in one row of one
      issue, adds one to that issue's count and is notified at most once; and
      what the SDK counts as delivered the server holds. */
  lemma ExactlyOnce(p: Setting, files: seq<Spool.Entry>, t: Tables, run: seq<Action>)
    requires Spool.Ordered(files) && IngestRuns.Valid(t) && HashedRows(p, t)
    ensures var w, serverRun := After(p, Start(files, t), run), ServerRun(p, Start(files, t), run);
            && w.client.taken <= |w.client.commands|
            && DeliveryRuns.Conserved(w.client.commands[w.client.taken..], w.client.phase, w.client.files,
                                      w.client.ledger)
            && w.server == IngestRuns.After(t, serverRun)
            && (forall id | IngestRuns.Committed(w.server, p.project, id) :: StoredOnce(t, serverRun, p.project, id))
            && (forall e | e in w.client.ledger.delivered :: DeliveredOnce(p, t, serverRun, e))
  {
    var w, serverRun := After(p, Start(files, t), run), ServerRun(p, Start(files, t), run);
    RunValid(p, files, t, run);
    SidesAlone(p, Start(files, t), run);
    forall id | IngestRuns.Committed(w.server, p.project, id) ensures StoredOnce(t, serverRun, p.project, id) {
      CommittedOnce(t, serverRun, p.project, id);
    }
    forall e | e in w.client.ledger.delivered ensures DeliveredOnce(p, t, serverRun, e) {
      RecordedIsCommitted(p, w.server, e);
    }
  }

  /** When nothing is pending and nothing was lost, every accepted event is
      counted exactly once. */
  lemma NothingPendingAllCounted(p: Setting, files: seq<Spool.Entry>, t: Tables, run: seq<Action>)
    requires Spool.Ordered(files) && IngestRuns.Valid(t) && HashedRows(p, t)
    requires var s := After(p, Start(files, t), run).client;
             && s.taken == |s.commands| && !s.phase.Sending? && s.files == []
             && s.ledger.rejected == s.ledger.evicted == s.ledger.dropped == multiset{}
    ensures var w := After(p, Start(files, t), run);
            && w.client.ledger.captured == w.client.ledger.delivered
            && forall e | e in w.client.ledger.captured ::
                 DeliveredOnce(p, t, ServerRun(p, Start(files, t), run), e)
  {
    ExactlyOnce(p, files, t, run);
  }

  /** Unless another body has the same hash, a delivered event whose row has a hash
      is counted in the issue of its own fingerprint. */
  lemma DeliveredGrouped(p: Setting, files: seq<Spool.Entry>, t: Tables, run: seq<Action>, e: Event, s: string)
    requires Spool.Ordered(files) && IngestRuns.Valid(t) && HashedRows(p, t)
    requires forall body :: p.hash(body) == p.hash(e.body) ==> body == e.body
    requires var w := After(p, Start(files, t), run);
             && e in w.client.ledger.delivered && IsRaw(w.server.raws, s, p.project, e.id)
             && w.server.raws[s].bodyHash.Some?
    ensures var u := After(p, Start(files, t), run).server;
            && s in u.events && u.events[s].issueId in u.issues
            && u.issues[u.events[s].issueId].fingerprint == p.fingerprint(e.body)
  {
    var w := After(p, Start(files, t), run);
    RunValid(p, files, t, run);
    var r :| RowFor(p, w.server, r, e);
    assert r == s;
    RowCounted(w.server, s, p.project, e.id);
    var body :| Hashed(p, w.server, s, body);
    assert p.hash(body) == p.hash(e.body);
  }
}
