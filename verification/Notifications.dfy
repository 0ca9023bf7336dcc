/** The issue store and the outbox together: every ingest inserts its outbox rows
    in its own transaction, deleting an endpoint deletes its rows, and the worker
    runs in between. */
module Notifications {
  import opened Text
  import Ingest
  import IngestRuns
  import Outbox

  /** What an outbox row is for. */
  datatype Origin = Origin(project: int, eventId: string, endpoint: int)

  /** `work` is all that happened to the outbox; `removed` holds the endpoints
      ever deleted. Origins of deleted rows are remembered. */
  datatype World = World(tables: Ingest.Tables, work: seq<Outbox.Action>, origins: map<int, Origin>, removed: set<int>)

  const EMPTY := World(Ingest.EMPTY, [], map[], {})

  ghost function Box(w: World): Outbox.State {
    Outbox.After(Outbox.EMPTY, w.work)
  }

  datatype Action =
    | Serve(request: IngestRuns.Action, order: seq<int>, elapsed: nat)
    | DeleteEndpoint(endpoint: int, rows: seq<int>)
    | Work(action: Outbox.Action)

  // ---- Steps -------------------------------------------------------------

  ghost function Did(w: World, action: Outbox.Action): World {
    w.(work := w.work + [action])
  }

  ghost function Inserted(w: World, b: Ingest.Batch, endpoint: int, elapsed: nat): World {
    Did(w, Outbox.Enqueue(elapsed)).(origins := w.origins[Box(w).nextId := Origin(b.project, b.eventId, endpoint)])
  }

  /** The rows of one batch, in the order the database visits its endpoints, all
      at one time. */
  ghost function AllInserted(w: World, b: Ingest.Batch, order: seq<int>, elapsed: nat): World {
    if order == [] then w
    else Inserted(AllInserted(w, b, order[..|order| - 1], elapsed), b, order[|order| - 1],
                  if |order| == 1 then elapsed else 0)
  }

  ghost function AllDiscarded(w: World, rows: seq<int>): World {
    if rows == [] then w else Did(AllDiscarded(w, rows[..|rows| - 1]), Outbox.Discard(rows[|rows| - 1]))
  }

  /** The batch an action adds, if it adds one. */
  ghost function NewBatch(t: Ingest.Tables, u: Ingest.Tables): Option<Ingest.Batch> {
    if |u.outbox| == |t.outbox| + 1 then Some(u.outbox[|t.outbox|]) else None
  }

  ghost function RowsOf(w: World, endpoint: int): set<int> {
    set id | id in Box(w).rows && id in w.origins && w.origins[id].endpoint == endpoint
  }

  ghost predicate Enabled(w: World, a: Action) {
    match a
    case Serve(request, order, _) =>
      && !(request.SetEndpoint? && request.endpoint.None?)
      && (var b := NewBatch(w.tables, IngestRuns.Apply(w.tables, request));
          b.Some? ==> NoDuplicates(order) && Elements(order) == b.value.endpoints)
    case DeleteEndpoint(endpoint, rows) => Elements(rows) == RowsOf(w, endpoint)
    case Work(action) => action.Claim? || action.Finish?
  }

  ghost function Moved(w: World, a: Action): World {
    match a
    case Serve(request, order, elapsed) =>
      var tables := IngestRuns.Apply(w.tables, request);
      var b := NewBatch(w.tables, tables);
      if b.Some? then AllInserted(w.(tables := tables), b.value, order, elapsed) else w.(tables := tables)
    case DeleteEndpoint(endpoint, rows) =>
      AllDiscarded(w, rows).(tables := IngestRuns.Apply(w.tables, IngestRuns.SetEndpoint(endpoint, None)),
                             removed := w.removed + {endpoint})
    case Work(action) => Did(w, action)
  }

  ghost function Step(w: World, a: Action): World {
    if Enabled(w, a) then Moved(w, a) else w
  }

  ghost function After(w: World, run: seq<Action>): World {
    if run == [] then w else Step(After(w, run[..|run| - 1]), run[|run| - 1])
  }

  // ---- The invariant -----------------------------------------------------

  /** Some batch notifies the endpoint of the event. */
  ghost predicate Notifies(outbox: seq<Ingest.Batch>, o: Origin) {
    exists k :: 0 <= k < |outbox| && IsFor(outbox[k], o)
  }

  ghost predicate IsFor(b: Ingest.Batch, o: Origin) {
    b.project == o.project && b.eventId == o.eventId && o.endpoint in b.endpoints
  }

  ghost predicate HasRow(origins: map<int, Origin>, o: Origin) {
    exists id :: id in origins && origins[id] == o
  }

  ghost predicate Unique(origins: map<int, Origin>) {
    forall a, b | a in origins && b in origins && origins[a] == origins[b] :: a == b
  }

  /** Rows carry the next numbers; one that is gone went with its endpoint. */
  ghost predicate Kept(w: World) {
    && (forall id | id in Box(w).rows :: id in w.origins)
    && (forall id | id in w.origins :: id < Box(w).nextId)
    && (forall id | id in w.origins && id !in Box(w).rows :: w.origins[id].endpoint in w.removed)
  }

  ghost predicate Valid(w: World) {
    && IngestRuns.Valid(w.tables) && Unique(w.origins) && Kept(w)
    && (forall o :: HasRow(w.origins, o) <==> Notifies(w.tables.outbox, o))
  }

  // ---- Outbox actions ----------------------------------------------------

  lemma BoxDid(w: World, action: Outbox.Action)
    ensures Box(Did(w, action)) == Outbox.Step(Box(w), action)
  {
    assert (w.work + [action])[..|w.work|] == w.work;
  }

  lemma WorkKept(w: World, action: Outbox.Action)
    requires Kept(w) && (action.Claim? || action.Finish?)
    ensures Kept(Did(w, action))
    ensures Box(Did(w, action)).rows.Keys == Box(w).rows.Keys && Box(Did(w, action)).nextId == Box(w).nextId
  {
    BoxDid(w, action);
    if action.Claim? { Outbox.NextOrNone(Box(w).rows, Box(w).clock + action.elapsed); }
  }

  lemma OriginAdded(origins: map<int, Origin>, grown: map<int, Origin>, id: int, origin: Origin)
    requires Unique(origins) && id !in origins && !HasRow(origins, origin) && grown == origins[id := origin]
    ensures Unique(grown) && forall o :: HasRow(grown, o) <==> HasRow(origins, o) || o == origin
  {
    assert forall a | a in origins :: origins[a] != origin;
    forall o ensures HasRow(grown, o) <==> HasRow(origins, o) || o == origin {
      if a :| a in origins && origins[a] == o { assert grown[a] == o; }
      if o == origin { assert grown[id] == o; }
    }
  }

  lemma InsertedKept(w: World, b: Ingest.Batch, endpoint: int, elapsed: nat)
    requires Kept(w) && Unique(w.origins) && !HasRow(w.origins, Origin(b.project, b.eventId, endpoint))
    ensures var u := Inserted(w, b, endpoint, elapsed);
            && Kept(u) && Unique(u.origins) && u.tables == w.tables && u.removed == w.removed
            && forall o :: HasRow(u.origins, o) <==> HasRow(w.origins, o) || o == Origin(b.project, b.eventId, endpoint)
  {
    var u := Inserted(w, b, endpoint, elapsed);
    BoxDid(w, Outbox.Enqueue(elapsed));
    assert Box(u) == Outbox.Step(Box(w), Outbox.Enqueue(elapsed));
    OriginAdded(w.origins, u.origins, Box(w).nextId, Origin(b.project, b.eventId, endpoint));
  }

  lemma {:induction false} AllInsertedKept(w: World, b: Ingest.Batch, order: seq<int>, elapsed: nat)
    requires Kept(w) && Unique(w.origins) && NoDuplicates(order)
    requires forall e :: !HasRow(w.origins, Origin(b.project, b.eventId, e))
    ensures var u := AllInserted(w, b, order, elapsed);
            && Kept(u) && Unique(u.origins) && u.tables == w.tables && u.removed == w.removed
            && forall o :: HasRow(u.origins, o) <==>
                           HasRow(w.origins, o)
                           || (o.project == b.project && o.eventId == b.eventId && o.endpoint in order)
  {
    if order != [] {
      var before, last := order[..|order| - 1], order[|order| - 1];
      AllInsertedKept(w, b, before, elapsed);
      assert order == before + [last] && last !in before;
      InsertedKept(AllInserted(w, b, before, elapsed), b, last, if |order| == 1 then elapsed else 0);
    }
  }

  lemma {:induction false} AllDiscardedKept(w: World, rows: seq<int>, endpoint: int)
    requires Kept(w) && forall id | id in rows :: id in RowsOf(w, endpoint)
    ensures var u := AllDiscarded(w, rows);
            && u.tables == w.tables && u.origins == w.origins && u.removed == w.removed
            && Box(u).nextId == Box(w).nextId && Box(u).rows.Keys == Box(w).rows.Keys - Elements(rows)
            && forall id | id in Box(u).rows :: Box(u).rows[id] == Box(w).rows[id]
  {
    if rows != [] {
      var before, last := rows[..|rows| - 1], rows[|rows| - 1];
      assert rows == before + [last];
      AllDiscardedKept(w, before, endpoint);
      BoxDid(AllDiscarded(w, before), Outbox.Discard(last));
      ElementsOfAppend(before, last);
    }
  }

  // ---- Every step --------------------------------------------------------

  lemma OutboxGrows(t: Ingest.Tables, request: IngestRuns.Action)
    ensures var u := IngestRuns.Apply(t, request);
            u.outbox == if NewBatch(t, u).Some? then t.outbox + [NewBatch(t, u).value] else t.outbox
  {
    if request.IngestEvent? {
      IngestRuns.IngestedCases(t, request.q, request.now);
    } else {
      IngestRuns.ManualKeeps(t, request);
    }
  }

  lemma BatchIsNew(outbox: seq<Ingest.Batch>, u: Ingest.Tables, b: Ingest.Batch, e: int)
    requires IngestRuns.NotifiedOnce(u) && u.outbox == outbox + [b]
    ensures !Notifies(outbox, Origin(b.project, b.eventId, e))
  {
    forall k | 0 <= k < |outbox| ensures !IsFor(outbox[k], Origin(b.project, b.eventId, e)) {
      assert u.outbox[k] == outbox[k] && u.outbox[|outbox|] == b;
    }
  }

  lemma NotifiesSnoc(outbox: seq<Ingest.Batch>, b: Ingest.Batch, o: Origin)
    ensures Notifies(outbox + [b], o) <==> Notifies(outbox, o) || IsFor(b, o)
  {
    if k :| 0 <= k < |outbox| && IsFor(outbox[k], o) { assert IsFor((outbox + [b])[k], o); }
    if IsFor(b, o) { assert IsFor((outbox + [b])[|outbox|], o); }
  }

  lemma ServeValid(w: World, request: IngestRuns.Action, order: seq<int>, elapsed: nat)
    requires Valid(w) && Enabled(w, Serve(request, order, elapsed))
    ensures Valid(Moved(w, Serve(request, order, elapsed)))
  {
    var tables := IngestRuns.Apply(w.tables, request);
    IngestRuns.ApplyValid(w.tables, request);
    OutboxGrows(w.tables, request);
    var b := NewBatch(w.tables, tables);
    if b.Some? {
      var served := w.(tables := tables);
      forall e ensures !HasRow(w.origins, Origin(b.value.project, b.value.eventId, e)) {
        BatchIsNew(w.tables.outbox, tables, b.value, e);
      }
      assert Kept(served);
      AllInsertedKept(served, b.value, order, elapsed);
      forall o ensures Notifies(tables.outbox, o) <==> Notifies(w.tables.outbox, o) || IsFor(b.value, o) {
        NotifiesSnoc(w.tables.outbox, b.value, o);
      }
      assert forall e :: e in order <==> e in Elements(order);
    }
  }

  lemma DeleteValid(w: World, endpoint: int, rows: seq<int>)
    requires Valid(w) && Enabled(w, DeleteEndpoint(endpoint, rows))
    ensures Valid(Moved(w, DeleteEndpoint(endpoint, rows)))
  {
    var u := Moved(w, DeleteEndpoint(endpoint, rows));
    IngestRuns.ApplyValid(w.tables, IngestRuns.SetEndpoint(endpoint, None));
    forall id | id in rows ensures id in RowsOf(w, endpoint) { assert id in Elements(rows); }
    AllDiscardedKept(w, rows, endpoint);
    assert Box(u) == Box(AllDiscarded(w, rows));
  }

  lemma StepValid(w: World, a: Action)
    requires Valid(w)
    ensures Valid(Step(w, a))
  {
    if Enabled(w, a) {
      match a
      case Serve(request, order, elapsed) => ServeValid(w, request, order, elapsed);
      case DeleteEndpoint(endpoint, rows) => DeleteValid(w, endpoint, rows);
      case Work(action) => WorkKept(w, action);
    }
  }

  lemma {:induction false} RunValid(run: seq<Action>)
    ensures Valid(After(EMPTY, run))
  {
    if run == [] {
      IngestRuns.EmptyValid();
    } else {
      RunValid(run[..|run| - 1]);
      StepValid(After(EMPTY, run[..|run| - 1]), run[|run| - 1]);
    }
  }

  // ---- Results -----------------------------------------------------------

  /** In every reachable state an event has at most one outbox row for an
      endpoint, and has one exactly when some batch of its project names the
      endpoint; the row is there until it is deleted with its endpoint, and once
      delivered it is never claimed again. */
  lemma OneRowPerEndpoint(run: seq<Action>)
    ensures var w := After(EMPTY, run);
            && Unique(w.origins) && (forall o :: HasRow(w.origins, o) <==> Notifies(w.tables.outbox, o))
            && (forall id | id in w.origins :: id in Box(w).rows || w.origins[id].endpoint in w.removed)
            && (forall id, i: nat | i < |Outbox.Life(w.work, id)| && Outbox.Life(w.work, id)[i].Delivered? ::
                  i == |Outbox.Life(w.work, id)| - 1)
  {
    RunValid(run);
    var w := After(EMPTY, run);
    forall id, i: nat | i < |Outbox.Life(w.work, id)| && Outbox.Life(w.work, id)[i].Delivered?
      ensures i == |Outbox.Life(w.work, id)| - 1
    {
      Outbox.DeliveredIsFinal(w.work, id, i);
    }
  }

  /** Deleting an endpoint deletes exactly its rows. */
  lemma EndpointDeleted(run: seq<Action>, endpoint: int, rows: seq<int>)
    requires Enabled(After(EMPTY, run), DeleteEndpoint(endpoint, rows))
    ensures var w := After(EMPTY, run);
            var u := Step(w, DeleteEndpoint(endpoint, rows));
            && Box(u).rows.Keys == Box(w).rows.Keys - RowsOf(w, endpoint)
            && (forall id | id in Box(u).rows :: Box(u).rows[id] == Box(w).rows[id])
            && u.origins == w.origins && endpoint !in u.tables.endpoints
  {
    var w := After(EMPTY, run);
    RunValid(run);
    forall id | id in rows ensures id in RowsOf(w, endpoint) { assert id in Elements(rows); }
    AllDiscardedKept(w, rows, endpoint);
    assert Box(Moved(w, DeleteEndpoint(endpoint, rows))) == Box(AllDiscarded(w, rows));
  }

  /** However often an event was sent and whatever crashed: every endpoint its
      batch named and that was not deleted is notified by a restarted worker with
      willing destinations. */
  lemma EveryEndpointNotified(run: seq<Action>, o: Origin)
    requires var w := After(EMPTY, run); Notifies(w.tables.outbox, o) && o.endpoint !in w.removed
    ensures var w := After(EMPTY, run);
            var turns := Outbox.Patiently(|Outbox.Undelivered(Box(w).rows)|);
            var u := Outbox.After(Outbox.Step(Box(w), Outbox.Finish(0, Outbox.Lost)), Outbox.Actions(turns));
            exists id :: id in w.origins && w.origins[id] == o && id in u.rows && u.rows[id].deliveredAt.Some?
  {
    var w := After(EMPTY, run);
    RunValid(run);
    assert HasRow(w.origins, o);
    var id :| id in w.origins && w.origins[id] == o;
    Outbox.EverythingDelivered(w.work);
  }
}
