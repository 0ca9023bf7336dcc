/** The server's issue store (src/handlers.rs): the ingest transaction, manual
    status changes and tag replacement. Tables are maps from row id to row; each
    handler is one atomic step that leaves everything as it was when it fails. */
module Ingest {
  import opened Text
  import Tags

  datatype Status = Unresolved | Resolved | Ignored

  datatype Issue = Issue(project: int, fingerprint: string, title: string, status: Status, eventCount: int)

  /** A row of `raw_events`; rows older than body hashing have no hash. */
  datatype RawEvent = RawEvent(project: int, key: int, producerId: string, bodyHash: Option<string>)

  datatype EventRow = EventRow(project: int, issueId: int, fingerprint: string)

  datatype Activity =
    | StatusChanged(issueId: int, from: Status, to: Status)
    | Regressed(issueId: int, eventId: string)
    | TagsChanged(issueId: int, before: seq<string>, after: seq<string>)

  datatype Kind = IssueCreated | IssueRegressed

  /** The outbox rows one ingest inserts: one for each listed endpoint. */
  datatype Batch = Batch(kind: Kind, project: int, issueId: int, eventId: string, endpoints: set<int>)

  datatype Endpoint = Endpoint(project: int, enabled: bool)

  datatype Tables = Tables(
    issues: map<int, Issue>, raws: map<string, RawEvent>, events: map<string, EventRow>,
    tags: map<int, set<string>>, activity: seq<Activity>, outbox: seq<Batch>,
    endpoints: map<int, Endpoint>, keyUsed: map<int, int>, nextIssue: int)

  /** An authenticated, validated ingest request; `storageId` is the fresh row id. */
  datatype Request = Request(
    project: int, key: int, producerId: string, bodyHash: string, fingerprint: string, title: string,
    eventTags: seq<(string, string)>, storageId: string)

  datatype Response = Response(producerId: string, issueId: int, fingerprint: string, duplicate: bool)

  datatype Error = NotFound | EventConflict | BadRequest | Database

  // ---- Look-ups ----------------------------------------------------------

  predicate IsRaw(raws: map<string, RawEvent>, id: string, project: int, producerId: string) {
    id in raws && raws[id].project == project && raws[id].producerId == producerId
  }

  predicate IsIssue(issues: map<int, Issue>, id: int, project: int, fingerprint: string) {
    id in issues && issues[id].project == project && issues[id].fingerprint == fingerprint
  }

  ghost function RawOf(raws: map<string, RawEvent>, project: int, producerId: string): (r: Option<string>)
    ensures r.Some? ==> IsRaw(raws, r.value, project, producerId)
    ensures r.None? ==> forall id :: !IsRaw(raws, id, project, producerId)
  {
    if exists id :: IsRaw(raws, id, project, producerId) then
      var id :| IsRaw(raws, id, project, producerId);
      Some(id)
    else None
  }

  ghost function IssueOf(issues: map<int, Issue>, project: int, fingerprint: string): (r: Option<int>)
    ensures r.Some? ==> IsIssue(issues, r.value, project, fingerprint)
    ensures r.None? ==> forall id :: !IsIssue(issues, id, project, fingerprint)
  {
    if exists id :: IsIssue(issues, id, project, fingerprint) then
      var id :| IsIssue(issues, id, project, fingerprint);
      Some(id)
    else None
  }

  function TagsOf(tags: map<int, set<string>>, id: int): set<string> {
    if id in tags then tags[id] else {}
  }

  // ---- Ingest ------------------------------------------------------------

  /** Adds labels in order while there is room. */
  function Merged(stored: set<string>, labels: seq<string>, room: int): set<string>
    decreases |labels|
  {
    if labels == [] || room <= 0 then stored
    else if labels[0] in stored then Merged(stored, labels[1..], room)
    else Merged(stored + {labels[0]}, labels[1..], room - 1)
  }

  lemma MergedStep(stored: set<string>, labels: seq<string>, k: nat, room: int)
    requires k < |labels| && room > 0
    ensures Merged(stored, labels[k..], room) ==
            if labels[k] in stored then Merged(stored, labels[k + 1..], room)
            else Merged(stored + {labels[k]}, labels[k + 1..], room - 1)
  {
  }

  /** The issue an event joins or opens, and the notification that follows. */
  datatype Grouping = Grouping(issueId: int, issue: Issue, kind: Option<Kind>)

  ghost function GroupingOf(issues: map<int, Issue>, nextIssue: int, q: Request): Grouping {
    match IssueOf(issues, q.project, q.fingerprint)
    case Some(id) =>
      var issue := issues[id];
      Grouping(id,
               issue.(eventCount := issue.eventCount + 1,
                      status := if issue.status.Resolved? then Unresolved else issue.status),
               if issue.status.Resolved? then Some(IssueRegressed) else None)
    case None =>
      Grouping(nextIssue, Issue(q.project, q.fingerprint, q.title, Unresolved, 1), Some(IssueCreated))
  }

  function EnabledEndpoints(endpoints: map<int, Endpoint>, project: int): set<int> {
    set id | id in endpoints && endpoints[id].project == project && endpoints[id].enabled
  }

  function Labelled(tags: map<int, set<string>>, id: int, labels: seq<string>): map<int, set<string>> {
    if labels == [] then tags
    else
      var stored := TagsOf(tags, id);
      tags[id := Merged(stored, labels, Tags.MAX_TAGS - |stored|)]
  }

  /** The outbox rows of one ingest. */
  function Notified(outbox: seq<Batch>, endpoints: map<int, Endpoint>, q: Request, g: Grouping): seq<Batch> {
    if g.kind.None? then outbox
    else outbox + [Batch(g.kind.value, q.project, g.issueId, q.producerId, EnabledEndpoints(endpoints, q.project))]
  }

  function Reopened(activity: seq<Activity>, q: Request, g: Grouping): seq<Activity> {
    if g.kind == Some(IssueRegressed) then activity + [Regressed(g.issueId, q.producerId)] else activity
  }

  /** Everything a new event writes, once its issue is known. */
  function AcceptedInto(t: Tables, q: Request, now: int, g: Grouping): Tables {
    Tables(
      t.issues[g.issueId := g.issue],
      t.raws[q.storageId := RawEvent(q.project, q.key, q.producerId, Some(q.bodyHash))],
      t.events[q.storageId := EventRow(q.project, g.issueId, q.fingerprint)],
      Labelled(t.tags, g.issueId, Tags.LabelsFromEventTags(q.eventTags)),
      Reopened(t.activity, q, g),
      Notified(t.outbox, t.endpoints, q, g),
      t.endpoints,
      t.keyUsed[q.key := now],
      if g.kind == Some(IssueCreated) then t.nextIssue + 1 else t.nextIssue)
  }

  ghost function Accepted(t: Tables, q: Request, now: int): Tables {
    AcceptedInto(t, q, now, GroupingOf(t.issues, t.nextIssue, q))
  }

  ghost function Ingested(t: Tables, q: Request, now: int): (Tables, Result<Response, Error>) {
    match RawOf(t.raws, q.project, q.producerId)
    case Some(id) =>
      if id !in t.events then (t, Err(Database))
      else if t.raws[id].bodyHash.Some? && t.raws[id].bodyHash.value != q.bodyHash then (t, Err(EventConflict))
      else (t.(keyUsed := t.keyUsed[q.key := now]),
            Ok(Response(q.producerId, t.events[id].issueId, t.events[id].fingerprint, true)))
    case None =>
      if q.storageId in t.raws || q.storageId in t.events then (t, Err(Database))
      else (Accepted(t, q, now),
            Ok(Response(q.producerId, GroupingOf(t.issues, t.nextIssue, q).issueId, q.fingerprint, false)))
  }

  ghost predicate UniqueRaws(raws: map<string, RawEvent>) {
    forall a, b | a in raws && b in raws && raws[a].project == raws[b].project
                  && raws[a].producerId == raws[b].producerId :: a == b
  }

  ghost predicate UniqueIssues(issues: map<int, Issue>) {
    forall a, b | a in issues && b in issues && issues[a].project == issues[b].project
                  && issues[a].fingerprint == issues[b].fingerprint :: a == b
  }

  /** No ingest violates a unique index. */
  lemma IngestedIndexed(t: Tables, q: Request, now: int)
    requires UniqueRaws(t.raws) && UniqueIssues(t.issues)
    ensures UniqueRaws(Ingested(t, q, now).0.raws) && UniqueIssues(Ingested(t, q, now).0.issues)
  {
    var g := GroupingOf(t.issues, t.nextIssue, q);
    if RawOf(t.raws, q.project, q.producerId).None? {
      forall id | id in t.raws ensures t.raws[id].project != q.project || t.raws[id].producerId != q.producerId {
        assert !IsRaw(t.raws, id, q.project, q.producerId);
      }
    }
    if IssueOf(t.issues, q.project, q.fingerprint).None? {
      forall id | id in t.issues
        ensures t.issues[id].project != q.project || t.issues[id].fingerprint != q.fingerprint
      {
        assert !IsIssue(t.issues, id, q.project, q.fingerprint);
      }
    }
  }

  // ---- Manual changes ----------------------------------------------------

  function StatusSet(t: Tables, project: int, id: int, status: Status): (Tables, Result<(), Error>) {
    if id !in t.issues || t.issues[id].project != project then (t, Err(NotFound))
    else if t.issues[id].status == status then (t, Ok(()))
    else (t.(issues := t.issues[id := t.issues[id].(status := status)],
             activity := t.activity + [StatusChanged(id, t.issues[id].status, status)]), Ok(()))
  }

  function TagsReplaced(t: Tables, project: int, id: int, tags: seq<string>): (Tables, Result<seq<string>, Error>) {
    if id !in t.issues || t.issues[id].project != project then (t, Err(NotFound))
    else
      var previous, canonical := SortedOf(TagsOf(t.tags, id)), Sort(tags);
      if canonical == previous then (t, Ok(previous))
      else
        var stored := set tag | tag in tags;
        (t.(tags := t.tags[id := stored], activity := t.activity + [TagsChanged(id, previous, canonical)]),
         Ok(SortedOf(stored)))
  }

  /** The edit as the handlers make it, on the text or list the user sent. */
  function TagsEdited(t: Tables, project: int, id: int, raw: seq<string>): (Tables, Result<seq<string>, Error>) {
    match Tags.Normalized(raw)
    case Err(_) => (t, Err(BadRequest))
    case Ok(tags) => TagsReplaced(t, project, id, tags)
  }

  /** The capped insertion of an event's labels. */
  method InsertLabels(stored: set<string>, labels: seq<string>, limit: int) returns (merged: set<string>)
    ensures merged == Merged(stored, labels, limit)
  {
    merged := stored;
    var room := limit;
    assert labels[0..] == labels;
    for k := 0 to |labels|
      invariant Merged(merged, labels[k..], room) == Merged(stored, labels, limit)
    {
      if room <= 0 { return; }
      MergedStep(merged, labels, k, room);
      if labels[k] !in merged {
        merged := merged + {labels[k]};
        room := room - 1;
      }
    }
    assert labels[|labels|..] == [];
  }

  // ---- The handlers ------------------------------------------------------

  class Store {
    var issues: map<int, Issue>
    var raws: map<string, RawEvent>
    var events: map<string, EventRow>
    var tags: map<int, set<string>>
    var activity: seq<Activity>
    var outbox: seq<Batch>
    var endpoints: map<int, Endpoint>
    var keyUsed: map<int, int>
    var nextIssue: int

    ghost function View(): Tables
      reads this
    {
      Tables(issues, raws, events, tags, activity, outbox, endpoints, keyUsed, nextIssue)
    }

    /** The unique indexes on producer ids and on fingerprints. */
    ghost predicate Indexed()
      reads this
    {
      UniqueRaws(raws) && UniqueIssues(issues)
    }

    constructor ()
      ensures View() == EMPTY && Indexed()
    {
      issues, raws, events, tags, activity, outbox := map[], map[], map[], map[], [], [];
      endpoints, keyUsed, nextIssue := map[], map[], 1;
    }

    method IngestEvent(q: Request, now: int) returns (r: Result<Response, Error>)
      requires Indexed()
      modifies this
      ensures (View(), r) == Ingested(old(View()), q, now) && Indexed()
    {
      IngestedIndexed(View(), q, now);
      if exists id | id in raws :: IsRaw(raws, id, q.project, q.producerId) {
        r := AnswerDuplicate(q, now);
        return;
      }
      assert RawOf(raws, q.project, q.producerId).None?;
      if q.storageId in raws || q.storageId in events { return Err(Database); }
      var issueId := AcceptEvent(q, now);
      return Ok(Response(q.producerId, issueId, q.fingerprint, false));
    }

    /** The branch for a new event id. */
    method AcceptEvent(q: Request, now: int) returns (issueId: int)
      requires UniqueIssues(issues)
      modifies this
      ensures View() == Accepted(old(View()), q, now)
      ensures issueId == GroupingOf(old(issues), old(nextIssue), q).issueId
    {
      ghost var g := GroupingOf(issues, nextIssue, q);
      raws := raws[q.storageId := RawEvent(q.project, q.key, q.producerId, Some(q.bodyHash))];
      var grouping := GroupEvent(q);
      assert grouping == g;
      MergeLabels(grouping.issueId, Tags.LabelsFromEventTags(q.eventTags));
      events := events[q.storageId := EventRow(q.project, grouping.issueId, q.fingerprint)];
      keyUsed := keyUsed[q.key := now];
      outbox := Notified(outbox, endpoints, q, grouping);
      return grouping.issueId;
    }

    /** The branch for an event id the project already has. */
    method AnswerDuplicate(q: Request, now: int) returns (r: Result<Response, Error>)
      requires UniqueRaws(raws) && exists id :: IsRaw(raws, id, q.project, q.producerId)
      modifies `keyUsed
      ensures (View(), r) == Ingested(old(View()), q, now)
    {
      var id :| id in raws && IsRaw(raws, id, q.project, q.producerId);
      assert RawOf(raws, q.project, q.producerId) == Some(id);
      if id !in events { return Err(Database); }
      var storedHash := raws[id].bodyHash;
      if storedHash.Some? && storedHash.value != q.bodyHash { return Err(EventConflict); }
      keyUsed := keyUsed[q.key := now];
      return Ok(Response(q.producerId, events[id].issueId, events[id].fingerprint, true));
    }

    /** Finds or opens the event's issue; reopening records a regression. */
    method GroupEvent(q: Request) returns (g: Grouping)
      requires UniqueIssues(issues)
      modifies `issues, `activity, `nextIssue
      ensures g == GroupingOf(old(issues), old(nextIssue), q)
      ensures issues == old(issues)[g.issueId := g.issue] && activity == Reopened(old(activity), q, g)
      ensures nextIssue == if g.kind == Some(IssueCreated) then old(nextIssue) + 1 else old(nextIssue)
    {
      if exists id | id in issues :: IsIssue(issues, id, q.project, q.fingerprint) {
        var id :| id in issues && IsIssue(issues, id, q.project, q.fingerprint);
        assert IssueOf(issues, q.project, q.fingerprint) == Some(id);
        var issue := issues[id];
        var regression := issue.status.Resolved?;
        issue := issue.(eventCount := issue.eventCount + 1, status := if regression then Unresolved else issue.status);
        issues := issues[id := issue];
        if regression {
          activity := activity + [Regressed(id, q.producerId)];
        }
        return Grouping(id, issue, if regression then Some(IssueRegressed) else None);
      } else {
        assert IssueOf(issues, q.project, q.fingerprint).None?;
        var issue := Issue(q.project, q.fingerprint, q.title, Unresolved, 1);
        g := Grouping(nextIssue, issue, Some(IssueCreated));
        issues := issues[nextIssue := issue];
        nextIssue := nextIssue + 1;
      }
    }

    method MergeLabels(issueId: int, labels: seq<string>)
      modifies `tags
      ensures tags == Labelled(old(tags), issueId, labels)
    {
      if labels != [] {
        var stored := TagsOf(tags, issueId);
        var merged := InsertLabels(stored, labels, Tags.MAX_TAGS - |stored|);
        tags := tags[issueId := merged];
      }
    }

    method SetIssueStatus(project: int, id: int, status: Status) returns (r: Result<(), Error>)
      modifies `issues, `activity
      ensures (View(), r) == StatusSet(old(View()), project, id, status)
      ensures old(Indexed()) ==> Indexed()
    {
      if id !in issues || issues[id].project != project { return Err(NotFound); }
      var oldStatus := issues[id].status;
      if oldStatus != status {
        issues := issues[id := issues[id].(status := status)];
        activity := activity + [StatusChanged(id, oldStatus, status)];
      }
      return Ok(());
    }

    method ReplaceIssueTags(project: int, id: int, newTags: seq<string>) returns (r: Result<seq<string>, Error>)
      modifies `tags, `activity
      ensures (View(), r) == TagsReplaced(old(View()), project, id, newTags)
    {
      if id !in issues || issues[id].project != project { return Err(NotFound); }
      var previous := SortedOf(TagsOf(tags, id));
      var canonical := Sort(newTags);
      if canonical == previous { return Ok(previous); }
      tags := tags[id := set tag | tag in newTags];
      activity := activity + [TagsChanged(id, previous, canonical)];
      return Ok(SortedOf(tags[id]));
    }

    method UpdateIssueTags(project: int, id: int, raw: seq<string>) returns (r: Result<seq<string>, Error>)
      modifies `tags, `activity
      ensures (View(), r) == TagsEdited(old(View()), project, id, raw)
    {
      var normalized := Tags.NormalizeTags(raw);
      if normalized.Err? { return Err(BadRequest); }
      r := ReplaceIssueTags(project, id, normalized.value);
    }
  }

  const EMPTY := Tables(map[], map[], map[], map[], [], [], map[], map[], 1)
}
