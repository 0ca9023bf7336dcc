/** What the issue store keeps over every run of ingests, status changes, tag
    edits and endpoint changes. */
module IngestRuns {
  import opened Text
  import Tags
  import Runs
  import opened Ingest

  datatype Action =
    | IngestEvent(q: Request, now: int)
    | SetStatus(project: int, id: int, status: Status)
    | EditTags(project: int, id: int, raw: seq<string>)
    | SetEndpoint(id: int, endpoint: Option<Endpoint>)

  ghost function Apply(t: Tables, a: Action): Tables {
    match a
    case IngestEvent(q, now) => Ingested(t, q, now).0
    case SetStatus(project, id, status) => StatusSet(t, project, id, status).0
    case EditTags(project, id, raw) => TagsEdited(t, project, id, raw).0
    case SetEndpoint(id, endpoint) =>
      t.(endpoints := if endpoint.Some? then t.endpoints[id := endpoint.value] else t.endpoints - {id})
  }

  ghost function After(t: Tables, run: seq<Action>): Tables {
    if run == [] then t else Apply(After(t, run[..|run| - 1]), run[|run| - 1])
  }

  lemma AfterConcat(t: Tables, a: seq<Action>, b: seq<Action>)
    ensures After(t, a + b) == After(After(t, a), b)
  {
    Runs.Concat((u: Tables, run: seq<Action>) => After(u, run), (u: Tables, c: Action) => Apply(u, c), t, a, b);
  }

  // ---- The invariant -----------------------------------------------------

  /** Raw and processed events pair one to one, in one project. */
  ghost predicate Paired(t: Tables) {
    t.raws.Keys == t.events.Keys && forall s | s in t.raws :: t.events[s].project == t.raws[s].project
  }

  /** Every event belongs to the issue of its project and fingerprint. */
  ghost predicate Linked(t: Tables) {
    forall s | s in t.events :: IsIssue(t.issues, t.events[s].issueId, t.events[s].project, t.events[s].fingerprint)
  }

  function EventsOf(events: map<string, EventRow>, issueId: int): set<string> {
    set s | s in events && events[s].issueId == issueId
  }

  ghost predicate Counted(t: Tables) {
    forall i | i in t.issues :: t.issues[i].eventCount == |EventsOf(t.events, i)|
  }

  /** Row ids are handed out in order and never reused. */
  ghost predicate Numbered(t: Tables) {
    && (forall i | i in t.issues :: i < t.nextIssue)
    && (forall i | i in t.tags :: i in t.issues)
    && (forall k | 0 <= k < |t.activity| :: t.activity[k].issueId in t.issues)
  }

  ghost predicate TagSetValid(tags: set<string>) {
    |tags| <= Tags.MAX_TAGS && forall tag | tag in tags :: Tags.ValidTag(tag)
  }

  ghost predicate TagSetsValid(tags: map<int, set<string>>) {
    forall i | i in tags :: TagSetValid(tags[i])
  }

  /** An issue's status replayed from its log; nothing when an entry does not
      fit the status before it. */
  function StatusAfter(activity: seq<Activity>, id: int): Option<Status> {
    if activity == [] then Some(Unresolved)
    else
      var before, a := StatusAfter(activity[..|activity| - 1], id), activity[|activity| - 1];
      if a.issueId != id || a.TagsChanged? then before
      else if a.StatusChanged? then (if before == Some(a.from) && a.from != a.to then Some(a.to) else None)
      else (if before == Some(Resolved) then Some(Unresolved) else None)
  }

  /** An issue's last manual tag set; nothing when an entry is no change, or
      starts from a set that lacks a tag of the one before. */
  ghost function TagsAfter(activity: seq<Activity>, id: int): Option<set<string>> {
    if activity == [] then Some({})
    else
      var before, a := TagsAfter(activity[..|activity| - 1], id), activity[|activity| - 1];
      if a.issueId != id || !a.TagsChanged? then before
      else if before.Some? && before.value <= Elements(a.before) && Elements(a.before) != Elements(a.after)
      then Some(Elements(a.after)) else None
  }

  ghost predicate Faithful(t: Tables) {
    forall i | i in t.issues ::
      && StatusAfter(t.activity, i) == Some(t.issues[i].status)
      && TagsAfter(t.activity, i).Some? && TagsAfter(t.activity, i).value <= TagsOf(t.tags, i)
  }

  function Regressions(activity: seq<Activity>): seq<(int, string)> {
    if activity == [] then []
    else
      var a := activity[|activity| - 1];
      Regressions(activity[..|activity| - 1]) + (if a.Regressed? then [(a.issueId, a.eventId)] else [])
  }

  function RegressionBatches(outbox: seq<Batch>): seq<(int, string)> {
    if outbox == [] then []
    else
      var b := outbox[|outbox| - 1];
      RegressionBatches(outbox[..|outbox| - 1]) + (if b.kind.IssueRegressed? then [(b.issueId, b.eventId)] else [])
  }

  ghost predicate Committed(t: Tables, project: int, producerId: string) {
    exists s :: IsRaw(t.raws, s, project, producerId)
  }

  /** The log tells the whole story: a database older than the log has none to
      tell, and nothing else depends on it. */
  ghost predicate Logged(t: Tables) {
    Faithful(t) && Regressions(t.activity) == RegressionBatches(t.outbox)
  }

  /** An event notifies once. */
  ghost predicate NotifiedOnce(t: Tables) {
    && (forall k | 0 <= k < |t.outbox| :: Committed(t, t.outbox[k].project, t.outbox[k].eventId))
    && (forall j, k | 0 <= j < k < |t.outbox| ::
          t.outbox[j].project != t.outbox[k].project || t.outbox[j].eventId != t.outbox[k].eventId)
  }

  ghost predicate Valid(t: Tables) {
    && UniqueRaws(t.raws) && UniqueIssues(t.issues) && Paired(t) && Linked(t) && Counted(t) && Numbered(t)
    && TagSetsValid(t.tags) && NotifiedOnce(t)
  }

  lemma EmptyValid()
    ensures Valid(EMPTY) && Logged(EMPTY)
  {
  }

  // ---- Labels ------------------------------------------------------------

  lemma {:induction false} MergedMeaning(stored: set<string>, labels: seq<string>, room: int)
    ensures stored <= Merged(stored, labels, room) <= stored + Elements(labels)
    ensures |Merged(stored, labels, room)| ==
            if room <= 0 then |stored|
            else if |stored + Elements(labels)| <= |stored| + room then |stored + Elements(labels)|
            else |stored| + room
    decreases |labels|
  {
    if labels == [] {
      assert stored + Elements(labels) == stored;
    } else if room <= 0 {
    } else {
      var head, tail := labels[0], labels[1..];
      assert forall x :: x in labels <==> x == head || x in tail;
      if head in stored {
        MergedMeaning(stored, tail, room);
        assert stored + Elements(labels) == stored + Elements(tail);
      } else {
        MergedMeaning(stored + {head}, tail, room - 1);
        assert stored + {head} + Elements(tail) == stored + Elements(labels);
        SubsetSize(stored + {head}, stored + Elements(labels));
      }
    }
  }

  lemma SubsetSize<T>(a: set<T>, b: set<T>)
    requires a <= b
    ensures |a| <= |b|
  {
    assert b == a + (b - a);
  }

  /** Labels only add tags, only the event's own, and exactly as many as fit
      under the limit. */
  lemma LabelsMerge(stored: set<string>, labels: seq<string>)
    requires |stored| <= Tags.MAX_TAGS
    ensures var merged := Merged(stored, labels, Tags.MAX_TAGS - |stored|);
            var all := stored + Elements(labels);
            stored <= merged <= all && |merged| == if |all| <= Tags.MAX_TAGS then |all| else Tags.MAX_TAGS
  {
    MergedMeaning(stored, labels, Tags.MAX_TAGS - |stored|);
    SubsetSize(stored, stored + Elements(labels));
  }

  // ---- Ingest keeps the invariant ----------------------------------------

  /** What grouping decided, in plain terms. */
  ghost predicate Joins(t: Tables, q: Request, g: Grouping) {
    && g.issue.project == q.project && g.issue.fingerprint == q.fingerprint
    && (if g.kind == Some(IssueCreated) then
          && g.issueId == t.nextIssue && g.issueId !in t.issues
          && g.issue.status == Unresolved && g.issue.eventCount == 1
        else
          && g.issueId in t.issues
          && t.issues[g.issueId].project == q.project && t.issues[g.issueId].fingerprint == q.fingerprint
          && g.issue.eventCount == t.issues[g.issueId].eventCount + 1
          && (if t.issues[g.issueId].status.Resolved?
              then g.issue.status == Unresolved && g.kind == Some(IssueRegressed)
              else g.issue.status == t.issues[g.issueId].status && g.kind == None))
  }

  lemma GroupingJoins(t: Tables, q: Request)
    requires Numbered(t)
    ensures Joins(t, q, GroupingOf(t.issues, t.nextIssue, q))
  {
  }

  ghost predicate Fresh(t: Tables, q: Request) {
    q.storageId !in t.raws && q.storageId !in t.events && !Committed(t, q.project, q.producerId)
  }

  lemma AcceptedLinks(t: Tables, q: Request, now: int, g: Grouping)
    requires Paired(t) && Linked(t) && Numbered(t) && Joins(t, q, g) && Fresh(t, q)
    ensures var u := AcceptedInto(t, q, now, g); Paired(u) && Linked(u)
  {
    var u := AcceptedInto(t, q, now, g);
    forall s | s in u.events
      ensures IsIssue(u.issues, u.events[s].issueId, u.events[s].project, u.events[s].fingerprint)
    {
      if s != q.storageId {
        assert IsIssue(t.issues, t.events[s].issueId, t.events[s].project, t.events[s].fingerprint);
      }
    }
  }

  lemma EventsGrow(events: map<string, EventRow>, s: string, row: EventRow, i: int)
    requires s !in events
    ensures EventsOf(events[s := row], i) == EventsOf(events, i) + (if row.issueId == i then {s} else {})
  {
  }

  lemma NoEventsYet(t: Tables, i: int)
    requires Linked(t) && i !in t.issues
    ensures EventsOf(t.events, i) == {}
  {
  }

  lemma AcceptedCounts(t: Tables, q: Request, now: int, g: Grouping)
    requires Linked(t) && Counted(t) && Joins(t, q, g) && Fresh(t, q)
    ensures Counted(AcceptedInto(t, q, now, g))
  {
    var u, row := AcceptedInto(t, q, now, g), EventRow(q.project, g.issueId, q.fingerprint);
    forall i | i in u.issues ensures u.issues[i].eventCount == |EventsOf(u.events, i)| {
      EventsGrow(t.events, q.storageId, row, i);
      if i !in t.issues { NoEventsYet(t, i); }
    }
  }

  lemma AcceptedNumbers(t: Tables, q: Request, now: int, g: Grouping)
    requires Numbered(t) && Joins(t, q, g)
    ensures Numbered(AcceptedInto(t, q, now, g))
  {
  }

  lemma LabelsValid(eventTags: seq<(string, string)>)
    ensures forall tag | tag in Tags.LabelsFromEventTags(eventTags) :: Tags.ValidTag(tag)
  {
  }

  lemma MergedValid(stored: set<string>, labels: seq<string>)
    requires TagSetValid(stored) && forall tag | tag in labels :: Tags.ValidTag(tag)
    ensures var merged := Merged(stored, labels, Tags.MAX_TAGS - |stored|); stored <= merged && TagSetValid(merged)
  {
    LabelsMerge(stored, labels);
    var merged := Merged(stored, labels, Tags.MAX_TAGS - |stored|);
    forall tag | tag in merged ensures Tags.ValidTag(tag) {
      assert tag in stored || tag in labels;
    }
  }

  /** Ingest removes no tag. */
  lemma LabelledTags(tags: map<int, set<string>>, id: int, eventTags: seq<(string, string)>)
    requires TagSetsValid(tags)
    ensures TagSetsValid(Labelled(tags, id, Tags.LabelsFromEventTags(eventTags)))
    ensures TagsOf(tags, id) <= TagsOf(Labelled(tags, id, Tags.LabelsFromEventTags(eventTags)), id)
  {
    var stored, labels := TagsOf(tags, id), Tags.LabelsFromEventTags(eventTags);
    LabelsValid(eventTags);
    MergedValid(stored, labels);
    if labels != [] {
      assert Labelled(tags, id, labels) == tags[id := Merged(stored, labels, Tags.MAX_TAGS - |stored|)];
    }
  }

  lemma {:induction false} UntouchedHistory(activity: seq<Activity>, id: int)
    requires forall k | 0 <= k < |activity| :: activity[k].issueId != id
    ensures StatusAfter(activity, id) == Some(Unresolved) && TagsAfter(activity, id) == Some({})
  {
    if activity != [] { UntouchedHistory(activity[..|activity| - 1], id); }
  }

  lemma HistorySnoc(activity: seq<Activity>, a: Activity, id: int)
    ensures (activity + [a])[..|activity|] == activity
    ensures a.issueId != id ==> StatusAfter(activity + [a], id) == StatusAfter(activity, id)
                                && TagsAfter(activity + [a], id) == TagsAfter(activity, id)
  {
  }

  lemma AcceptedFaithful(t: Tables, q: Request, now: int, g: Grouping)
    requires Faithful(t) && Numbered(t) && TagSetsValid(t.tags) && Joins(t, q, g)
    ensures Faithful(AcceptedInto(t, q, now, g))
  {
    var u, a := AcceptedInto(t, q, now, g), Regressed(g.issueId, q.producerId);
    LabelledTags(t.tags, g.issueId, q.eventTags);
    forall i | i in u.issues
      ensures StatusAfter(u.activity, i) == Some(u.issues[i].status)
      ensures TagsAfter(u.activity, i).Some? && TagsAfter(u.activity, i).value <= TagsOf(u.tags, i)
    {
      HistorySnoc(t.activity, a, i);
      if g.kind == Some(IssueCreated) && i == g.issueId { UntouchedHistory(t.activity, i); }
    }
  }

  lemma RegressionsSnoc(activity: seq<Activity>, a: Activity, outbox: seq<Batch>, b: Batch)
    ensures Regressions(activity + [a]) ==
            Regressions(activity) + (if a.Regressed? then [(a.issueId, a.eventId)] else [])
    ensures RegressionBatches(outbox + [b]) ==
            RegressionBatches(outbox) + (if b.kind.IssueRegressed? then [(b.issueId, b.eventId)] else [])
  {
  }

  lemma AcceptedNotifies(t: Tables, q: Request, now: int, g: Grouping)
    requires NotifiedOnce(t) && Joins(t, q, g) && Fresh(t, q)
    ensures NotifiedOnce(AcceptedInto(t, q, now, g))
  {
    var u := AcceptedInto(t, q, now, g);
    assert IsRaw(u.raws, q.storageId, q.project, q.producerId);
    forall project, id | Committed(t, project, id) ensures Committed(u, project, id) {
      var s :| IsRaw(t.raws, s, project, id);
      assert IsRaw(u.raws, s, project, id);
    }
    if g.kind.Some? {
      var b := u.outbox[|t.outbox|];
      assert u.outbox == t.outbox + [b];
      forall j | 0 <= j < |t.outbox| ensures t.outbox[j].project != b.project || t.outbox[j].eventId != b.eventId {
        assert Committed(t, t.outbox[j].project, t.outbox[j].eventId);
      }
    }
  }

  lemma AcceptedValid(t: Tables, q: Request, now: int, g: Grouping)
    requires Valid(t) && Joins(t, q, g) && Fresh(t, q)
    requires UniqueRaws(AcceptedInto(t, q, now, g).raws) && UniqueIssues(AcceptedInto(t, q, now, g).issues)
    ensures Valid(AcceptedInto(t, q, now, g))
  {
    AcceptedLinks(t, q, now, g);
    AcceptedCounts(t, q, now, g);
    AcceptedNumbers(t, q, now, g);
    LabelledTags(t.tags, g.issueId, q.eventTags);
    AcceptedNotifies(t, q, now, g);
  }

  lemma AcceptedLogged(t: Tables, q: Request, now: int, g: Grouping)
    requires Logged(t) && Numbered(t) && TagSetsValid(t.tags) && Joins(t, q, g)
    ensures Logged(AcceptedInto(t, q, now, g))
  {
    AcceptedFaithful(t, q, now, g);
    if g.kind.Some? {
      var b := AcceptedInto(t, q, now, g).outbox[|t.outbox|];
      RegressionsSnoc(t.activity, Regressed(g.issueId, q.producerId), t.outbox, b);
    }
  }

  lemma KeyUsedValid(t: Tables, keyUsed: map<int, int>)
    requires Valid(t)
    ensures Valid(t.(keyUsed := keyUsed))
  {
    var u := t.(keyUsed := keyUsed);
    assert forall project, id :: Committed(t, project, id) ==> Committed(u, project, id);
  }

  lemma IngestedValid(t: Tables, q: Request, now: int)
    requires Valid(t)
    ensures Valid(Ingested(t, q, now).0)
  {
    IngestedCases(t, q, now);
    if IsNew(t, q) {
      IngestedIndexed(t, q, now);
      GroupingJoins(t, q);
      AcceptedValid(t, q, now, GroupingOf(t.issues, t.nextIssue, q));
    } else {
      KeyUsedValid(t, t.keyUsed[q.key := now]);
    }
  }

  // ---- Manual changes keep the invariant ---------------------------------

  lemma StatusFaithful(t: Tables, id: int, status: Status)
    requires Faithful(t) && id in t.issues && t.issues[id].status != status
    ensures Faithful(t.(issues := t.issues[id := t.issues[id].(status := status)],
                        activity := t.activity + [StatusChanged(id, t.issues[id].status, status)]))
  {
    var a := StatusChanged(id, t.issues[id].status, status);
    var u := t.(issues := t.issues[id := t.issues[id].(status := status)], activity := t.activity + [a]);
    forall i | i in u.issues
      ensures StatusAfter(u.activity, i) == Some(u.issues[i].status)
      ensures TagsAfter(u.activity, i) == TagsAfter(t.activity, i)
    {
      HistorySnoc(t.activity, a, i);
    }
  }

  /** What a manual change must not disturb. */
  ghost predicate OnlyManual(t: Tables, u: Tables) {
    && u.raws == t.raws && u.events == t.events && u.outbox == t.outbox && u.issues.Keys == t.issues.Keys
    && (forall i | i in t.issues :: u.issues[i] == t.issues[i].(status := u.issues[i].status))
    && u.nextIssue == t.nextIssue && (forall i | i in u.tags :: i in t.tags || i in t.issues)
  }

  lemma ManualLinked(t: Tables, u: Tables)
    requires Linked(t) && OnlyManual(t, u)
    ensures Linked(u)
  {
  }

  lemma ManualNumbered(t: Tables, u: Tables, a: Activity)
    requires Numbered(t) && OnlyManual(t, u) && u.activity == t.activity + [a] && a.issueId in t.issues
    ensures Numbered(u)
  {
  }

  lemma ManualValid(t: Tables, u: Tables, a: Activity)
    requires Valid(t) && OnlyManual(t, u) && u.activity == t.activity + [a] && a.issueId in t.issues
    requires TagSetsValid(u.tags)
    ensures Valid(u)
  {
    ManualLinked(t, u);
    ManualNumbered(t, u, a);
  }

  lemma ManualLogged(t: Tables, u: Tables, a: Activity)
    requires Logged(t) && u.outbox == t.outbox && u.activity == t.activity + [a] && !a.Regressed? && Faithful(u)
    ensures Logged(u)
  {
    assert u.activity[..|t.activity|] == t.activity;
  }

  lemma StatusChangeValid(t: Tables, u: Tables, id: int, status: Status)
    requires Valid(t) && id in t.issues && t.issues[id].status != status
    requires u == t.(issues := t.issues[id := t.issues[id].(status := status)],
                     activity := t.activity + [StatusChanged(id, t.issues[id].status, status)])
    ensures Valid(u)
  {
    assert OnlyManual(t, u);
    ManualValid(t, u, StatusChanged(id, t.issues[id].status, status));
  }

  lemma StatusSetValid(t: Tables, project: int, id: int, status: Status)
    requires Valid(t)
    ensures Valid(StatusSet(t, project, id, status).0)
  {
    if id in t.issues && t.issues[id].project == project && t.issues[id].status != status {
      StatusChangeValid(t, StatusSet(t, project, id, status).0, id, status);
    }
  }

  /** A manual edit that changes the set logs the two listings. */
  lemma TagsReplacedMeaning(t: Tables, project: int, id: int, tags: seq<string>)
    requires Tags.IsNormal(tags)
    ensures var u := TagsReplaced(t, project, id, tags).0;
            if id in t.issues && t.issues[id].project == project && Elements(tags) != TagsOf(t.tags, id)
            then u == t.(tags := t.tags[id := Elements(tags)],
                         activity := t.activity + [TagsChanged(id, SortedOf(TagsOf(t.tags, id)), Sort(tags))])
            else u == t
  {
    SortedComparison(tags, TagsOf(t.tags, id));
    assert (set tag | tag in tags) == Elements(tags);
  }

  lemma TagsReplacedFaithful(t: Tables, id: int, tags: seq<string>)
    requires Faithful(t) && NoDuplicates(tags) && Elements(tags) != TagsOf(t.tags, id)
    ensures var a := TagsChanged(id, SortedOf(TagsOf(t.tags, id)), Sort(tags));
            Faithful(t.(tags := t.tags[id := Elements(tags)], activity := t.activity + [a]))
  {
    var a := TagsChanged(id, SortedOf(TagsOf(t.tags, id)), Sort(tags));
    SortOfDistinct(tags);
    var u := t.(tags := t.tags[id := Elements(tags)], activity := t.activity + [a]);
    forall i | i in u.issues
      ensures StatusAfter(u.activity, i) == Some(u.issues[i].status)
      ensures TagsAfter(u.activity, i).Some? && TagsAfter(u.activity, i).value <= TagsOf(u.tags, i)
    {
      HistorySnoc(t.activity, a, i);
    }
  }

  lemma TagsChangeValid(t: Tables, u: Tables, id: int, tags: seq<string>)
    requires Valid(t) && Tags.IsNormal(tags) && id in t.issues && Elements(tags) != TagsOf(t.tags, id)
    requires u == t.(tags := t.tags[id := Elements(tags)],
                     activity := t.activity + [TagsChanged(id, SortedOf(TagsOf(t.tags, id)), Sort(tags))])
    ensures Valid(u)
  {
    NoDuplicatesCardinality(tags);
    assert TagSetValid(Elements(tags));
    assert OnlyManual(t, u);
    ManualValid(t, u, TagsChanged(id, SortedOf(TagsOf(t.tags, id)), Sort(tags)));
  }

  lemma TagsReplacedValid(t: Tables, project: int, id: int, tags: seq<string>)
    requires Valid(t) && Tags.IsNormal(tags)
    ensures Valid(TagsReplaced(t, project, id, tags).0)
  {
    TagsReplacedMeaning(t, project, id, tags);
    if id in t.issues && t.issues[id].project == project && Elements(tags) != TagsOf(t.tags, id) {
      TagsChangeValid(t, TagsReplaced(t, project, id, tags).0, id, tags);
    }
  }

  lemma ApplyValid(t: Tables, a: Action)
    requires Valid(t)
    ensures Valid(Apply(t, a))
  {
    match a
    case IngestEvent(q, now) => IngestedValid(t, q, now);
    case SetStatus(project, id, status) => StatusSetValid(t, project, id, status);
    case EditTags(project, id, raw) =>
      if Tags.Normalized(raw).Ok? {
        Tags.NormalizedMeaning(raw);
        TagsReplacedValid(t, project, id, Tags.Normalized(raw).value);
      }
    case SetEndpoint(id, endpoint) =>
  }

  lemma StatusSetLogged(t: Tables, project: int, id: int, status: Status)
    requires Logged(t)
    ensures Logged(StatusSet(t, project, id, status).0)
  {
    if id in t.issues && t.issues[id].project == project && t.issues[id].status != status {
      StatusFaithful(t, id, status);
      ManualLogged(t, StatusSet(t, project, id, status).0, StatusChanged(id, t.issues[id].status, status));
    }
  }

  lemma TagsReplacedLogged(t: Tables, project: int, id: int, tags: seq<string>)
    requires Logged(t) && Tags.IsNormal(tags)
    ensures Logged(TagsReplaced(t, project, id, tags).0)
  {
    TagsReplacedMeaning(t, project, id, tags);
    if id in t.issues && t.issues[id].project == project && Elements(tags) != TagsOf(t.tags, id) {
      TagsReplacedFaithful(t, id, tags);
      ManualLogged(t, TagsReplaced(t, project, id, tags).0,
                   TagsChanged(id, SortedOf(TagsOf(t.tags, id)), Sort(tags)));
    }
  }

  lemma IngestedLogged(t: Tables, q: Request, now: int)
    requires Logged(t) && Numbered(t) && TagSetsValid(t.tags)
    ensures Logged(Ingested(t, q, now).0)
  {
    IngestedCases(t, q, now);
    if IsNew(t, q) {
      GroupingJoins(t, q);
      AcceptedLogged(t, q, now, GroupingOf(t.issues, t.nextIssue, q));
    }
  }

  lemma ApplyLogged(t: Tables, a: Action)
    requires Valid(t) && Logged(t)
    ensures Logged(Apply(t, a))
  {
    match a
    case IngestEvent(q, now) => IngestedLogged(t, q, now);
    case SetStatus(project, id, status) => StatusSetLogged(t, project, id, status);
    case EditTags(project, id, raw) =>
      if Tags.Normalized(raw).Ok? {
        Tags.NormalizedMeaning(raw);
        TagsReplacedLogged(t, project, id, Tags.Normalized(raw).value);
      }
    case SetEndpoint(id, endpoint) =>
  }

  lemma {:induction false} RunLogged(t: Tables, run: seq<Action>)
    requires Valid(t) && Logged(t)
    ensures Logged(After(t, run))
  {
    if run != [] {
      RunLogged(t, run[..|run| - 1]);
      RunValid(t, run[..|run| - 1]);
      ApplyLogged(After(t, run[..|run| - 1]), run[|run| - 1]);
    }
  }

  lemma {:induction false} RunValid(t: Tables, run: seq<Action>)
    requires Valid(t)
    ensures Valid(After(t, run))
  {
    if run != [] {
      RunValid(t, run[..|run| - 1]);
      ApplyValid(After(t, run[..|run| - 1]), run[|run| - 1]);
    }
  }

  // ---- Results: tables ---------------------------------------------------

  /** In every reachable state: counts are the numbers of events, raw and
      processed events pair up, ids and fingerprints are unique, and events sit
      in the issue of their fingerprint. */
  lemma TablesConsistent(run: seq<Action>)
    ensures var t := After(EMPTY, run);
            && (forall i | i in t.issues :: t.issues[i].eventCount == |EventsOf(t.events, i)|)
            && Paired(t) && UniqueRaws(t.raws) && UniqueIssues(t.issues) && Linked(t)
  {
    EmptyValid();
    RunValid(EMPTY, run);
  }

  /** Two events of a project share an issue exactly when they share a fingerprint. */
  lemma GroupedByFingerprint(t: Tables, a: string, b: string)
    requires Valid(t) && a in t.events && b in t.events && t.events[a].project == t.events[b].project
    ensures t.events[a].issueId == t.events[b].issueId <==> t.events[a].fingerprint == t.events[b].fingerprint
  {
  }

  /** With a fresh row id the store never fails by itself: the duplicate path
      always finds its row. A new id is always accepted, and only a new one. */
  lemma IngestNeverBreaks(t: Tables, q: Request, now: int)
    requires Valid(t) && q.storageId !in t.raws
    ensures var r := Ingested(t, q, now).1;
            r != Err(Database) && (r.Ok? && !r.value.duplicate <==> !Committed(t, q.project, q.producerId))
  {
    if s :| IsRaw(t.raws, s, q.project, q.producerId) { KnownAnswer(t, s, q, now); }
  }

  // ---- What a step leaves alone ------------------------------------------

  /** The ingest of an event id the project does not have yet. */
  ghost predicate IsNew(t: Tables, q: Request) {
    RawOf(t.raws, q.project, q.producerId).None? && q.storageId !in t.raws && q.storageId !in t.events
  }

  lemma IngestedCases(t: Tables, q: Request, now: int)
    ensures if IsNew(t, q)
            then Ingested(t, q, now) ==
                 (AcceptedInto(t, q, now, GroupingOf(t.issues, t.nextIssue, q)),
                  Ok(Response(q.producerId, GroupingOf(t.issues, t.nextIssue, q).issueId, q.fingerprint, false)))
            else Ingested(t, q, now).0 in {t, t.(keyUsed := t.keyUsed[q.key := now])}
                 && (Ingested(t, q, now).1.Ok? ==> Ingested(t, q, now).1.value.duplicate)
  {
  }

  /** What only an ingest changes. */
  ghost predicate SameEvents(t: Tables, u: Tables) {
    && u.raws == t.raws && u.events == t.events && u.outbox == t.outbox && u.issues.Keys == t.issues.Keys
    && forall i | i in t.issues :: u.issues[i].eventCount == t.issues[i].eventCount
  }

  lemma TagsEditedKeeps(t: Tables, project: int, id: int, raw: seq<string>)
    ensures SameEvents(t, TagsEdited(t, project, id, raw).0)
  {
    if Tags.Normalized(raw).Ok? {
      var u := TagsReplaced(t, project, id, Tags.Normalized(raw).value).0;
      assert u == t || u == t.(tags := u.tags, activity := u.activity);
    }
  }

  lemma StatusSetKeeps(t: Tables, project: int, id: int, status: Status)
    ensures SameEvents(t, StatusSet(t, project, id, status).0)
  {
  }

  lemma ManualKeeps(t: Tables, a: Action)
    requires !a.IngestEvent?
    ensures SameEvents(t, Apply(t, a))
  {
    match a
    case SetStatus(project, id, status) => StatusSetKeeps(t, project, id, status);
    case EditTags(project, id, raw) => TagsEditedKeeps(t, project, id, raw);
    case SetEndpoint(id, endpoint) =>
  }

  // ---- Results: replay ---------------------------------------------------

  /** Rows once written stay as they are. */
  ghost predicate Extends(t: Tables, u: Tables) {
    && (forall s | s in t.raws :: s in u.raws && u.raws[s] == t.raws[s])
    && (forall s | s in t.events :: s in u.events && u.events[s] == t.events[s])
  }

  lemma ApplyExtends(t: Tables, a: Action)
    requires Valid(t)
    ensures Extends(t, Apply(t, a))
  {
    if a.IngestEvent? { IngestedCases(t, a.q, a.now); } else { ManualKeeps(t, a); }
  }

  lemma {:induction false} RunExtends(t: Tables, run: seq<Action>)
    requires Valid(t)
    ensures Extends(t, After(t, run))
  {
    if run != [] {
      RunExtends(t, run[..|run| - 1]);
      RunValid(t, run[..|run| - 1]);
      ApplyExtends(After(t, run[..|run| - 1]), run[|run| - 1]);
    }
  }

  lemma KnownAnswer(t: Tables, s: string, q: Request, now: int)
    requires UniqueRaws(t.raws) && Paired(t) && IsRaw(t.raws, s, q.project, q.producerId)
    ensures Ingested(t, q, now) ==
            if t.raws[s].bodyHash.Some? && t.raws[s].bodyHash.value != q.bodyHash then (t, Err(EventConflict))
            else (t.(keyUsed := t.keyUsed[q.key := now]),
                  Ok(Response(q.producerId, t.events[s].issueId, t.events[s].fingerprint, true)))
  {
  }

  /** The answer to a repeated event id, whatever happened since. */
  lemma ReplayedAnswer(t: Tables, s: string, run: seq<Action>, q: Request, now: int)
    requires Valid(t) && IsRaw(t.raws, s, q.project, q.producerId)
    ensures s in t.events
    ensures var u := After(t, run);
            if t.raws[s].bodyHash.Some? && t.raws[s].bodyHash.value != q.bodyHash
            then Ingested(u, q, now) == (u, Err(EventConflict))
            else Ingested(u, q, now) ==
                 (u.(keyUsed := u.keyUsed[q.key := now]),
                  Ok(Response(q.producerId, t.events[s].issueId, t.events[s].fingerprint, true)))
  {
    RunExtends(t, run);
    RunValid(t, run);
    KnownAnswer(After(t, run), s, q, now);
  }

  /** Once an event is accepted, sending its id again at any later time yields
      the original issue and fingerprint and changes nothing but the key's
      last use; the same id with another body is refused without any change. */
  lemma ReplayIdempotent(t: Tables, q: Request, now: int, run: seq<Action>, again: Request, later: int)
    requires Valid(t) && Ingested(t, q, now).1.Ok? && !Ingested(t, q, now).1.value.duplicate
    requires again.project == q.project && again.producerId == q.producerId
    ensures var first, u := Ingested(t, q, now).1.value, After(Ingested(t, q, now).0, run);
            if again.bodyHash == q.bodyHash
            then Ingested(u, again, later) ==
                 (u.(keyUsed := u.keyUsed[again.key := later]), Ok(first.(duplicate := true)))
            else Ingested(u, again, later) == (u, Err(EventConflict))
  {
    var u := Ingested(t, q, now).0;
    IngestedValid(t, q, now);
    assert IsNew(t, q) && IsRaw(u.raws, q.storageId, q.project, q.producerId)
           && u.raws[q.storageId].bodyHash == Some(q.bodyHash)
           && Ingested(t, q, now).1 ==
              Ok(Response(q.producerId, u.events[q.storageId].issueId, u.events[q.storageId].fingerprint, false)) by {
      IngestedCases(t, q, now);
    }
    ReplayedAnswer(u, q.storageId, run, again, later);
  }

  // ---- Results: counting -------------------------------------------------

  /** The action is the accepting ingest of this event id. */
  ghost predicate Accepts(t: Tables, a: Action, project: int, producerId: string) {
    && a.IngestEvent? && a.q.project == project && a.q.producerId == producerId
    && Ingested(t, a.q, a.now).1.Ok? && !Ingested(t, a.q, a.now).1.value.duplicate
  }

  ghost function AcceptsIn(t: Tables, run: seq<Action>, project: int, producerId: string): nat {
    if run == [] then 0
    else
      AcceptsIn(t, run[..|run| - 1], project, producerId)
      + (if Accepts(After(t, run[..|run| - 1]), run[|run| - 1], project, producerId) then 1 else 0)
  }

  function BatchesFor(outbox: seq<Batch>, project: int, producerId: string): nat {
    if outbox == [] then 0
    else
      BatchesFor(outbox[..|outbox| - 1], project, producerId)
      + (if outbox[|outbox| - 1].project == project && outbox[|outbox| - 1].eventId == producerId then 1 else 0)
  }

  /** Accepting an event adds exactly one to the count of exactly one issue: the
      one of its fingerprint, opened if there was none. */
  lemma AcceptCountsOne(t: Tables, q: Request, now: int)
    requires Valid(t) && Accepts(t, IngestEvent(q, now), q.project, q.producerId)
    ensures var u, i := Ingested(t, q, now).0, Ingested(t, q, now).1.value.issueId;
            && IsIssue(u.issues, i, q.project, q.fingerprint) && u.issues.Keys == t.issues.Keys + {i}
            && (i in t.issues <==> exists j :: IsIssue(t.issues, j, q.project, q.fingerprint))
            && u.issues[i].eventCount == (if i in t.issues then t.issues[i].eventCount else 0) + 1
            && u.issues[i].title == (if i in t.issues then t.issues[i].title else q.title)
            && (i !in t.issues ==> u.issues[i].status.Unresolved?)
            && (forall j | j in t.issues && j != i :: u.issues[j] == t.issues[j])
            && Ingested(t, q, now).1.value == Response(q.producerId, i, q.fingerprint, false)
            && q.storageId !in t.raws && q.storageId !in t.events
            && u.raws == t.raws[q.storageId := RawEvent(q.project, q.key, q.producerId, Some(q.bodyHash))]
            && u.events == t.events[q.storageId := EventRow(q.project, i, q.fingerprint)]
            && u.keyUsed == t.keyUsed[q.key := now] && u.endpoints == t.endpoints
  {
    IngestedCases(t, q, now);
    GroupingJoins(t, q);
  }

  /** Accepting an event notifies exactly when it opens or reopens an issue, and
      then exactly the project's enabled endpoints. */
  lemma AcceptNotifies(t: Tables, q: Request, now: int)
    requires Valid(t) && Accepts(t, IngestEvent(q, now), q.project, q.producerId)
    ensures var u, i := Ingested(t, q, now).0, Ingested(t, q, now).1.value.issueId;
            if i in t.issues && !t.issues[i].status.Resolved? then u.outbox == t.outbox
            else
              && |u.outbox| == |t.outbox| + 1 && u.outbox[..|t.outbox|] == t.outbox
              && var b := u.outbox[|t.outbox|];
                 && b.kind == (if i in t.issues then IssueRegressed else IssueCreated)
                 && b.project == q.project && b.issueId == i && b.eventId == q.producerId
                 && forall id :: id in b.endpoints <==>
                                 id in t.endpoints && t.endpoints[id].project == q.project && t.endpoints[id].enabled
  {
    IngestedCases(t, q, now);
    GroupingJoins(t, q);
  }

  /** Nothing else changes any count, or adds an event or a notification. */
  lemma OthersCountNothing(t: Tables, a: Action)
    requires a.IngestEvent? ==> !Accepts(t, a, a.q.project, a.q.producerId)
    ensures SameEvents(t, Apply(t, a))
  {
    if a.IngestEvent? { IngestedCases(t, a.q, a.now); } else { ManualKeeps(t, a); }
  }

  lemma RawsGrow(raws: map<string, RawEvent>, grown: map<string, RawEvent>, storageId: string, row: RawEvent,
                 project: int, producerId: string)
    requires storageId !in raws && grown == raws[storageId := row]
    ensures (exists s :: IsRaw(grown, s, project, producerId)) <==>
            || (exists s :: IsRaw(raws, s, project, producerId))
            || (row.project == project && row.producerId == producerId)
  {
    if s :| IsRaw(raws, s, project, producerId) { assert IsRaw(grown, s, project, producerId); }
    if s :| IsRaw(grown, s, project, producerId) { assert s == storageId || IsRaw(raws, s, project, producerId); }
    if row.project == project && row.producerId == producerId { assert IsRaw(grown, storageId, project, producerId); }
  }

  lemma NotifiedCount(outbox: seq<Batch>, endpoints: map<int, Endpoint>, q: Request, g: Grouping,
                      project: int, producerId: string)
    ensures BatchesFor(Notified(outbox, endpoints, q, g), project, producerId) ==
            BatchesFor(outbox, project, producerId)
            + (if g.kind.Some? && q.project == project && q.producerId == producerId then 1 else 0)
  {
  }

  lemma AcceptCommits(t: Tables, a: Action, project: int, producerId: string)
    ensures Accepts(t, a, project, producerId) ==>
              !Committed(t, project, producerId) && Committed(Apply(t, a), project, producerId)
    ensures !Accepts(t, a, project, producerId) ==>
              (Committed(Apply(t, a), project, producerId) <==> Committed(t, project, producerId))
    ensures BatchesFor(Apply(t, a).outbox, project, producerId) <=
            BatchesFor(t.outbox, project, producerId) + (if Accepts(t, a, project, producerId) then 1 else 0)
  {
    if a.IngestEvent? && Accepts(t, a, a.q.project, a.q.producerId) {
      var q, g := a.q, GroupingOf(t.issues, t.nextIssue, a.q);
      IngestedCases(t, q, a.now);
      RawsGrow(t.raws, Apply(t, a).raws, q.storageId, RawEvent(q.project, q.key, q.producerId, Some(q.bodyHash)),
               project, producerId);
      NotifiedCount(t.outbox, t.endpoints, q, g, project, producerId);
    } else {
      OthersCountNothing(t, a);
    }
  }

  /** However often and in whatever company an event id is sent, it is accepted
      exactly once if it is ever stored, and notifies at most once. */
  lemma {:induction false} CountedOnce(t: Tables, run: seq<Action>, project: int, producerId: string)
    requires Valid(t)
    ensures var u := After(t, run);
            && AcceptsIn(t, run, project, producerId) ==
               (if Committed(u, project, producerId) && !Committed(t, project, producerId) then 1 else 0)
            && (Committed(t, project, producerId) ==> Committed(u, project, producerId))
            && BatchesFor(u.outbox, project, producerId) <=
               BatchesFor(t.outbox, project, producerId) + AcceptsIn(t, run, project, producerId)
  {
    if run != [] {
      var before := run[..|run| - 1];
      CountedOnce(t, before, project, producerId);
      RunValid(t, before);
      AcceptCommits(After(t, before), run[|run| - 1], project, producerId);
    }
  }

  // ---- Results: history --------------------------------------------------

  /** The log replays to the current status, and the manual tag sets it names
      lead to the current tags without an ingest having removed any; regressions
      and their notifications are the same list. */
  lemma HistoryFaithful(start: Tables, run: seq<Action>, id: int)
    requires Valid(start) && Logged(start) && id in After(start, run).issues
    ensures var t := After(start, run);
            && StatusAfter(t.activity, id) == Some(t.issues[id].status)
            && TagsAfter(t.activity, id).Some? && TagsAfter(t.activity, id).value <= TagsOf(t.tags, id)
            && |TagsOf(t.tags, id)| <= Tags.MAX_TAGS && (forall tag | tag in TagsOf(t.tags, id) :: Tags.ValidTag(tag))
            && Regressions(t.activity) == RegressionBatches(t.outbox)
  {
    RunValid(start, run);
    RunLogged(start, run);
    var t := After(start, run);
    assert id in t.tags ==> TagSetValid(t.tags[id]);
  }

  /** What an ingest does to statuses: it reopens a resolved issue it joins, and
      changes no other; an ignored issue stays ignored. */
  lemma IngestStatuses(t: Tables, q: Request, now: int, id: int)
    requires Valid(t) && id in t.issues
    ensures var u := Ingested(t, q, now).0;
            && id in u.issues
            && (u.issues[id].status != t.issues[id].status <==>
                  t.issues[id].status.Resolved? && Accepts(t, IngestEvent(q, now), q.project, q.producerId)
                  && IsIssue(t.issues, id, q.project, q.fingerprint))
            && (u.issues[id].status != t.issues[id].status ==> u.issues[id].status.Unresolved?)
  {
    IngestedCases(t, q, now);
    GroupingJoins(t, q);
  }

  lemma LabelledMeaning(tags: map<int, set<string>>, id: int, labels: seq<string>)
    requires TagSetsValid(tags)
    ensures var before, after := TagsOf(tags, id), TagsOf(Labelled(tags, id, labels), id);
            var all := before + Elements(labels);
            before <= after <= all && |after| == if |all| <= Tags.MAX_TAGS then |all| else Tags.MAX_TAGS
    ensures forall j | j != id :: TagsOf(Labelled(tags, id, labels), j) == TagsOf(tags, j)
  {
    assert TagSetValid(TagsOf(tags, id));
    LabelsMerge(TagsOf(tags, id), labels);
    if labels == [] { assert TagsOf(tags, id) + Elements(labels) == TagsOf(tags, id); }
  }

  /** Labels are taken in order until the tags are full: some first part of them
      is stored, and if a label is left out the issue has all the tags it may. */
  /** The tags are the stored ones and the first `k` labels; they are `full` when
      a label is left out. */
  ghost predicate TakesFirst(stored: set<string>, labels: seq<string>, k: nat, full: int, merged: set<string>) {
    k <= |labels| && merged == stored + Elements(labels[..k]) && (k < |labels| ==> |merged| == full)
  }

  lemma TakesOneMore(stored: set<string>, labels: seq<string>, n: nat, full: int, merged: set<string>)
    requires labels != [] && TakesFirst(stored + {labels[0]}, labels[1..], n, full, merged)
    ensures TakesFirst(stored, labels, n + 1, full, merged)
  {
    TakenElements(labels, n);
    assert stored + ({labels[0]} + Elements(labels[1..][..n])) == (stored + {labels[0]}) + Elements(labels[1..][..n]);
  }

  lemma TakesNone(stored: set<string>, labels: seq<string>, full: int)
    requires labels == [] || |stored| == full
    ensures TakesFirst(stored, labels, 0, full, stored)
  {
    assert Elements(labels[..0]) == {};
  }

  lemma {:induction false} MergedInOrder(stored: set<string>, labels: seq<string>, room: nat) returns (k: nat)
    ensures TakesFirst(stored, labels, k, |stored| + room, Merged(stored, labels, room))
    decreases |labels|
  {
    if labels == [] || room == 0 {
      k := 0;
      TakesNone(stored, labels, |stored| + room);
    } else {
      var grown, left := stored + {labels[0]}, if labels[0] in stored then room else room - 1;
      assert labels[0] in stored ==> grown == stored;
      assert |grown| + left == |stored| + room && Merged(stored, labels, room) == Merged(grown, labels[1..], left);
      var n := MergedInOrder(grown, labels[1..], left);
      TakesOneMore(stored, labels, n, |stored| + room, Merged(stored, labels, room));
      k := n + 1;
    }
  }

  lemma TakenElements(labels: seq<string>, n: nat)
    requires n < |labels|
    ensures Elements(labels[..n + 1]) == {labels[0]} + Elements(labels[1..][..n])
  {
    assert labels[..n + 1] == [labels[0]] + labels[1..][..n];
  }

  lemma LabelledInOrder(tags: map<int, set<string>>, id: int, labels: seq<string>) returns (k: nat)
    requires TagSetsValid(tags)
    ensures TakesFirst(TagsOf(tags, id), labels, k, 50, TagsOf(Labelled(tags, id, labels), id))
  {
    var stored := TagsOf(tags, id);
    assert TagSetValid(stored);
    k := MergedInOrder(stored, labels, Tags.MAX_TAGS - |stored|);
    if labels == [] { assert stored + Elements(labels[..k]) == stored; }
  }

  /** An accepted event stores the first of its labels, as many as fit. */
  lemma IngestLabels(t: Tables, q: Request, now: int) returns (k: nat)
    requires Valid(t) && Accepts(t, IngestEvent(q, now), q.project, q.producerId)
    ensures var u, i := Ingested(t, q, now).0, Ingested(t, q, now).1.value.issueId;
            var labels := Tags.LabelsFromEventTags(q.eventTags);
            TakesFirst(TagsOf(t.tags, i), labels, k, 50, TagsOf(u.tags, i))
  {
    IngestedCases(t, q, now);
    var labels := Tags.LabelsFromEventTags(q.eventTags);
    k := LabelledInOrder(t.tags, GroupingOf(t.issues, t.nextIssue, q).issueId, labels);
  }

  /** An accepted event leaves exactly as many tags as fit, and removes none. */
  lemma IngestTags(t: Tables, q: Request, now: int)
    requires Valid(t) && Accepts(t, IngestEvent(q, now), q.project, q.producerId)
    ensures var u, i := Ingested(t, q, now).0, Ingested(t, q, now).1.value.issueId;
            var before, after := TagsOf(t.tags, i), TagsOf(u.tags, i);
            var all := before + Elements(Tags.LabelsFromEventTags(q.eventTags));
            && before <= after <= all && |after| == (if |all| <= Tags.MAX_TAGS then |all| else Tags.MAX_TAGS)
            && forall j | j != i :: TagsOf(u.tags, j) == TagsOf(t.tags, j)
  {
    IngestedCases(t, q, now);
    LabelledMeaning(t.tags, GroupingOf(t.issues, t.nextIssue, q).issueId, Tags.LabelsFromEventTags(q.eventTags));
  }

  /** A status change reaches any issue of the project and no other, touches
      nothing else, and is logged exactly when it changes something. */
  lemma StatusLoggedWhenChanged(t: Tables, project: int, id: int, status: Status)
    ensures var (u, r) := StatusSet(t, project, id, status);
            && (r.Ok? <==> id in t.issues && t.issues[id].project == project)
            && (r.Ok? ==> u.issues == t.issues[id := t.issues[id].(status := status)])
            && (r.Ok? && Faithful(t) ==> StatusAfter(u.activity, id) == Some(status))
            && (r.Err? || t.issues[id].status == status <==> u.activity == t.activity)
            && u == t.(issues := u.issues, activity := u.activity)
            && (r.Err? ==> u == t)
  {
    if id in t.issues && t.issues[id].project == project && Faithful(t) { StatusReplays(t, project, id, status); }
  }

  lemma StatusReplays(t: Tables, project: int, id: int, status: Status)
    requires Faithful(t) && id in t.issues && t.issues[id].project == project
    ensures StatusAfter(StatusSet(t, project, id, status).0.activity, id) == Some(status)
  {
    if t.issues[id].status != status { StatusFaithful(t, id, status); }
  }

  /** The log entry of an edit: the sorted sets before and after it. */
  ghost predicate IsTagsEntry(a: Activity, id: int, before: set<string>, after: set<string>) {
    && a.TagsChanged? && a.issueId == id
    && StrictlySorted(a.before) && Elements(a.before) == before
    && StrictlySorted(a.after) && Elements(a.after) == after
  }

  /** The outcome of storing a list of distinct valid tags. */
  ghost predicate IsReplaced(t: Tables, u: Tables, r: Result<seq<string>, Error>, id: int, after: set<string>) {
    var before := TagsOf(t.tags, id);
    && r.Ok? && TagsOf(u.tags, id) == after && StrictlySorted(r.value) && Elements(r.value) == after
    && (if before == after then u.activity == t.activity
        else |u.activity| == |t.activity| + 1 && u.activity[..|t.activity|] == t.activity
             && IsTagsEntry(u.activity[|t.activity|], id, before, after))
  }

  /** Nothing but the tags of one issue and the log changes. */
  ghost predicate OnlyTagsOf(t: Tables, u: Tables, id: int) {
    && u == t.(tags := u.tags, activity := u.activity)
    && forall j | j != id :: TagsOf(u.tags, j) == TagsOf(t.tags, j)
  }

  lemma ReplaceMeaning(t: Tables, project: int, id: int, tags: seq<string>)
    requires Tags.IsNormal(tags)
    ensures var (u, r) := TagsReplaced(t, project, id, tags);
            && OnlyTagsOf(t, u, id)
            && (if id in t.issues && t.issues[id].project == project then IsReplaced(t, u, r, id, Elements(tags))
                else u == t && r == Err(NotFound))
  {
    TagsReplacedMeaning(t, project, id, tags);
    SortOfDistinct(tags);
    SortedComparison(tags, TagsOf(t.tags, id));
    assert (set tag | tag in tags) == Elements(tags);
  }

  /** A manual edit succeeds exactly when the project has the issue and the list
      names at most fifty valid tags; it then stores and lists exactly those, and
      is logged exactly when that changes the set. */
  lemma EditLoggedWhenChanged(t: Tables, project: int, id: int, raw: seq<string>)
    ensures var (u, r) := TagsEdited(t, project, id, raw);
            var listOk := Tags.Acceptable(raw) && |Tags.Named(raw)| <= 50;
            && (r.Ok? <==> listOk && id in t.issues && t.issues[id].project == project)
            && (r.Err? ==> u == t && r == Err(if listOk then NotFound else BadRequest))
            && (r.Ok? ==> IsReplaced(t, u, r, id, Tags.Named(raw)))
            && OnlyTagsOf(t, u, id)
  {
    Tags.NormalizedMeaning(raw);
    if Tags.Normalized(raw).Ok? { ReplaceMeaning(t, project, id, Tags.Normalized(raw).value); }
  }
}
