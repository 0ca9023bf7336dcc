/** Runs of one spool directory (crates/zbierak-sdk/src/lib.rs): whether the event
    just stored survives its own store, which the clock and the process-wide
    sequence number decide. */
module SpoolRuns {
  import opened Text
  import opened Spool

  /** `sequence` is the process's counter; `floor` is the least timestamp that
      sorts behind everything stored: the last one used, or after a restart the
      one after it. */
  datatype State = State(files: seq<Entry>, sequence: nat, floor: nat)

  /** `Elsewhere` draws a number for another spool of the process; a restarted
      process counts from zero again. */
  datatype Action =
    | Store(event: Event, timestamp: nat, uuid: string)
    | Remove(name: string)
    | Elsewhere
    | Restart

  /** The stored listing; a refused store draws no number. */
  function Step(s: State, maxBytes: nat, a: Action): State {
    match a
    case Store(event, timestamp, uuid) =>
      (match Stored(s.files, maxBytes, event, Name(timestamp, s.sequence, uuid))
       case Ok(files) => State(files, s.sequence + 1, timestamp)
       case Err(_) => s)
    case Remove(name) => s.(files := Without(s.files, name))
    case Elsewhere => s.(sequence := s.sequence + 1)
    case Restart => s.(sequence := 0, floor := s.floor + 1)
  }

  function After(s: State, maxBytes: nat, run: seq<Action>): State {
    if run == [] then s else Step(After(s, maxBytes, run[..|run| - 1]), maxBytes, run[|run| - 1])
  }

  // ---- Stamps ------------------------------------------------------------

  predicate Earlier(t: nat, s: nat, t': nat, s': nat) {
    t < t' || (t == t' && s < s')
  }

  /** The file was named at a stamp before this one. */
  ghost predicate NamedBefore(name: string, timestamp: nat, sequence: nat) {
    exists t: nat, s: nat, uuid: string :: IsStamp(name, t, s, uuid) && Earlier(t, s, timestamp, sequence)
  }

  ghost predicate IsStamp(name: string, t: nat, s: nat, uuid: string) {
    name == Name(t, s, uuid) && t < Pow10(20) && s < Pow10(20)
  }

  ghost predicate AllBefore(files: seq<Entry>, timestamp: nat, sequence: nat) {
    forall f | f in files :: NamedBefore(f.name, timestamp, sequence)
  }

  lemma BeforeIsLess(name: string, timestamp: nat, sequence: nat, uuid: string)
    requires NamedBefore(name, timestamp, sequence) && timestamp < Pow10(20) && sequence < Pow10(20)
    ensures Less(name, Name(timestamp, sequence, uuid))
  {
    var t: nat, s: nat, u: string :| IsStamp(name, t, s, u) && Earlier(t, s, timestamp, sequence);
    NameOrder(t, s, u, timestamp, sequence, uuid);
  }

  lemma LaterStamp(files: seq<Entry>, t: nat, s: nat, t': nat, s': nat)
    requires AllBefore(files, t, s) && (Earlier(t, s, t', s') || (t, s) == (t', s'))
    ensures AllBefore(files, t', s')
  {
    forall f | f in files ensures NamedBefore(f.name, t', s') {
      var a: nat, b: nat, u: string :| IsStamp(f.name, a, b, u) && Earlier(a, b, t, s);
      assert IsStamp(f.name, a, b, u) && Earlier(a, b, t', s');
    }
  }

  /** The digits of both numbers stay within their padding. */
  ghost predicate InRange(timestamp: nat, sequence: nat) {
    timestamp < Pow10(20) && sequence < Pow10(20)
  }

  /** A store stamped after everything in the directory keeps its own event. */
  lemma StoreSurvives(files: seq<Entry>, maxBytes: nat, event: Event, timestamp: nat, sequence: nat, uuid: string)
    requires Ordered(files) && AllBefore(files, timestamp, sequence) && InRange(timestamp, sequence)
    requires Stored(files, maxBytes, event, Name(timestamp, sequence, uuid)).Ok?
    ensures var name := Name(timestamp, sequence, uuid);
            var kept := Stored(files, maxBytes, event, name).value;
            && Entry(name, Some(event), |event.body|) in kept
            && Ordered(kept) && AllBefore(kept, timestamp, sequence + 1)
  {
    var name := Name(timestamp, sequence, uuid);
    SortsBehind(files, timestamp, sequence, uuid);
    NewestSurvives(files, maxBytes, event, name);
    StoreMeaning(files, maxBytes, event, name);
    KeptBefore(files, maxBytes, event, timestamp, sequence, uuid);
  }

  lemma SortsBehind(files: seq<Entry>, timestamp: nat, sequence: nat, uuid: string)
    requires AllBefore(files, timestamp, sequence) && InRange(timestamp, sequence)
    ensures var name := Name(timestamp, sequence, uuid);
            !Holds(files, name) && forall i | 0 <= i < |files| :: Less(files[i].name, name)
  {
    var name := Name(timestamp, sequence, uuid);
    LessIrreflexive(name);
    forall i | 0 <= i < |files| ensures Less(files[i].name, name) {
      assert files[i] in files;
      BeforeIsLess(files[i].name, timestamp, sequence, uuid);
    }
  }

  lemma KeptBefore(files: seq<Entry>, maxBytes: nat, event: Event, timestamp: nat, sequence: nat, uuid: string)
    requires AllBefore(files, timestamp, sequence) && InRange(timestamp, sequence)
    requires Stored(files, maxBytes, event, Name(timestamp, sequence, uuid)).Ok?
    ensures AllBefore(Stored(files, maxBytes, event, Name(timestamp, sequence, uuid)).value, timestamp, sequence + 1)
  {
    var name := Name(timestamp, sequence, uuid);
    var entry := Entry(name, Some(event), |event.body|);
    LaterStamp(files, timestamp, sequence, timestamp, sequence + 1);
    assert IsStamp(name, timestamp, sequence, uuid) && Earlier(timestamp, sequence, timestamp, sequence + 1);
    forall f | f in Stored(files, maxBytes, event, name).value ensures f in files || f == entry {
      assert f in Placed(files, entry);
    }
  }

  // ---- Runs --------------------------------------------------------------

  /** Every store of the run has its timestamp at or above the floor: the clock
      does not run backwards, and has moved on when a restarted process stores. */
  ghost predicate Steady(s: State, maxBytes: nat, run: seq<Action>) {
    forall k | 0 <= k < |run| && run[k].Store? ::
      var before := After(s, maxBytes, run[..k]);
      before.floor <= run[k].timestamp && InRange(run[k].timestamp, before.sequence)
  }

  ghost predicate Stamped(s: State) {
    Ordered(s.files) && AllBefore(s.files, s.floor, s.sequence)
  }

  lemma StepStamped(s: State, maxBytes: nat, a: Action)
    requires Stamped(s) && (a.Store? ==> s.floor <= a.timestamp && InRange(a.timestamp, s.sequence))
    ensures Stamped(Step(s, maxBytes, a))
    ensures a.Store? ==> KeepsStored(s, maxBytes, a, Step(s, maxBytes, a))
  {
    match a
    case Store(event, timestamp, uuid) =>
      LaterStamp(s.files, s.floor, s.sequence, timestamp, s.sequence);
      if Stored(s.files, maxBytes, event, Name(timestamp, s.sequence, uuid)).Ok? {
        StoreSurvives(s.files, maxBytes, event, timestamp, s.sequence, uuid);
      }
    case Remove(name) => WithoutMeaning(s.files, name);
    case Elsewhere => LaterStamp(s.files, s.floor, s.sequence, s.floor, s.sequence + 1);
    case Restart => LaterStamp(s.files, s.floor, s.sequence, s.floor + 1, 0);
  }

  lemma SteadyPrefix(s: State, maxBytes: nat, run: seq<Action>, k: nat)
    requires Steady(s, maxBytes, run) && k <= |run|
    ensures Steady(s, maxBytes, run[..k])
  {
    assert forall m | 0 <= m < k :: run[..k][..m] == run[..m] && run[..k][m] == run[m];
  }

  lemma {:induction false} RunStamped(s: State, maxBytes: nat, run: seq<Action>)
    requires Stamped(s) && Steady(s, maxBytes, run)
    ensures Stamped(After(s, maxBytes, run))
  {
    if run != [] {
      var n := |run| - 1;
      SteadyPrefix(s, maxBytes, run, n);
      RunStamped(s, maxBytes, run[..n]);
      StepStamped(After(s, maxBytes, run[..n]), maxBytes, run[n]);
    }
  }

  /** What the store changed the spool to holds the event. */
  ghost predicate KeepsStored(before: State, maxBytes: nat, a: Action, after: State)
    requires a.Store?
  {
    var name := Name(a.timestamp, before.sequence, a.uuid);
    Stored(before.files, maxBytes, a.event, name).Ok? ==> Entry(name, Some(a.event), |a.event.body|) in after.files
  }

  /** With a clock that does not run backwards, and moves on across restarts,
      every event just stored is in the spool. */
  lemma StoredSurvives(s: State, maxBytes: nat, run: seq<Action>, k: nat)
    requires Stamped(s) && Steady(s, maxBytes, run) && k < |run| && run[k].Store?
    ensures KeepsStored(After(s, maxBytes, run[..k]), maxBytes, run[k], After(s, maxBytes, run[..k + 1]))
  {
    SteadyPrefix(s, maxBytes, run, k);
    RunStamped(s, maxBytes, run[..k]);
    StepStamped(After(s, maxBytes, run[..k]), maxBytes, run[k]);
    AfterSnoc(s, maxBytes, run[..k], run[k]);
    assert run[..k + 1] == run[..k] + [run[k]];
  }

  /** In any listing: the event survives its own store exactly when it fits
      together with the files named after it. */
  lemma SurvivesExactly(files: seq<Entry>, maxBytes: nat, event: Event, name: string)
    requires Ordered(files) && !Holds(files, name) && Stored(files, maxBytes, event, name).Ok?
    ensures Entry(name, Some(event), |event.body|) in Stored(files, maxBytes, event, name).value
            <==> |event.body| + Total(files[Position(files, name)..]) <= maxBytes
  {
    var entry, i := Entry(name, Some(event), |event.body|), Position(files, name);
    StoreMeaning(files, maxBytes, event, name);
    assert Placed(files, entry)[i..] == [entry] + files[i..];
    var kept := Stored(files, maxBytes, event, name).value;
    if entry in kept { assert Holds(kept, name) by { var j :| 0 <= j < |kept| && kept[j] == entry; } }
  }

  lemma AfterSnoc(s: State, maxBytes: nat, run: seq<Action>, a: Action)
    ensures After(s, maxBytes, run + [a]) == Step(After(s, maxBytes, run), maxBytes, a)
  {
    assert (run + [a])[..|run|] == run;
  }

  lemma FillsSpool(maxBytes: nat, event: Event, name: string)
    requires 0 < maxBytes && |event.body| <= maxBytes
    ensures Stored([], maxBytes, event, name) == Ok([Entry(name, Some(event), |event.body|)])
  {
    var only := [Entry(name, Some(event), |event.body|)];
    assert only[1..] == [] && Total(only) == |event.body|;
    assert Placed([], only[0]) == only && Bounded(only, maxBytes) == only;
  }

  lemma EvictsItself(maxBytes: nat, first: Entry, event: Event, name: string)
    requires Less(name, first.name) && first.size <= maxBytes
    requires 0 < maxBytes && |event.body| <= maxBytes < first.size + |event.body|
    ensures Stored([first], maxBytes, event, name) == Ok([first])
  {
    var all := [Entry(name, Some(event), |event.body|), first];
    assert all[1..] == [first] && [first][1..] == [] && Total([first]) == first.size;
    assert Total(all) == |event.body| + first.size && Placed([first], all[0]) == all;
    assert Evicted([first], maxBytes) == 0 && Evicted(all, maxBytes) == 1;
  }

  lemma AfterOne(s: State, maxBytes: nat, a: Action)
    ensures After(s, maxBytes, [a]) == Step(s, maxBytes, a)
  {
    assert [a][..0] == [];
  }

  lemma AfterTwo(s: State, maxBytes: nat, a: Action, b: Action)
    ensures After(s, maxBytes, [a, b]) == Step(Step(s, maxBytes, a), maxBytes, b)
  {
    AfterOne(s, maxBytes, a);
    assert [a, b][..1] == [a];
  }

  /** The numbering starts again with the process: an event stored in the very
      millisecond of an earlier process's last store sorts before it, and when
      the two do not fit together it is evicted at once. */
  lemma RestartInOneTick(maxBytes: nat, timestamp: nat, drawn: nat, a: Event, b: Event, u: string, v: string)
    requires InRange(timestamp, drawn) && drawn > 0
    requires |a.body| <= maxBytes && |b.body| <= maxBytes < |a.body| + |b.body|
    ensures var filled := After(State([], drawn, 0), maxBytes, [Store(a, timestamp, u)]);
            && filled.files == [Entry(Name(timestamp, drawn, u), Some(a), |a.body|)]
            && Stored(filled.files, maxBytes, b, Name(timestamp, 0, v)).Ok?
            && After(filled, maxBytes, [Restart, Store(b, timestamp, v)]).files == filled.files
  {
    var p, q := Name(timestamp, drawn, u), Name(timestamp, 0, v);
    var first := Entry(p, Some(a), |a.body|);
    AfterOne(State([], drawn, 0), maxBytes, Store(a, timestamp, u));
    FillsSpool(maxBytes, a, p);
    NameOrder(timestamp, 0, v, timestamp, drawn, u);
    EvictsItself(maxBytes, first, b, q);
    AfterTwo(State([first], drawn + 1, timestamp), maxBytes, Restart, Store(b, timestamp, v));
  }
}
