/** The SDK's disk spool (crates/zbierak-sdk/src/lib.rs) and one undisturbed
    drain of it (crates/zbierak-sdk/src/blocking.rs). The directory is its
    listing in file-name order. */
module Spool {
  import opened Text

  /** An event with its serialised form. */
  datatype Event = Event(id: string, body: string)

  /** A spool file; corrupt files hold no event. */
  datatype Entry = Entry(name: string, content: Option<Event>, size: nat)

  datatype SpoolError = Disabled | EventTooLarge

  // ---- File names --------------------------------------------------------

  function Digit(d: nat): char
    requires d < 10
  {
    '0' + d as char
  }

  /** Decimal digits, zero-padded to at least `width`. */
  function Padded(n: nat, width: nat): string {
    if n < 10 && width <= 1 then [Digit(n)]
    else Padded(n / 10, if width == 0 then 0 else width - 1) + [Digit(n % 10)]
  }

  function Name(timestamp: nat, sequence: nat, uuid: string): string {
    Padded(timestamp, 20) + "-" + Padded(sequence, 20) + "-" + uuid + ".json"
  }

  function Pow10(n: nat): nat {
    if n == 0 then 1 else 10 * Pow10(n - 1)
  }

  lemma {:induction false} PaddedOrder(a: nat, b: nat, width: nat)
    requires 1 <= width && a < Pow10(width) && b < Pow10(width)
    ensures |Padded(a, width)| == |Padded(b, width)| == width
    ensures Less(Padded(a, width), Padded(b, width)) <==> a < b
    ensures Padded(a, width) == Padded(b, width) <==> a == b
  {
    if width == 1 {
    } else {
      PaddedOrder(a / 10, b / 10, width - 1);
      var p, q := Padded(a / 10, width - 1), Padded(b / 10, width - 1);
      var x, y := [Digit(a % 10)], [Digit(b % 10)];
      LessAfterPrefix(p, q, x, y);
      assert Padded(a, width) == p + x && Padded(b, width) == q + y;
      assert Less(x, y) <==> a % 10 < b % 10;
      if p + x == q + y {
        assert (p + x)[..width - 1] == p && (q + y)[..width - 1] == q;
        assert (p + x)[width - 1] == x[0] && (q + y)[width - 1] == y[0];
      }
    }
  }

  lemma OrderOfParts(p: string, q: string, r: string, s: string, a: string, b: string)
    requires |p| == |q| && |r| == |s|
    ensures Less(p + "-" + r + a, q + "-" + s + b) <==> Less(p, q) || (p == q && (Less(r, s) || (r == s && Less(a, b))))
  {
    assert p + "-" + r + a == p + ("-" + (r + a)) && q + "-" + s + b == q + ("-" + (s + b));
    LessAfterPrefix(p, q, "-" + (r + a), "-" + (s + b));
    LessAfterPrefix("-", "-", r + a, s + b);
    LessIrreflexive("-");
    LessAfterPrefix(r, s, a, b);
  }

  /** File-name order is numeric order on (timestamp, sequence). */
  lemma NameOrder(t: nat, s: nat, u: string, t': nat, s': nat, u': string)
    requires t < Pow10(20) && t' < Pow10(20) && s < Pow10(20) && s' < Pow10(20)
    requires (t, s) != (t', s')
    ensures Less(Name(t, s, u), Name(t', s', u')) <==> t < t' || (t == t' && s < s')
  {
    PaddedOrder(t, t', 20);
    PaddedOrder(s, s', 20);
    OrderOfParts(Padded(t, 20), Padded(t', 20), Padded(s, 20), Padded(s', 20), "-" + u + ".json", "-" + u' + ".json");
    NameParts(t, s, u);
    NameParts(t', s', u');
  }

  lemma NameParts(t: nat, s: nat, u: string)
    ensures Name(t, s, u) == Padded(t, 20) + "-" + Padded(s, 20) + ("-" + u + ".json")
  {
  }

  // ---- The listing -------------------------------------------------------

  ghost predicate Ordered(files: seq<Entry>) {
    forall i, j | 0 <= i < j < |files| :: Less(files[i].name, files[j].name)
  }

  lemma OrderedRest(files: seq<Entry>)
    requires Ordered(files) && files != []
    ensures Ordered(files[1..])
  {
    assert forall i | 0 <= i < |files| - 1 :: files[1..][i] == files[i + 1];
  }

  predicate Holds(files: seq<Entry>, name: string) {
    exists i | 0 <= i < |files| :: files[i].name == name
  }

  /** The listing once the file of this name is deleted. */
  function Without(files: seq<Entry>, name: string): seq<Entry> {
    if files == [] then []
    else if files[0].name == name then files[1..]
    else [files[0]] + Without(files[1..], name)
  }

  /** Exactly the named file goes, and the order stays. */
  lemma {:induction false} WithoutMeaning(files: seq<Entry>, name: string)
    requires Ordered(files)
    ensures Ordered(Without(files, name))
    ensures forall f :: f in Without(files, name) <==> f in files && f.name != name
  {
    if files != [] {
      var rest := files[1..];
      assert forall i | 0 <= i < |rest| :: rest[i] == files[i + 1];
      LessIrreflexive(files[0].name);
      if files[0].name == name {
        forall f | f in rest ensures f.name != name {}
      } else {
        WithoutMeaning(rest, name);
        var kept := Without(rest, name);
        forall i | 0 <= i < |kept| ensures Less(files[0].name, kept[i].name) { assert kept[i] in rest; }
      }
    }
  }

  function Total(files: seq<Entry>): nat {
    if files == [] then 0 else files[0].size + Total(files[1..])
  }

  /** Where a new name goes in the listing. */
  function Position(files: seq<Entry>, name: string): (i: nat)
    ensures i <= |files|
  {
    if files == [] || Less(name, files[0].name) then 0 else 1 + Position(files[1..], name)
  }

  function Placed(files: seq<Entry>, entry: Entry): seq<Entry> {
    var i := Position(files, entry.name);
    files[..i] + [entry] + files[i..]
  }

  /** How many of the oldest files the byte bound evicts. */
  function Evicted(files: seq<Entry>, maxBytes: nat): (k: nat)
    ensures k <= |files|
  {
    if Total(files) <= maxBytes then 0 else 1 + Evicted(files[1..], maxBytes)
  }

  function Bounded(files: seq<Entry>, maxBytes: nat): seq<Entry> {
    files[Evicted(files, maxBytes)..]
  }

  function Stored(files: seq<Entry>, maxBytes: nat, event: Event, name: string): Result<seq<Entry>, SpoolError> {
    if maxBytes == 0 then Err(Disabled)
    else if |event.body| > maxBytes then Err(EventTooLarge)
    else Ok(Bounded(Placed(files, Entry(name, Some(event), |event.body|)), maxBytes))
  }

  lemma {:induction false} PositionMeaning(files: seq<Entry>, name: string)
    requires Ordered(files) && !Holds(files, name)
    ensures forall i | 0 <= i < Position(files, name) :: Less(files[i].name, name)
    ensures forall i | Position(files, name) <= i < |files| :: Less(name, files[i].name)
  {
    if files != [] {
      var rest := files[1..];
      assert forall i | 0 <= i < |rest| :: rest[i] == files[i + 1];
      LessTotal(name, files[0].name);
      if Less(name, files[0].name) {
        forall i | 0 <= i < |files| ensures Less(name, files[i].name) {
          if i > 0 { LessTransitive(name, files[0].name, files[i].name); }
        }
      } else {
        PositionMeaning(rest, name);
        forall i | Position(files, name) <= i < |files| ensures Less(name, files[i].name) {
          assert files[i] == rest[i - 1];
        }
        forall i | 0 <= i < Position(files, name) ensures Less(files[i].name, name) {
          if i > 0 { assert files[i] == rest[i - 1]; }
        }
      }
    }
  }

  lemma PlacedOrdered(files: seq<Entry>, entry: Entry)
    requires Ordered(files) && !Holds(files, entry.name)
    ensures Ordered(Placed(files, entry))
  {
    PositionMeaning(files, entry.name);
  }

  lemma {:induction false} TotalSplit(files: seq<Entry>, k: nat)
    requires k <= |files|
    ensures Total(files) == Total(files[..k]) + Total(files[k..])
  {
    if k > 0 {
      assert files[..k][1..] == files[1..][..k - 1] && files[1..][k - 1..] == files[k..];
      TotalSplit(files[1..], k - 1);
    } else {
      assert files[0..] == files;
    }
  }

  /** The bound keeps the longest suffix of the listing that fits. */
  lemma {:induction false} BoundedMeaning(files: seq<Entry>, maxBytes: nat)
    ensures Total(Bounded(files, maxBytes)) <= maxBytes
    ensures forall k | 0 <= k <= |files| :: Total(files[k..]) <= maxBytes <==> Evicted(files, maxBytes) <= k
  {
    if Total(files) <= maxBytes {
      assert files[0..] == files;
      forall k | 0 <= k <= |files| ensures Total(files[k..]) <= maxBytes { TotalSplit(files, k); }
    } else {
      var rest := files[1..];
      BoundedMeaning(rest, maxBytes);
      assert rest[Evicted(rest, maxBytes)..] == Bounded(files, maxBytes);
      forall k | 0 <= k <= |files| ensures Total(files[k..]) <= maxBytes <==> Evicted(files, maxBytes) <= k {
        if k == 0 { assert files[0..] == files; } else { assert files[k..] == rest[k - 1..]; }
      }
    }
  }

  function SaturatingSub(a: nat, b: nat): nat {
    if a >= b then a - b else 0
  }

  /** The eviction loop: deletes the oldest while the running total is too large;
      subtraction saturates. */
  function Loop(files: seq<Entry>, total: nat, maxBytes: nat): seq<Entry> {
    if files == [] || total <= maxBytes then files
    else Loop(files[1..], SaturatingSub(total, files[0].size), maxBytes)
  }

  /** The subtraction saturates nowhere in the loop. */
  predicate Exact(files: seq<Entry>, total: nat, maxBytes: nat) {
    files == [] || total <= maxBytes
    || (total >= files[0].size && Exact(files[1..], total - files[0].size, maxBytes))
  }

  /** Started on the sum of the sizes, the loop never saturates and leaves the
      longest suffix that fits. */
  lemma {:induction false} RunningTotal(files: seq<Entry>, maxBytes: nat)
    ensures Exact(files, Total(files), maxBytes)
    ensures Loop(files, Total(files), maxBytes) == Bounded(files, maxBytes)
  {
    if Total(files) > maxBytes {
      RunningTotal(files[1..], maxBytes);
      assert files[1..][Evicted(files[1..], maxBytes)..] == Bounded(files, maxBytes);
    }
  }

  /** After a successful store the listing is within the bound, is a suffix of
      the old one with the event put in its place, and holds the event itself
      exactly when the files from its name onwards fit. */
  lemma StoreMeaning(files: seq<Entry>, maxBytes: nat, event: Event, name: string)
    requires Ordered(files) && !Holds(files, name)
    ensures var stored := Stored(files, maxBytes, event, name);
            && (stored.Ok? <==> 0 < maxBytes && |event.body| <= maxBytes)
            && (stored.Ok? ==>
                  var entry := Entry(name, Some(event), |event.body|);
                  var all := Placed(files, entry);
                  && Ordered(stored.value) && Total(stored.value) <= maxBytes
                  && (Holds(stored.value, name) <==> Total(all[Position(files, name)..]) <= maxBytes)
                  && (Holds(stored.value, name) ==> entry in stored.value))
  {
    var entry := Entry(name, Some(event), |event.body|);
    var all := Placed(files, entry);
    PlacedOrdered(files, entry);
    BoundedMeaning(all, maxBytes);
    assert all[Position(files, name)] == entry;
    SuffixHolds(all, Position(files, name), Evicted(all, maxBytes));
  }

  /** A suffix of the listing holds a file's name exactly when it starts no later. */
  lemma SuffixHolds(files: seq<Entry>, i: nat, k: nat)
    requires Ordered(files) && i < |files| && k <= |files|
    ensures Holds(files[k..], files[i].name) <==> k <= i
    ensures k <= i ==> files[i] in files[k..]
  {
    LessIrreflexive(files[i].name);
    if k <= i {
      assert files[k..][i - k] == files[i];
    } else {
      forall j | 0 <= j < |files| - k ensures files[k..][j].name != files[i].name {
        assert files[k..][j] == files[k + j] && Less(files[i].name, files[k + j].name);
      }
    }
  }

  /** An event stored under the newest name survives its own store. */
  lemma NewestSurvives(files: seq<Entry>, maxBytes: nat, event: Event, name: string)
    requires Ordered(files) && forall i | 0 <= i < |files| :: Less(files[i].name, name)
    requires Stored(files, maxBytes, event, name).Ok?
    ensures Entry(name, Some(event), |event.body|) in Stored(files, maxBytes, event, name).value
  {
    LessIrreflexive(name);
    PositionMeaning(files, name);
    var i := Position(files, name);
    assert i == |files| by {
      if i < |files| {
        LessTransitive(name, files[i].name, name);
        assert false;
      }
    }
    var entry := Entry(name, Some(event), |event.body|);
    assert Placed(files, entry)[i..] == [entry];
    StoreMeaning(files, maxBytes, event, name);
  }

  // ---- Draining ----------------------------------------------------------

  datatype Delivery = Delivered | PermanentFailure | Retry

  /** The end of one request: a status, or no response at all. */
  datatype Response = Status(code: nat) | TransportError

  predicate IsRetryable(code: nat) {
    500 <= code < 600 || code == 408 || code == 429
  }

  function Classify(response: Response): Delivery {
    match response
    case Status(code) =>
      if 200 <= code < 300 then Delivered else if IsRetryable(code) then Retry else PermanentFailure
    case TransportError => Retry
  }

  datatype Report = Report(delivered: nat, remaining: nat)

  /** One round of a drain: whether the deadline has passed, else the response. */
  datatype Round = Round(expired: bool, response: Response)

  function WithoutCorruptHead(files: seq<Entry>): (r: seq<Entry>)
    ensures |r| <= |files| && (r != [] ==> r[0].content.Some?)
  {
    if files == [] || files[0].content.Some? then files else WithoutCorruptHead(files[1..])
  }

  datatype Drain = Drain(files: seq<Entry>, sent: seq<Event>, delivered: nat, rejected: nat, corrupt: nat) {
    /** The same drain with one more settled event in front. */
    function After(event: Event, delivered: nat, rejected: nat, corrupt: nat): Drain {
      Drain(files, [event] + sent, this.delivered + delivered, this.rejected + rejected, this.corrupt + corrupt)
    }

    function Settled(): nat {
      delivered + rejected
    }

    /** Every file of the listing is delivered, rejected, corrupt or left, and
        the events were sent in its order. */
    ghost predicate Accounts(listing: seq<Entry>) {
      && |listing| == Settled() + corrupt + |files|
      && files == listing[|listing| - |files|..]
      && (|sent| == Settled()
          || (|sent| == Settled() + 1 && files != [] && files[0].content == Some(sent[Settled()])))
      && Events(listing) == sent[..Settled()] + Events(files)
    }
  }

  /** A drain nobody interferes with; running out of rounds is the deadline. */
  function Drained(files: seq<Entry>, rounds: seq<Round>): Drain
    decreases |rounds|
  {
    if rounds == [] || rounds[0].expired then Drain(files, [], 0, 0, 0)
    else
      var live := WithoutCorruptHead(files);
      var corrupt := |files| - |live|;
      if live == [] then Drain([], [], 0, 0, corrupt)
      else
        var event := live[0].content.value;
        match Classify(rounds[0].response)
        case Retry => Drain(live, [event], 0, 0, corrupt)
        case Delivered => Drained(live[1..], rounds[1..]).After(event, 1, 0, corrupt)
        case PermanentFailure => Drained(live[1..], rounds[1..]).After(event, 0, 1, corrupt)
  }

  /** The events of a listing, oldest first. */
  function Events(files: seq<Entry>): seq<Event> {
    if files == [] then []
    else (if files[0].content.Some? then [files[0].content.value] else []) + Events(files[1..])
  }

  lemma {:induction false} EventsOfLive(files: seq<Entry>)
    ensures Events(WithoutCorruptHead(files)) == Events(files)
  {
    if files != [] && files[0].content.None? { EventsOfLive(files[1..]); }
  }

  lemma {:induction false} LiveIsSuffix(files: seq<Entry>)
    ensures var live := WithoutCorruptHead(files); live == files[|files| - |live|..]
  {
    if files != [] && files[0].content.None? { LiveIsSuffix(files[1..]); }
  }

  lemma SuffixOfSuffix(files: seq<Entry>, live: seq<Entry>, rest: seq<Entry>)
    requires |rest| < |live| <= |files|
    requires live == files[|files| - |live|..] && rest == live[1..][|live| - 1 - |rest|..]
    ensures rest == files[|files| - |rest|..]
  {
  }

  lemma {:induction false} DrainCounts(files: seq<Entry>, rounds: seq<Round>)
    decreases |rounds|
    ensures var d := Drained(files, rounds);
            && |files| == d.Settled() + d.corrupt + |d.files|
            && d.files == files[|files| - |d.files|..]
  {
    if rounds != [] && !rounds[0].expired {
      var live := WithoutCorruptHead(files);
      LiveIsSuffix(files);
      if live != [] && !Classify(rounds[0].response).Retry? {
        DrainCounts(live[1..], rounds[1..]);
        SuffixOfSuffix(files, live, Drained(files, rounds).files);
      }
    }
  }

  lemma {:induction false} DrainSends(files: seq<Entry>, rounds: seq<Round>)
    decreases |rounds|
    ensures var d := Drained(files, rounds);
            && d.Settled() <= |d.sent| <= d.Settled() + 1
            && (|d.sent| > d.Settled() ==> d.files != [] && d.files[0].content == Some(d.sent[d.Settled()]))
            && Events(files) == d.sent[..d.Settled()] + Events(d.files)
  {
    if rounds != [] && !rounds[0].expired {
      var live := WithoutCorruptHead(files);
      EventsOfLive(files);
      if live != [] && !Classify(rounds[0].response).Retry? {
        var rest, d, event := Drained(live[1..], rounds[1..]), Drained(files, rounds), live[0].content.value;
        DrainSends(live[1..], rounds[1..]);
        assert d.sent == [event] + rest.sent && d.Settled() == rest.Settled() + 1;
        assert d.sent[..d.Settled()] == [event] + rest.sent[..rest.Settled()];
      }
    }
  }

  /** A round that lasts: not the deadline, and not a retryable response. */
  predicate Settles(round: Round) {
    !round.expired && !Classify(round.response).Retry?
  }

  /** The first round that ends a drain. */
  function FirstStop(rounds: seq<Round>): (k: nat)
    ensures k <= |rounds|
    ensures forall i | 0 <= i < k :: Settles(rounds[i])
    ensures k < |rounds| ==> !Settles(rounds[k])
  {
    if rounds == [] || !Settles(rounds[0]) then 0 else 1 + FirstStop(rounds[1..])
  }

  function Accepted(rounds: seq<Round>): nat {
    if rounds == [] then 0
    else (if Classify(rounds[0].response).Delivered? then 1 else 0) + Accepted(rounds[1..])
  }

  function Least(a: nat, b: nat): nat {
    if a < b then a else b
  }

  /** The drain ends at the first stopping round or with the last event, counts
      the responses of its own rounds, and sends one more event than it settles
      exactly when a retryable response stops it. */
  ghost predicate Stops(d: Drain, files: seq<Entry>, rounds: seq<Round>) {
    var n := d.Settled();
    && n == Least(FirstStop(rounds), |Events(files)|)
    && d.delivered == Accepted(rounds[..n])
    && (|d.sent| == n + 1 <==> n < |Events(files)| && n < |rounds| && !rounds[n].expired)
    && (d.files != [] && n < |rounds| ==> !Settles(rounds[n]))
    && (d.files != [] && n < |rounds| && !rounds[n].expired ==> d.files[0].content.Some?)
  }

  lemma {:induction false} DrainStops(files: seq<Entry>, rounds: seq<Round>)
    ensures Stops(Drained(files, rounds), files, rounds)
    decreases |rounds|
  {
    if rounds != [] && !rounds[0].expired {
      var live := WithoutCorruptHead(files);
      EventsOfLive(files);
      if live != [] && Settles(rounds[0]) {
        var d, rest := Drained(files, rounds), Drained(live[1..], rounds[1..]);
        DrainStops(live[1..], rounds[1..]);
        var n := d.Settled();
        assert n == rest.Settled() + 1 && |d.sent| == |rest.sent| + 1 && d.files == rest.files;
        assert rounds[..n][1..] == rounds[1..][..n - 1];
      }
    }
  }

  /** Oldest first, each once, nothing unaccounted for: what is left is a suffix
      of the spool, the events settled are exactly those in front of it, and they
      are as many as the rounds before the first stopping one allow. */
  lemma DrainMeaning(files: seq<Entry>, rounds: seq<Round>)
    ensures Drained(files, rounds).Accounts(files)
    ensures Stops(Drained(files, rounds), files, rounds)
  {
    DrainCounts(files, rounds);
    DrainSends(files, rounds);
    DrainStops(files, rounds);
  }

  /** Enough settling rounds empty the spool, sending every event. */
  lemma {:induction false} DrainComplete(files: seq<Entry>, rounds: seq<Round>)
    requires |rounds| > |files| && forall r | r in rounds :: Settles(r)
    decreases |rounds|
    ensures Drained(files, rounds).files == [] && Drained(files, rounds).sent == Events(files)
  {
    var live := WithoutCorruptHead(files);
    EventsOfLive(files);
    assert Settles(rounds[0]);
    if live != [] { DrainComplete(live[1..], rounds[1..]); }
  }

  // ---- The spool object --------------------------------------------------

  class Directory {
    const maxBytes: nat
    var files: seq<Entry>
    var sequence: nat

    ghost predicate Valid()
      reads this
    {
      Ordered(files)
    }

    /** Opens a directory as it is found; the process has drawn `sequence` numbers. */
    constructor (maxBytes: nat, listing: seq<Entry>, sequence: nat)
      requires Ordered(listing)
      ensures Valid() && files == listing && this.maxBytes == maxBytes && this.sequence == sequence
    {
      this.maxBytes := maxBytes;
      files, this.sequence := listing, sequence;
    }

    method Store(event: Event, timestamp: nat, uuid: string) returns (r: Result<(), SpoolError>)
      requires Valid() && !Holds(files, Name(timestamp, sequence, uuid))
      modifies this
      ensures Valid()
      ensures match Stored(old(files), maxBytes, event, Name(timestamp, old(sequence), uuid))
              case Ok(stored) => r.Ok? && files == stored && sequence == old(sequence) + 1
              case Err(e) => r == Err(e) && files == old(files) && sequence == old(sequence)
    {
      if maxBytes == 0 { return Err(Disabled); }
      if |event.body| > maxBytes { return Err(EventTooLarge); }
      var name := Name(timestamp, sequence, uuid);
      sequence := sequence + 1;
      var entry := Entry(name, Some(event), |event.body|);
      PlacedOrdered(files, entry);
      var i := Position(files, name);
      files := files[..i] + [entry] + files[i..];
      EnforceBound();
      return Ok(());
    }

    /** Deletes oldest files until the running total fits. */
    method EnforceBound()
      requires Valid()
      modifies `files
      ensures Valid() && files == Bounded(old(files), maxBytes)
    {
      var sized := files;
      var total: nat := Sum(sized);
      RunningTotal(sized, maxBytes);
      ghost var left := Bounded(sized, maxBytes);
      for i := 0 to |sized|
        invariant Valid() && files == sized[i..] && Loop(files, total, maxBytes) == left
      {
        if total <= maxBytes {
          return;
        }
        assert sized[i] == files[0] && sized[i + 1..] == files[1..];
        OrderedRest(files);
        files := files[1..];
        total := SaturatingSub(total, sized[i].size);
      }
    }

    method Oldest() returns (r: Option<(string, Event)>)
      requires Valid()
      modifies `files
      ensures Valid() && files == WithoutCorruptHead(old(files))
      ensures r == if files == [] then None else Some((files[0].name, files[0].content.value))
    {
      while files != []
        invariant Valid() && WithoutCorruptHead(files) == WithoutCorruptHead(old(files))
        decreases |files|
      {
        if files[0].content.Some? {
          return Some((files[0].name, files[0].content.value));
        }
        files := files[1..];
      }
      return None;
    }

    /** Deletes the file of this name, if it is there. */
    method Remove(name: string)
      requires Valid()
      modifies `files
      ensures Valid() && files == Without(old(files), name)
    {
      WithoutMeaning(files, name);
      files := Without(files, name);
    }

    method Len() returns (n: nat)
      ensures n == |files|
    {
      n := |files|;
    }

    method DrainSpool(rounds: seq<Round>) returns (report: Report)
      requires Valid()
      modifies `files
      ensures Valid() && files == Drained(old(files), rounds).files
      ensures report == Report(Drained(old(files), rounds).delivered, |files|)
    {
      var delivered := 0;
      var k := 0;
      assert rounds[0..] == rounds;
      while true
        invariant 0 <= k <= |rounds| && Valid()
        invariant Drained(old(files), rounds).files == Drained(files, rounds[k..]).files
        invariant Drained(old(files), rounds).delivered == delivered + Drained(files, rounds[k..]).delivered
        decreases |rounds| - k
      {
        if k == |rounds| || rounds[k].expired {
          return Report(delivered, |files|);
        }
        assert rounds[k..][0] == rounds[k] && rounds[k..][1..] == rounds[k + 1..];
        var oldest := Oldest();
        if oldest.None? {
          return Report(delivered, 0);
        }
        match Classify(rounds[k].response) {
          case Delivered =>
            Remove(oldest.value.0);
            delivered := delivered + 1;
          case PermanentFailure =>
            Remove(oldest.value.0);
          case Retry =>
            var remaining := Len();
            return Report(delivered, remaining);
        }
        k := k + 1;
      }
    }
  }

  method Sum(files: seq<Entry>) returns (total: nat)
    ensures total == Total(files)
  {
    total := 0;
    for i := |files| downto 0
      invariant total == Total(files[i..])
    {
      assert files[i..][1..] == files[i + 1..];
      total := total + files[i].size;
    }
    assert files[0..] == files;
  }
}
