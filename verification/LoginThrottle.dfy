/** Login lockout (src/auth.rs, src/handlers.rs): the throttle row of one
    identity over whole runs of login attempts. */
module LoginThrottle {
  import opened Text

  const LOGIN_FAILURE_LIMIT := 5
  const LOGIN_LOCK_SECONDS := 900

  datatype Row = Row(failures: int, lockedUntil: Option<int>)
  type Table = map<string, Row>

  datatype Credentials = UnknownEmail | WrongPassword | Correct
  datatype Outcome = Forbidden | Unauthorized | LoggedIn

  /** `Login` is one whole request. `Overlapped` is a failure recorded by a
      request whose own lock check ran before other attempts set the lock. */
  datatype Attempt =
    | Login(email: string, csrfValid: bool, credentials: Credentials, now: int)
    | Overlapped(email: string, now: int)

  function AsciiLower(s: string): string {
    if s == [] then []
    else [if 'A' <= s[0] <= 'Z' then s[0] - 'A' + 'a' else s[0]] + AsciiLower(s[1..])
  }

  /** The preimage of the identity hash that keys the table. */
  function Identity(email: string): string {
    AsciiLower(Trim(email))
  }

  predicate LockedAt(rows: Table, id: string, now: int) {
    id in rows && rows[id].lockedUntil.Some? && rows[id].lockedUntil.value > now
  }

  /** The upsert of `login_failure`. */
  function Upserted(rows: Table, id: string, now: int): Row {
    if id !in rows then Row(1, None)
    else
      var row := rows[id];
      Row(
        match row.lockedUntil
        case Some(until) => if until > now then row.failures else 1
        case None => row.failures + 1,
        match row.lockedUntil
        case Some(until) => if until > now then Some(until) else None
        case None => if row.failures + 1 >= LOGIN_FAILURE_LIMIT then Some(now + LOGIN_LOCK_SECONDS) else None)
  }

  predicate Fails(rows: Table, a: Attempt) {
    a.Overlapped? || (a.csrfValid && !LockedAt(rows, Identity(a.email), a.now) && !a.credentials.Correct?)
  }

  predicate Succeeds(rows: Table, a: Attempt) {
    a.Login? && a.csrfValid && !LockedAt(rows, Identity(a.email), a.now) && a.credentials.Correct?
  }

  function After(rows: Table, a: Attempt): Table {
    var id := Identity(a.email);
    if Fails(rows, a) then rows[id := Upserted(rows, id, a.now)]
    else if Succeeds(rows, a) then rows - {id}
    else rows
  }

  class Throttle {
    var rows: Table

    constructor ()
      ensures rows == map[]
    {
      rows := map[];
    }

    method LoginLocked(email: string, now: int) returns (locked: bool)
      ensures locked <==> LockedAt(rows, Identity(email), now)
    {
      var id := Identity(email);
      locked := id in rows && rows[id].lockedUntil.Some? && rows[id].lockedUntil.value > now;
    }

    method LoginFailure(email: string, now: int)
      modifies this
      ensures rows == After(old(rows), Overlapped(email, now))
    {
      var id := Identity(email);
      if id !in rows {
        rows := rows[id := Row(1, None)];
      } else {
        var failures, lockedUntil := rows[id].failures + 1, None;
        match rows[id].lockedUntil {
          case Some(until) =>
            if until > now {
              failures, lockedUntil := rows[id].failures, Some(until);
            } else {
              failures := 1;
            }
          case None =>
            if failures >= LOGIN_FAILURE_LIMIT { lockedUntil := Some(now + LOGIN_LOCK_SECONDS); }
        }
        rows := rows[id := Row(failures, lockedUntil)];
      }
    }

    method LoginSuccess(email: string)
      modifies this
      ensures rows == old(rows) - {Identity(email)}
    {
      rows := rows - {Identity(email)};
    }

    method LogIn(email: string, csrfValid: bool, credentials: Credentials, now: int) returns (outcome: Outcome)
      modifies this
      ensures rows == After(old(rows), Login(email, csrfValid, credentials, now))
      ensures outcome == if !csrfValid then Forbidden
                         else if credentials.Correct? && !LockedAt(old(rows), Identity(email), now) then LoggedIn
                         else Unauthorized
    {
      if !csrfValid { return Forbidden; }
      var locked := LoginLocked(email, now);
      if locked { return Unauthorized; }
      if !credentials.Correct? {
        LoginFailure(email, now);
        return Unauthorized;
      }
      LoginSuccess(email);
      return LoggedIn;
    }
  }

  // ---- Identities --------------------------------------------------------

  lemma {:induction false} AsciiLowerMeaning(s: string)
    ensures |AsciiLower(s)| == |s|
    ensures forall i | 0 <= i < |s| ::
              AsciiLower(s)[i] as int == s[i] as int + (if 65 <= s[i] as int <= 90 then 32 else 0)
  {
    if s != [] { AsciiLowerMeaning(s[1..]); }
  }

  ghost predicate NoBlankEnds(s: string) {
    s != [] && !IsWhitespace(s[0]) && !IsWhitespace(s[|s| - 1])
  }

  lemma LowerKeepsBlanks(s: string, i: nat)
    requires i < |s|
    ensures |AsciiLower(s)| == |s| && (IsWhitespace(AsciiLower(s)[i]) <==> IsWhitespace(s[i]))
  {
    AsciiLowerMeaning(s);
  }

  lemma LowerKeepsEnds(s: string)
    ensures NoBlankEnds(AsciiLower(s)) <==> NoBlankEnds(s)
  {
    AsciiLowerMeaning(s);
    if s != [] {
      LowerKeepsBlanks(s, 0);
      LowerKeepsBlanks(s, |s| - 1);
    }
  }

  lemma Padded(pre: string, email: string, post: string)
    requires Blank(pre) && Blank(post) && NoBlankEnds(email)
    ensures Trim(pre + email + post) == email
  {
    TrimExactly(pre + email + post, email);
  }

  /** Padding and the case of ASCII letters do not make another identity. */
  lemma SameIdentity(email: string, pre: string, written: string, post: string)
    requires Blank(pre) && Blank(post) && NoBlankEnds(email) && AsciiLower(written) == AsciiLower(email)
    ensures Identity(pre + written + post) == Identity(email) == AsciiLower(email)
  {
    LowerKeepsEnds(written);
    LowerKeepsEnds(email);
    Padded(pre, written, post);
    Padded([], email, []);
    assert [] + email + [] == email;
  }

  // ---- Runs --------------------------------------------------------------

  function Rows(start: Table, run: seq<Attempt>): Table {
    if run == [] then start else After(Rows(start, run[..|run| - 1]), run[|run| - 1])
  }

  /** Locked, said on the times of the failures since the last success. */
  predicate LockedBy(times: seq<int>, now: int) {
    times != [] && |times| % LOGIN_FAILURE_LIMIT == 0 && now < times[|times| - 1] + LOGIN_LOCK_SECONDS
  }

  /** The times that count after one more attempt of the identity. */
  function Recording(times: seq<int>, a: Attempt): seq<int> {
    if LockedBy(times, a.now) then times
    else match a
         case Overlapped(_, now) => times + [now]
         case Login(_, csrfValid, credentials, now) =>
           if !csrfValid then times
           else if credentials.Correct? then []
           else times + [now]
  }

  /** Times of one identity's failures since its last success. */
  function Recorded(run: seq<Attempt>, id: string): seq<int> {
    if run == [] then []
    else
      var times, a := Recorded(run[..|run| - 1], id), run[|run| - 1];
      if Identity(a.email) == id then Recording(times, a) else times
  }

  ghost predicate Monotone(run: seq<Attempt>) {
    forall i, j | 0 <= i < j < |run| :: run[i].now <= run[j].now
  }

  /** Failures come in groups of five with a lock between groups. */
  ghost predicate Grouped(times: seq<int>) {
    && (forall i, j | 0 <= i < j < |times| :: times[i] <= times[j])
    && (forall i | 0 < i < |times| && i % LOGIN_FAILURE_LIMIT == 0 ::
          times[i] >= times[i - 1] + LOGIN_LOCK_SECONDS)
  }

  ghost predicate RowMatches(rows: Table, id: string, times: seq<int>) {
    var n := |times|;
    && (id in rows <==> n > 0)
    && (n > 0 ==>
          && rows[id].failures == (n - 1) % LOGIN_FAILURE_LIMIT + 1
          && rows[id].lockedUntil ==
             if n % LOGIN_FAILURE_LIMIT == 0 then Some(times[n - 1] + LOGIN_LOCK_SECONDS) else None)
  }

  lemma LockedAsRecorded(rows: Table, id: string, times: seq<int>, now: int)
    requires RowMatches(rows, id, times)
    ensures LockedAt(rows, id, now) <==> LockedBy(times, now)
  {
  }

  lemma FailureRecorded(rows: Table, id: string, times: seq<int>, now: int)
    requires RowMatches(rows, id, times) && !LockedAt(rows, id, now)
    ensures RowMatches(rows[id := Upserted(rows, id, now)], id, times + [now])
  {
    var n := |times|;
    if n > 0 {
      if n % LOGIN_FAILURE_LIMIT == 0 {
        assert (n - 1) % LOGIN_FAILURE_LIMIT == 4 && n % 5 == 0;
      } else {
        assert (n - 1) % 5 + 1 == n % 5;
        assert (n + 1) % 5 == 0 <==> n % 5 == 4;
      }
    }
  }

  lemma RowMatchesStep(rows: Table, a: Attempt, id: string, times: seq<int>)
    requires RowMatches(rows, id, times)
    ensures RowMatches(After(rows, a), id, if Identity(a.email) == id then Recording(times, a) else times)
  {
    if Identity(a.email) == id {
      LockedAsRecorded(rows, id, times, a.now);
      if !LockedAt(rows, id, a.now) { FailureRecorded(rows, id, times, a.now); }
    }
  }

  ghost predicate Past(times: seq<int>, now: int) {
    forall i | 0 <= i < |times| :: times[i] <= now
  }

  lemma RecordingGrouped(times: seq<int>, a: Attempt)
    requires Grouped(times) && Past(times, a.now)
    ensures Grouped(Recording(times, a)) && Past(Recording(times, a), a.now)
  {
  }

  /** After every run the row is what the failures since the identity's last success
      make it, and these come in groups of five. */
  lemma {:induction false} RunInvariant(start: Table, run: seq<Attempt>, id: string)
    requires id !in start && Monotone(run)
    ensures RowMatches(Rows(start, run), id, Recorded(run, id)) && Grouped(Recorded(run, id))
    ensures if run == [] then Recorded(run, id) == [] else Past(Recorded(run, id), run[|run| - 1].now)
  {
    if run != [] {
      var before, a := run[..|run| - 1], run[|run| - 1];
      RunInvariant(start, before, id);
      RowMatchesStep(Rows(start, before), a, id, Recorded(before, id));
      assert before != [] ==> before[|before| - 1] == run[|before| - 1];
      assert Past(Recorded(before, id), a.now);
      RecordingGrouped(Recorded(before, id), a);
    }
  }

  /** The lock holds exactly during the 900 seconds after every fifth recorded
      failure; the counter restarts at one behind it. */
  lemma LockedExactlyAfterFifth(start: Table, run: seq<Attempt>, id: string, now: int)
    requires id !in start && Monotone(run)
    ensures var times, rows := Recorded(run, id), Rows(start, run);
            && (LockedAt(rows, id, now) <==> times != [] && |times| % 5 == 0 && now < times[|times| - 1] + 900)
            && (id in rows <==> times != [])
            && (times != [] ==> rows[id].failures == (|times| - 1) % 5 + 1)
  {
    RunInvariant(start, run, id);
    LockedAsRecorded(Rows(start, run), id, Recorded(run, id), now);
    MatchedRow(Rows(start, run), id, Recorded(run, id));
    LockedFor(Recorded(run, id), now);
  }

  lemma MatchedRow(rows: Table, id: string, times: seq<int>)
    requires RowMatches(rows, id, times)
    ensures id in rows <==> times != []
    ensures times != [] ==> rows[id].failures == (|times| - 1) % 5 + 1
  {
  }

  lemma LockedFor(times: seq<int>, now: int)
    ensures LockedBy(times, now) <==> times != [] && |times| % 5 == 0 && now < times[|times| - 1] + 900
  {
  }

  /** A success outside a lock forgets the failures: the next one counts as the
      first. */
  lemma SuccessForgets(rows: Table, email: string, now: int, later: int, wrong: Credentials)
    requires !LockedAt(rows, Identity(email), now) && !wrong.Correct?
    ensures var id, after := Identity(email), After(rows, Login(email, true, Correct, now));
            && after == rows - {id}
            && After(after, Login(email, true, wrong, later)) == after[id := Row(1, None)]
  {
    var after := After(rows, Login(email, true, Correct, now));
    assert !LockedAt(after, Identity(email), later);
  }

  /** While a lock is active, nothing a failing attempt does changes the row. */
  lemma LockNeverExtended(rows: Table, a: Attempt)
    requires LockedAt(rows, Identity(a.email), a.now)
    ensures After(rows, a) == rows
  {
  }

  lemma {:induction false} GroupsApart(times: seq<int>, i: nat, k: nat)
    requires Grouped(times) && i + LOGIN_FAILURE_LIMIT * k < |times|
    ensures times[i + LOGIN_FAILURE_LIMIT * k] >= times[i] + LOGIN_LOCK_SECONDS * k
  {
    if k > 0 {
      GroupsApart(times, i, k - 1);
      var m := i + 5 * (k - 1);
      var boundary := m + (5 - m % 5);
      assert boundary % 5 == 0 && m < boundary <= m + 5;
      assert times[boundary] >= times[boundary - 1] + 900 && times[boundary - 1] >= times[m];
      assert times[m + 5] >= times[boundary];
    }
  }

  lemma SpanArithmetic(span: int, steps: nat, k: nat)
    requires k == steps / 5 && span >= 900 * k
    ensures steps + 1 <= 5 * (span / 900 + 1)
  {
  }

  /** The failures from the i-th to the j-th fit the bound for their time span. */
  ghost predicate WithinSpanBound(times: seq<int>, i: nat, j: nat)
    requires i <= j < |times|
  {
    times[i] <= times[j] && j - i + 1 <= LOGIN_FAILURE_LIMIT * ((times[j] - times[i]) / LOGIN_LOCK_SECONDS + 1)
  }

  lemma SpanOfGrouped(times: seq<int>, i: nat, j: nat)
    requires Grouped(times) && i <= j < |times|
    ensures WithinSpanBound(times, i, j)
  {
    var k := (j - i) / 5;
    assert i + 5 * k <= j;
    GroupsApart(times, i, k);
    assert times[i + 5 * k] <= times[j];
    SpanArithmetic(times[j] - times[i], j - i, k);
  }

  /** A span of T seconds holds at most 5 * (T / 900 + 1) failures of one identity
      since its last success. */
  lemma FailuresInSpan(start: Table, run: seq<Attempt>, id: string, i: nat, j: nat)
    requires id !in start && Monotone(run) && i <= j < |Recorded(run, id)|
    ensures WithinSpanBound(Recorded(run, id), i, j)
  {
    RunInvariant(start, run, id);
    SpanOfGrouped(Recorded(run, id), i, j);
  }
}
