/** The notification outbox (src/outbox.rs): claiming with a lease, delivering,
    failing with backoff, and crashes at any point. The clock is the database's,
    taken to be monotone: each step says how much later it happens. */
module Outbox {
  import opened Text

  const LEASE_SECONDS := 60
  const LONGEST_DELAY := 86400

  datatype Row = Row(attempts: nat, availableAt: int, lockedAt: Option<int>, deliveredAt: Option<int>)

  datatype Worker = Idle | Delivering(id: int, attempts: nat)

  /** What became of a claimed delivery; `Lost` is a crash, or a result that
      could not be written back. */
  datatype Outcome = Success | Failure | Lost

  /** One entry in a row's life. */
  datatype Moment = Claimed(at: int, attempt: nat) | Failed(at: int, attempt: nat) | Delivered(at: int)

  datatype State = State(rows: map<int, Row>, nextId: int, worker: Worker, clock: int, lives: map<int, seq<Moment>>)

  datatype Action =
    | Enqueue(elapsed: nat)
    | Discard(id: int)
    | Claim(elapsed: nat)
    | Finish(elapsed: nat, outcome: Outcome)

  // ---- Backoff arithmetic ------------------------------------------------

  function Pow2(n: nat): nat {
    if n == 0 then 1 else 2 * Pow2(n - 1)
  }

  function RetryDelay(attempts: int): int {
    if attempts >= 12 then LONGEST_DELAY
    else
      var shift := if attempts < 0 then 0 else attempts;
      var delay := 5 * Pow2(shift);
      if delay < 3600 then delay else 3600
  }

  lemma {:induction false} Pow2Monotone(a: nat, b: nat)
    requires a <= b
    ensures 1 <= Pow2(a) <= Pow2(b)
  {
    if b > 0 { Pow2Monotone(if a == b then a - 1 else a, b - 1); }
  }

  /** Delays never shrink, and stay far inside the 64-bit range, intermediate
      product included. */
  lemma RetryDelayMonotone(a: int, b: int)
    requires a <= b
    ensures 5 <= RetryDelay(a) <= RetryDelay(b) <= LONGEST_DELAY
    ensures 0 <= a < 12 ==> 5 * Pow2(a) <= 10240
  {
    var p, q := if a < 0 then 0 else a, if b < 0 then 0 else b;
    Pow2Monotone(p, q);
    if 0 <= a < 12 {
      Pow2Monotone(a, 11);
      assert Pow2(11) == 2048;
    }
  }

  /** Five seconds, doubled with each attempt up to an hour, and a day from the
      twelfth on. */
  lemma RetryDelayExactly(attempts: int)
    ensures attempts <= 0 ==> RetryDelay(attempts) == 5
    ensures 0 < attempts <= 9 ==> RetryDelay(attempts) == 2 * RetryDelay(attempts - 1)
    ensures 10 <= attempts <= 11 ==> RetryDelay(attempts) == 3600
    ensures attempts >= 12 ==> RetryDelay(attempts) == 86400
  {
    assert Pow2(0) == 1 && Pow2(9) == 512 && Pow2(10) == 1024 && Pow2(11) == 2048;
    if 0 < attempts <= 9 { Pow2Monotone(attempts, 9); }
  }

  /** Seconds of backoff before the n-th claim when all earlier ones failed. */
  function BackoffBefore(n: nat): int {
    if n <= 1 then 0 else BackoffBefore(n - 1) + RetryDelay(n - 1)
  }

  lemma BackoffOfTwelve()
    ensures BackoffBefore(12) == 12310
  {
  }

  lemma {:induction false} BackoffClosedForm(n: nat)
    requires n >= 12
    ensures BackoffBefore(n) == 12310 + 86400 * (n - 12)
  {
    if n == 12 { BackoffOfTwelve(); } else { BackoffClosedForm(n - 1); }
  }

  // ---- Steps -------------------------------------------------------------

  predicate Eligible(row: Row, now: int) {
    && row.deliveredAt.None? && row.availableAt <= now
    && (row.lockedAt.None? || row.lockedAt.value < now - LEASE_SECONDS)
  }

  predicate IsNext(rows: map<int, Row>, now: int, id: int) {
    id in rows && Eligible(rows[id], now) && forall other | other in rows && Eligible(rows[other], now) :: id <= other
  }

  lemma Inhabited(ids: set<int>)
    ensures ids == {} || exists id :: id in ids
  {
    assert (forall id :: id !in ids) ==> ids == {};
  }

  lemma {:induction false} LeastOf(ids: set<int>) returns (id: int)
    requires ids != {}
    ensures id in ids && forall other | other in ids :: id <= other
  {
    Inhabited(ids);
    var x :| x in ids;
    if ids == {x} {
      id := x;
    } else {
      var least := LeastOf(ids - {x});
      id := if x < least then x else least;
      forall other | other in ids ensures id <= other {
        assert other == x || other in ids - {x};
      }
    }
  }

  lemma NextOrNone(rows: map<int, Row>, now: int)
    ensures (exists id :: id in rows && Eligible(rows[id], now)) ==> exists id :: IsNext(rows, now, id)
    ensures forall a, b | IsNext(rows, now, a) && IsNext(rows, now, b) :: a == b
  {
    var ids := set id | id in rows && Eligible(rows[id], now);
    if i :| i in rows && Eligible(rows[i], now) {
      assert i in ids;
      var id := LeastOf(ids);
      forall other | other in rows && Eligible(rows[other], now) ensures id <= other {
        assert other in ids;
      }
      assert IsNext(rows, now, id);
    }
  }

  ghost function Next(rows: map<int, Row>, now: int): Option<int> {
    if exists id :: IsNext(rows, now, id) then
      var id :| IsNext(rows, now, id);
      Some(id)
    else None
  }

  function LifeOf(lives: map<int, seq<Moment>>, id: int): seq<Moment> {
    if id in lives then lives[id] else []
  }

  function Recorded(lives: map<int, seq<Moment>>, id: int, m: Moment): map<int, seq<Moment>> {
    lives[id := LifeOf(lives, id) + [m]]
  }

  ghost function Step(s: State, a: Action): State {
    match a
    case Enqueue(elapsed) =>
      var now := s.clock + elapsed;
      s.(rows := s.rows[s.nextId := Row(0, now, None, None)], nextId := s.nextId + 1, clock := now)
    case Discard(id) => s.(rows := s.rows - {id})
    case Claim(elapsed) =>
      if !s.worker.Idle? then s
      else
        var now := s.clock + elapsed;
        (match Next(s.rows, now)
         case None => s.(clock := now)
         case Some(id) =>
           var row := s.rows[id].(attempts := s.rows[id].attempts + 1, lockedAt := Some(now));
           State(s.rows[id := row], s.nextId, Delivering(id, row.attempts), now,
                 Recorded(s.lives, id, Claimed(now, row.attempts))))
    case Finish(elapsed, outcome) =>
      if s.worker.Idle? then s
      else
        var now, id, attempts := s.clock + elapsed, s.worker.id, s.worker.attempts;
        if id !in s.rows || outcome.Lost? then s.(worker := Idle, clock := now)
        else if outcome.Success? then
          State(s.rows[id := s.rows[id].(deliveredAt := Some(now), lockedAt := None)], s.nextId, Idle, now,
                Recorded(s.lives, id, Delivered(now)))
        else
          State(s.rows[id := s.rows[id].(lockedAt := None, availableAt := now + RetryDelay(attempts))], s.nextId,
                Idle, now, Recorded(s.lives, id, Failed(now, attempts)))
  }

  ghost function After(s: State, run: seq<Action>): State {
    if run == [] then s else Step(After(s, run[..|run| - 1]), run[|run| - 1])
  }

  const EMPTY := State(map[], 1, Idle, 0, map[])

  /** One turn of the worker: when it claims, when the claimed delivery ends. */
  datatype Turn = Turn(claimAfter: nat, finishAfter: nat, outcome: Outcome)

  function Actions(turns: seq<Turn>): seq<Action> {
    if turns == [] then []
    else
      var t := turns[|turns| - 1];
      Actions(turns[..|turns| - 1]) + [Claim(t.claimAfter), Finish(t.finishAfter, t.outcome)]
  }

  class Server {
    var rows: map<int, Row>
    var nextId: int
    var worker: Worker
    ghost var clock: int
    ghost var lives: map<int, seq<Moment>>

    ghost function View(): State
      reads this
    {
      State(rows, nextId, worker, clock, lives)
    }

    constructor ()
      ensures View() == EMPTY
    {
      rows, nextId, worker := map[], 1, Idle;
      clock, lives := 0, map[];
    }

    /** Claims the smallest eligible row; `now` is the database clock. */
    method ClaimNext(now: int) returns (claimed: Option<(int, nat)>)
      requires worker.Idle? && clock <= now
      modifies this
      ensures View() == Step(old(View()), Claim(now - old(clock)))
      ensures claimed.None? <==> forall id | id in old(rows) :: !Eligible(old(rows)[id], now)
      ensures claimed.Some? ==> IsNext(old(rows), now, claimed.value.0)
      ensures worker == if claimed.Some? then Delivering(claimed.value.0, claimed.value.1) else Idle
    {
      NextOrNone(rows, now);
      var candidates := set id | id in rows && Eligible(rows[id], now);
      clock := now;
      if candidates == {} {
        assert forall id | id in rows :: Eligible(rows[id], now) ==> id in candidates;
        return None;
      }
      Inhabited(candidates);
      assert exists id :: IsNext(rows, now, id);
      var id :| id in candidates && IsNext(rows, now, id);
      var row := rows[id].(attempts := rows[id].attempts + 1, lockedAt := Some(now));
      rows := rows[id := row];
      worker := Delivering(id, row.attempts);
      lives := Recorded(lives, id, Claimed(now, row.attempts));
      return Some((id, row.attempts));
    }

    /** Ends the claimed delivery: marks it delivered, or reschedules it. */
    method Deliver(now: int, outcome: Outcome)
      requires worker.Delivering? && clock <= now
      modifies this
      ensures View() == Step(old(View()), Finish(now - old(clock), outcome))
    {
      var id, attempts := worker.id, worker.attempts;
      clock := now;
      worker := Idle;
      match outcome
      case Success =>
        if id in rows {
          rows := rows[id := rows[id].(deliveredAt := Some(now), lockedAt := None)];
          lives := Recorded(lives, id, Delivered(now));
        }
      case Failure =>
        Fail(id, attempts, now);
      case Lost =>
    }

    method Fail(id: int, attempts: nat, now: int)
      modifies `rows, `lives
      ensures rows == if id in old(rows)
                      then old(rows)[id := old(rows)[id].(lockedAt := None, availableAt := now + RetryDelay(attempts))]
                      else old(rows)
      ensures lives == if id in old(rows) then Recorded(old(lives), id, Failed(now, attempts)) else old(lives)
    {
      if id in rows {
        rows := rows[id := rows[id].(lockedAt := None, availableAt := now + RetryDelay(attempts))];
        lives := Recorded(lives, id, Failed(now, attempts));
      }
    }

    method TakeTurn(turn: Turn, start: int) returns (now: int)
      requires worker.Idle? && clock == start
      modifies this
      ensures View() == Step(Step(old(View()), Claim(turn.claimAfter)), Finish(turn.finishAfter, turn.outcome))
      ensures worker.Idle? && clock == now
    {
      now := start + turn.claimAfter;
      var claimed := ClaimNext(now);
      if claimed.Some? {
        now := now + turn.finishAfter;
        Deliver(now, turn.outcome);
      }
    }

    /** The worker loop until shutdown. */
    method Run(turns: seq<Turn>, start: int)
      requires worker.Idle? && clock == start
      modifies this
      ensures View() == After(old(View()), Actions(turns))
    {
      var now := start;
      for k := 0 to |turns|
        invariant worker.Idle? && clock == now
        invariant View() == After(old(View()), Actions(turns[..k]))
      {
        assert turns[..k + 1][..k] == turns[..k];
        AfterTwo(old(View()), Actions(turns[..k]),
                 Claim(turns[k].claimAfter), Finish(turns[k].finishAfter, turns[k].outcome));
        now := TakeTurn(turns[k], now);
      }
      assert turns[..|turns|] == turns;
    }
  }

  lemma AfterTwo(s: State, run: seq<Action>, a: Action, b: Action)
    ensures After(s, run + [a, b]) == Step(Step(After(s, run), a), b)
  {
    assert (run + [a, b])[..|run| + 1] == run + [a];
    assert (run + [a])[..|run|] == run;
  }

  // ---- Lives -------------------------------------------------------------

  /** What may follow what in the life of one row. */
  ghost predicate Follows(a: Moment, b: Moment) {
    match a
    case Claimed(at, attempt) =>
      || (b.Failed? && b.attempt == attempt && at <= b.at)
      || (b.Delivered? && at <= b.at)
      || (b.Claimed? && b.attempt == attempt + 1 && at + LEASE_SECONDS < b.at)
    case Failed(at, attempt) => b.Claimed? && b.attempt == attempt + 1 && at + RetryDelay(attempt) <= b.at
    case Delivered(_) => false
  }

  ghost predicate Lawful(life: seq<Moment>) {
    && (life != [] ==> life[0].Claimed? && life[0].attempt == 1)
    && forall i | 0 <= i < |life| - 1 :: Follows(life[i], life[i + 1])
  }

  ghost predicate RowMatches(row: Row, life: seq<Moment>) {
    if life == [] then row.lockedAt.None? && row.deliveredAt.None? && row.attempts == 0
    else
      match life[|life| - 1]
      case Claimed(at, attempt) => row.lockedAt == Some(at) && row.deliveredAt.None? && row.attempts == attempt
      case Failed(at, attempt) =>
        && row.lockedAt.None? && row.deliveredAt.None?
        && row.attempts == attempt && row.availableAt == at + RetryDelay(attempt)
      case Delivered(at) => row.lockedAt.None? && row.deliveredAt == Some(at)
  }

  /** A row agrees with its life so far, and is due within a day. */
  ghost predicate RowValid(row: Row, life: seq<Moment>, clock: int) {
    && RowMatches(row, life)
    && row.availableAt <= clock + LONGEST_DELAY
    && (life != [] ==> life[|life| - 1].at <= clock)
  }

  ghost predicate WorkerValid(s: State) {
    s.worker.Delivering? ==>
      && s.worker.id < s.nextId
      && (s.worker.id in s.rows ==>
            var life := LifeOf(s.lives, s.worker.id);
            life != [] && life[|life| - 1].Claimed? && life[|life| - 1].attempt == s.worker.attempts)
  }

  ghost predicate Valid(s: State) {
    && (forall id | id in s.rows || id in s.lives :: id < s.nextId)
    && (forall id | id in s.lives :: Lawful(s.lives[id]))
    && (forall id | id in s.rows :: RowValid(s.rows[id], LifeOf(s.lives, id), s.clock))
    && WorkerValid(s)
  }

  lemma LawfulSnoc(life: seq<Moment>, m: Moment)
    requires Lawful(life)
    requires if life == [] then m.Claimed? && m.attempt == 1 else Follows(life[|life| - 1], m)
    ensures Lawful(life + [m])
  {
  }

  lemma EnqueueValid(s: State, elapsed: nat)
    requires Valid(s)
    ensures Valid(Step(s, Enqueue(elapsed)))
  {
  }

  lemma DiscardValid(s: State, id: int)
    requires Valid(s)
    ensures Valid(Step(s, Discard(id)))
  {
  }

  /** Time passes, and the worker may give its row up. */
  lemma LaterValid(s: State, elapsed: nat)
    requires Valid(s)
    ensures Valid(s.(clock := s.clock + elapsed)) && Valid(s.(worker := Idle, clock := s.clock + elapsed))
  {
  }

  lemma StepValid(s: State, a: Action)
    requires Valid(s)
    ensures Valid(Step(s, a))
  {
    match a
    case Enqueue(elapsed) => EnqueueValid(s, elapsed);
    case Discard(id) => DiscardValid(s, id);
    case Claim(elapsed) =>
      if s.worker.Idle? && Next(s.rows, s.clock + elapsed).Some? {
        ClaimValid(s, elapsed, Next(s.rows, s.clock + elapsed).value);
      } else {
        LaterValid(s, elapsed);
      }
    case Finish(elapsed, outcome) =>
      if s.worker.Delivering? && s.worker.id in s.rows && !outcome.Lost? {
        FinishValid(s, elapsed, outcome);
      } else {
        LaterValid(s, elapsed);
      }
  }

  /** One row and its life move on together; the others keep theirs. */
  lemma RowMoves(s: State, after: State, id: int, row: Row, m: Moment)
    requires Valid(s) && id in s.rows
    requires after.rows == s.rows[id := row] && after.lives == Recorded(s.lives, id, m)
    requires after.nextId == s.nextId && s.clock <= after.clock
    requires Lawful(LifeOf(s.lives, id) + [m]) && RowValid(row, LifeOf(s.lives, id) + [m], after.clock)
    requires WorkerValid(after)
    ensures Valid(after)
  {
  }

  lemma ClaimValid(s: State, elapsed: nat, id: int)
    requires Valid(s) && s.worker.Idle? && Next(s.rows, s.clock + elapsed) == Some(id)
    ensures Valid(Step(s, Claim(elapsed)))
  {
    var now, life := s.clock + elapsed, LifeOf(s.lives, id);
    assert IsNext(s.rows, now, id);
    assert RowValid(s.rows[id], life, s.clock);
    var m := Claimed(now, s.rows[id].attempts + 1);
    LawfulSnoc(life, m);
    var after := Step(s, Claim(elapsed));
    RowMoves(s, after, id, after.rows[id], m);
  }

  lemma FinishValid(s: State, elapsed: nat, outcome: Outcome)
    requires Valid(s) && s.worker.Delivering? && s.worker.id in s.rows && !outcome.Lost?
    ensures Valid(Step(s, Finish(elapsed, outcome)))
  {
    var now, id := s.clock + elapsed, s.worker.id;
    var life := LifeOf(s.lives, id);
    assert RowValid(s.rows[id], life, s.clock);
    RetryDelayMonotone(s.worker.attempts, s.worker.attempts);
    var m := if outcome.Success? then Delivered(now) else Failed(now, s.worker.attempts);
    LawfulSnoc(life, m);
    var after := Step(s, Finish(elapsed, outcome));
    RowMoves(s, after, id, after.rows[id], m);
  }

  lemma {:induction false} RunValid(run: seq<Action>)
    ensures Valid(After(EMPTY, run))
  {
    if run != [] {
      RunValid(run[..|run| - 1]);
      StepValid(After(EMPTY, run[..|run| - 1]), run[|run| - 1]);
    }
  }

  // ---- Results over every run --------------------------------------------

  ghost function Life(run: seq<Action>, id: int): seq<Moment> {
    LifeOf(After(EMPTY, run).lives, id)
  }

  lemma LifeLawful(run: seq<Action>, id: int)
    ensures Lawful(Life(run, id))
  {
    RunValid(run);
  }

  /** Nothing happens to a row after it is delivered. */
  lemma DeliveredIsFinal(run: seq<Action>, id: int, i: nat)
    requires i < |Life(run, id)| && Life(run, id)[i].Delivered?
    ensures i == |Life(run, id)| - 1
  {
    LifeLawful(run, id);
    var life := Life(run, id);
    assert i == |life| - 1 || Follows(life[i], life[i + 1]);
  }

  lemma {:induction false} LeaseOfLife(life: seq<Moment>, i: nat, j: nat)
    requires Lawful(life) && i < j < |life| && life[i].Claimed? && life[j].Claimed?
    requires forall k | i < k < j :: !life[k].Failed?
    decreases j - i
    ensures life[i].at + LEASE_SECONDS < life[j].at
  {
    assert Follows(life[i], life[i + 1]);
    if j > i + 1 {
      assert Follows(life[i + 1], life[i + 2]);
      LeaseOfLife(life, i + 1, j);
    }
  }

  /** Two claims of one row are separated by a `fail` or by more than a minute. */
  lemma LeaseExclusive(run: seq<Action>, id: int, i: nat, j: nat)
    requires i < j < |Life(run, id)| && Life(run, id)[i].Claimed? && Life(run, id)[j].Claimed?
    ensures || (exists k :: i < k < j && Life(run, id)[k].Failed?)
            || Life(run, id)[i].at + LEASE_SECONDS < Life(run, id)[j].at
  {
    LifeLawful(run, id);
    if forall k | i < k < j :: !Life(run, id)[k].Failed? { LeaseOfLife(Life(run, id), i, j); }
  }

  /** The n-th entry pair of a life in which every attempt so far failed. */
  ghost predicate AllFailedBefore(life: seq<Moment>, n: nat) {
    forall m | 0 <= m < n - 1 :: 2 * m + 1 < |life| && life[2 * m + 1].Failed?
  }

  lemma BackoffOfRetry(life: seq<Moment>, i: nat)
    requires Lawful(life) && i + 2 < |life| && life[i].Claimed? && life[i + 1].Failed?
    ensures life[i + 2].Claimed? && life[i + 2].attempt == life[i].attempt + 1
    ensures life[i].at + RetryDelay(life[i].attempt) <= life[i + 2].at
  {
  }

  lemma {:induction false} BackoffOfLife(life: seq<Moment>, n: nat)
    requires Lawful(life) && n >= 1 && 2 * (n - 1) < |life| && AllFailedBefore(life, n)
    ensures life[2 * (n - 1)].Claimed? && life[2 * (n - 1)].attempt == n
    ensures life[0].at + BackoffBefore(n) <= life[2 * (n - 1)].at
  {
    if n > 1 {
      assert life[2 * (n - 2) + 1].Failed?;
      BackoffOfLife(life, n - 1);
      BackoffOfRetry(life, 2 * (n - 2));
    }
  }

  /** When every earlier attempt failed, the n-th claim waits out the whole
      backoff since the first. */
  lemma CumulativeBackoff(run: seq<Action>, id: int, n: nat)
    requires n >= 1 && 2 * (n - 1) < |Life(run, id)| && AllFailedBefore(Life(run, id), n)
    ensures Life(run, id)[2 * (n - 1)] == Claimed(Life(run, id)[2 * (n - 1)].at, n)
    ensures Life(run, id)[0].at + BackoffBefore(n) <= Life(run, id)[2 * (n - 1)].at
    ensures n >= 12 ==> Life(run, id)[0].at + 12310 + 86400 * (n - 12) <= Life(run, id)[2 * (n - 1)].at
  {
    LifeLawful(run, id);
    BackoffOfLife(Life(run, id), n);
    if n >= 12 { BackoffClosedForm(n); }
  }

  /** An undelivered row is claimable exactly from the later of its due time and
      the end of its lease, and never later than a day after the last step. */
  lemma NeverStranded(run: seq<Action>, id: int, now: int)
    requires id in After(EMPTY, run).rows && After(EMPTY, run).rows[id].deliveredAt.None?
    ensures var row := After(EMPTY, run).rows[id];
            Eligible(row, now) <==>
              row.availableAt <= now && (row.lockedAt.Some? ==> row.lockedAt.value + LEASE_SECONDS + 1 <= now)
    ensures After(EMPTY, run).clock + LONGEST_DELAY <= now ==> Eligible(After(EMPTY, run).rows[id], now)
  {
    RunValid(run);
    var s := After(EMPTY, run);
    assert RowValid(s.rows[id], LifeOf(s.lives, id), s.clock);
  }

  // ---- What the next claim sees ------------------------------------------

  /** Undelivered, due, and not locked within the last minute. */
  predicate Due(row: Row, now: int) {
    && row.deliveredAt.None? && row.availableAt <= now
    && (row.lockedAt.Some? ==> row.lockedAt.value + 60 < now)
  }

  ghost predicate OthersKept(rows: map<int, Row>, after: map<int, Row>, id: int) {
    after.Keys == rows.Keys + {id} && forall other | other in rows && other != id :: after[other] == rows[other]
  }

  /** A new row is due at once, and touches no other. */
  lemma EnqueueMeaning(run: seq<Action>, elapsed: nat)
    ensures var s := After(EMPTY, run);
            var u := Step(s, Enqueue(elapsed));
            && s.nextId !in s.rows && OthersKept(s.rows, u.rows, s.nextId) && u.worker == s.worker
            && u.rows[s.nextId].attempts == 0 && forall t :: Due(u.rows[s.nextId], t) <==> s.clock + elapsed <= t
  {
    RunValid(run);
  }

  /** A claim takes the smallest due row, if there is one: it counts the attempt and
      keeps others off for a minute. */
  lemma ClaimMeaning(run: seq<Action>, elapsed: nat)
    requires After(EMPTY, run).worker.Idle?
    ensures var s := After(EMPTY, run);
            var now, u := s.clock + elapsed, Step(s, Claim(elapsed));
            if u.worker.Idle? then u.rows == s.rows && forall id | id in s.rows :: !Due(s.rows[id], now)
            else ClaimedRow(s.rows, u.rows, u.worker.id, u.worker.attempts, now)
  {
    var s := After(EMPTY, run);
    var now := s.clock + elapsed;
    NextOrNone(s.rows, now);
    forall id | id in s.rows ensures Eligible(s.rows[id], now) <==> Due(s.rows[id], now) { }
    var u := Step(s, Claim(elapsed));
    if u.worker.Delivering? {
      assert IsNext(s.rows, now, u.worker.id);
    } else {
      assert forall id :: !IsNext(s.rows, now, id);
    }
  }

  ghost predicate ClaimedRow(rows: map<int, Row>, after: map<int, Row>, id: int, attempts: nat, now: int) {
    && id in rows && OthersKept(rows, after, id)
    && Due(rows[id], now) && (forall other | other in rows && Due(rows[other], now) :: id <= other)
    && attempts == rows[id].attempts + 1 == after[id].attempts
    && forall t :: Due(after[id], t) <==> now + 60 < t && rows[id].availableAt <= t
  }

  /** A delivered row is never claimed again, a failed one once its delay is over,
      and one whose result got lost once its lease is. */
  lemma FinishMeaning(run: seq<Action>, elapsed: nat, outcome: Outcome)
    requires After(EMPTY, run).worker.Delivering? && After(EMPTY, run).worker.id in After(EMPTY, run).rows
    ensures var s := After(EMPTY, run);
            var now, id, u := s.clock + elapsed, s.worker.id, Step(s, Finish(elapsed, outcome));
            && OthersKept(s.rows, u.rows, id) && u.worker.Idle?
            && (u.rows[id].deliveredAt.Some? <==> outcome.Success?)
            && (outcome.Failure? ==> forall t :: Due(u.rows[id], t) <==> now + RetryDelay(s.worker.attempts) <= t)
            && (outcome.Lost? ==> u.rows == s.rows)
            && u.rows[id].attempts == s.worker.attempts
  {
    RunValid(run);
    var s := After(EMPTY, run);
    assert RowValid(s.rows[s.worker.id], LifeOf(s.lives, s.worker.id), s.clock);
  }

  // ---- Progress ----------------------------------------------------------

  function Undelivered(rows: map<int, Row>): set<int> {
    set id | id in rows && rows[id].deliveredAt.None?
  }

  /** A patient turn: a day later, and the destination accepts. */
  const PATIENT := Turn(LONGEST_DELAY, 0, Success)

  lemma AllEligible(s: State)
    requires Valid(s)
    ensures forall id | id in Undelivered(s.rows) :: Eligible(s.rows[id], s.clock + LONGEST_DELAY)
  {
    forall id | id in Undelivered(s.rows) ensures Eligible(s.rows[id], s.clock + LONGEST_DELAY) {
      assert RowValid(s.rows[id], LifeOf(s.lives, id), s.clock);
    }
  }

  /** It delivers the oldest undelivered row, and touches no other. */
  lemma PatientTurn(s: State) returns (id: int)
    requires Valid(s) && s.worker.Idle? && Undelivered(s.rows) != {}
    ensures id in Undelivered(s.rows) && forall other | other in Undelivered(s.rows) :: id <= other
    ensures var u := Step(Step(s, Claim(PATIENT.claimAfter)), Finish(PATIENT.finishAfter, PATIENT.outcome));
            && Valid(u) && u.worker.Idle? && Undelivered(u.rows) == Undelivered(s.rows) - {id}
            && u.rows.Keys == s.rows.Keys
            && forall other | other in s.rows && other != id :: u.rows[other] == s.rows[other]
  {
    var now := s.clock + LONGEST_DELAY;
    AllEligible(s);
    NextOrNone(s.rows, now);
    var some := LeastOf(Undelivered(s.rows));
    assert Eligible(s.rows[some], now);
    id := Next(s.rows, now).value;
    assert IsNext(s.rows, now, id);
    StepValid(s, Claim(LONGEST_DELAY));
    StepValid(Step(s, Claim(LONGEST_DELAY)), Finish(0, Success));
  }

  lemma TurnsDeliver(s: State) returns (turns: seq<Turn>)
    requires Valid(s) && s.worker.Idle?
    ensures |turns| == |Undelivered(s.rows)| && forall turn | turn in turns :: turn == PATIENT
    ensures var u := After(s, Actions(turns)); Undelivered(u.rows) == {} && u.rows.Keys == s.rows.Keys
  {
    turns := [];
    var u := s;
    while Undelivered(u.rows) != {}
      invariant Valid(u) && u.worker.Idle? && u == After(s, Actions(turns)) && u.rows.Keys == s.rows.Keys
      invariant |turns| + |Undelivered(u.rows)| == |Undelivered(s.rows)|
      invariant forall turn | turn in turns :: turn == PATIENT
      decreases |Undelivered(u.rows)|
    {
      var id := PatientTurn(u);
      assert (turns + [PATIENT])[..|turns|] == turns;
      AfterTwo(s, Actions(turns), Claim(PATIENT.claimAfter), Finish(PATIENT.finishAfter, PATIENT.outcome));
      turns := turns + [PATIENT];
      u := Step(Step(u, Claim(PATIENT.claimAfter)), Finish(PATIENT.finishAfter, PATIENT.outcome));
    }
  }

  function Patiently(n: nat): seq<Turn> {
    seq(n, _ => PATIENT)
  }

  /** Every row gets delivered: after any run, crashes included, a restarted
      worker needs one patient turn for each undelivered row. */
  lemma EverythingDelivered(run: seq<Action>)
    ensures var s := After(EMPTY, run);
            var u := After(Step(s, Finish(0, Lost)), Actions(Patiently(|Undelivered(s.rows)|)));
            u.rows.Keys == s.rows.Keys && forall id | id in u.rows :: u.rows[id].deliveredAt.Some?
  {
    var s := After(EMPTY, run);
    RunValid(run);
    StepValid(s, Finish(0, Lost));
    var turns := TurnsDeliver(Step(s, Finish(0, Lost)));
    assert turns == Patiently(|Undelivered(s.rows)|) by {
      assert forall i | 0 <= i < |turns| :: turns[i] in turns;
    }
    var u := After(Step(s, Finish(0, Lost)), Actions(turns));
    forall id | id in u.rows ensures u.rows[id].deliveredAt.Some? { assert id !in Undelivered(u.rows); }
  }
}
