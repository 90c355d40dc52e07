/** What the limiter grants over whole runs: any sequence of attempts and refunds, by any clients,
    under a clock that never goes back. */
module LimiterRuns {
  import opened LimiterSpec

  datatype Event = Attempt(key: Key, now: int) | Success(key: Key)   // a success is refunded

  type Run = seq<Event>

  ghost function Step(s: seq<Record>, e: Event): seq<Record> {
    match e
    case Attempt(key, now) => Allow(s, key, now).0
    case Success(key) => Refund(s, key)
  }

  ghost function After(s: seq<Record>, run: Run): seq<Record>
    decreases run
  {
    if run == [] then s else After(Step(s, run[0]), run[1..])
  }

  /** Attempts happen at nondecreasing times from `start` on and before `end`. */
  ghost predicate Timed(run: Run, start: int, end: int) {
    run == [] ||
    match run[0]
    case Attempt(_, now) => start <= now < end && Timed(run[1..], now, end)
    case Success(_) => Timed(run[1..], start, end)
  }

  /** What happened to one key: attempts granted, attempts given back, and live records
      evicted because the limiter was full. */
  datatype Tally = Tally(granted: nat, refunded: nat, evicted: nat) {
    function Plus(other: Tally): Tally {
      Tally(granted + other.granted, refunded + other.refunded, evicted + other.evicted)
    }
  }

  ghost function Tick(s: seq<Record>, e: Event, key: Key): Tally {
    match e
    case Attempt(k, now) =>
      Tally(if k == key && Allow(s, k, now).1 then 1 else 0,
            0,
            if key in Live(Table(s), now) && key !in Table(Admit(s, k, now)) then 1 else 0)
    case Success(k) =>
      Tally(0, if k == key && key in Table(s) && Table(s)[key].count > 0 then 1 else 0, 0)
  }

  ghost function Count(s: seq<Record>, run: Run, key: Key): Tally
    decreases run
  {
    if run == [] then Tally(0, 0, 0) else Tick(s, run[0], key).Plus(Count(Step(s, run[0]), run[1..], key))
  }

  /** An attempt is refused exactly when the key has a live record with every attempt spent. */
  lemma RefusesExactlyWhenSpent(s: seq<Record>, key: Key, before: int, now: int)
    requires Sound(s, before) && before <= now
    ensures !Allow(s, key, now).1 <==>
            key in Live(Table(s), now) && Live(Table(s), now)[key].count == ATTEMPTS
  {
    AllowRefinesTable(s, key, before, now);
    if key in Live(Table(s), now) {
      var i := Find(s, key);
      assert s[i].count <= ATTEMPTS;
    }
  }

  /** Attempts `key` can still be granted before `end` without a refund or an eviction, by a table of live
      records: what is left of its record, and one more record if that one expires before then. */
  ghost function Left(live: map<Key, Record>, key: Key, end: int): int {
    if key !in live then ATTEMPTS
    else if live[key].until < end then 2 * ATTEMPTS - live[key].count
    else ATTEMPTS - live[key].count
  }

  ghost predicate Bounded(m: map<Key, Record>) {
    forall k :: k in m ==> m[k].count <= ATTEMPTS
  }

  lemma SoundIsBounded(s: seq<Record>, clock: int)
    requires Sound(s, clock)
    ensures Bounded(Table(s))
  {
    forall k | k in Table(s) ensures Table(s)[k].count <= ATTEMPTS {
      var i := IndexOf(s, k);
    }
  }

  /** Expiry leaves no more than was left before; eviction costs at most one record's worth; and what an
      attempt is charged to is live. */
  lemma AdmitSpendsLeft(m: map<Key, Record>, clock: int, k: Key, now: int, admitted: map<Key, Record>,
                        key: Key, end: int)
    requires Bounded(m) && clock <= now < end <= now + WINDOW
    requires TableAdmits(Live(m, now), k, now, admitted)
    ensures Live(admitted, now) == admitted
    ensures Left(admitted, key, end) <=
            Left(Live(m, clock), key, end) + if key in Live(m, now) && key !in admitted then ATTEMPTS else 0
  {
  }

  lemma ChargeSpendsLeft(m: map<Key, Record>, now: int, k: Key, after: map<Key, Record>, ok: bool, key: Key, end: int)
    requires Live(m, now) == m && TableCharges(m, k, after, ok)
    ensures Live(after, now) == after
    ensures Left(after, key, end) + (if k == key && ok then 1 else 0) == Left(m, key, end)
  {
    assert k in Live(m, now);
  }

  lemma AttemptSpendsLeft(s: seq<Record>, k: Key, key: Key, clock: int, now: int, end: int)
    requires Sound(s, clock) && clock <= now < end <= now + WINDOW
    ensures var c := Tick(s, Attempt(k, now), key);
      Left(Live(Table(Allow(s, k, now).0), now), key, end) + c.granted
      <= Left(Live(Table(s), clock), key, end) + ATTEMPTS * c.evicted
  {
    SoundIsBounded(s, clock);
    AllowRefinesTable(s, k, clock, now);
    var admitted := Table(Admit(s, k, now));
    AdmitSpendsLeft(Table(s), clock, k, now, admitted, key, end);
    ChargeSpendsLeft(admitted, now, k, Table(Allow(s, k, now).0), Allow(s, k, now).1, key, end);
  }

  lemma RefundSpendsLeft(m: map<Key, Record>, k: Key, clock: int, key: Key, end: int)
    ensures var refunds := k in m && m[k].count > 0;
      var after := if refunds then m[k := m[k].(count := m[k].count - 1)] else m;
      Left(Live(after, clock), key, end) <= Left(Live(m, clock), key, end) + if k == key && refunds then 1 else 0
  {
  }

  lemma {:induction false} StepSpendsLeft(s: seq<Record>, e: Event, key: Key, clock: int, end: int)
    requires Sound(s, clock)
    requires e.Attempt? ==> clock <= e.now < end <= e.now + WINDOW
    ensures var later := if e.Attempt? then e.now else clock;
      Left(Live(Table(Step(s, e)), later), key, end) + Tick(s, e, key).granted
      <= Left(Live(Table(s), clock), key, end) + Tick(s, e, key).refunded + ATTEMPTS * Tick(s, e, key).evicted
  {
    match e
    case Attempt(k, now) => AttemptSpendsLeft(s, k, key, clock, now, end);
    case Success(k) =>
      RefundRefinesTable(s, k);
      RefundSpendsLeft(Table(s), k, clock, key, end);
  }

  lemma LeftBounds(s: seq<Record>, key: Key, clock: int, end: int)
    requires Sound(s, clock)
    ensures 0 <= Left(Live(Table(s), clock), key, end) <= 2 * ATTEMPTS
  {
    SoundIsBounded(s, clock);
  }

  lemma {:induction false} RunSpendsLeft(s: seq<Record>, run: Run, key: Key, clock: int, start: int)
    requires Sound(s, clock) && start <= clock
    requires Timed(run, clock, start + WINDOW)
    ensures var c := Count(s, run, key);
      c.granted <= Left(Live(Table(s), clock), key, start + WINDOW) + c.refunded + ATTEMPTS * c.evicted
    decreases run
  {
    if run == [] {
      LeftBounds(s, key, clock, start + WINDOW);
    } else {
      var e := run[0];
      StepSpendsLeft(s, e, key, clock, start + WINDOW);
      var later := StepKeepsSound(s, e, clock);
      RunSpendsLeft(Step(s, e), run[1..], key, later, start);
    }
  }

  lemma StepKeepsSound(s: seq<Record>, e: Event, clock: int) returns (later: int)
    requires Sound(s, clock) && (e.Attempt? ==> clock <= e.now)
    ensures later == (if e.Attempt? then e.now else clock) && Sound(Step(s, e), later)
  {
    match e
    case Attempt(key, now) =>
      AllowKeepsSound(s, key, clock, now);
      later := now;
    case Success(key) =>
      RefundKeepsSound(s, key, clock);
      later := clock;
  }

  /** Every state a run reaches is sound. */
  lemma {:induction false} RunKeepsSound(s: seq<Record>, run: Run, clock: int, end: int) returns (later: int)
    requires Sound(s, clock) && clock <= end && Timed(run, clock, end)
    ensures clock <= later <= end && Sound(After(s, run), later)
    decreases run
  {
    later := clock;
    if run != [] {
      var next := StepKeepsSound(s, run[0], clock);
      later := RunKeepsSound(Step(s, run[0]), run[1..], next, end);
    }
  }

  const QUARTER: int := 15 * 60 * 1_000_000_000      // fifteen minutes, in nanoseconds

  /** The bound over whole runs. In any half-open interval of fifteen minutes, whatever came
      before it, a key is granted at most forty attempts, plus one for each refund it gets
      in the interval and twenty for each time its live record is evicted there. */
  lemma GrantsPerInterval(before: Run, during: Run, key: Key, origin: int, start: int)
    requires origin <= start
    requires Timed(before, origin, start) && Timed(during, start, start + QUARTER)
    ensures var c := Count(After([], before), during, key);
      c.granted <= 40 + c.refunded + 20 * c.evicted
  {
    var clock := RunKeepsSound([], before, origin, start);
    var s := After([], before);
    assert Sound(s, start);
    RunSpendsLeft(s, during, key, start, start);
    LeftBounds(s, key, start, start + WINDOW);
  }

  // ----- The bound is met -----

  lemma {:induction false} CountSplits(s: seq<Record>, a: Run, b: Run, key: Key)
    ensures After(s, a + b) == After(After(s, a), b)
    ensures Count(s, a + b, key) == Count(s, a, key).Plus(Count(After(s, a), b, key))
    decreases a
  {
    if a == [] {
      assert a + b == b;
    } else {
      assert (a + b)[0] == a[0] && (a + b)[1..] == a[1..] + b;
      CountSplits(Step(s, a[0]), a[1..], b, key);
    }
  }

  ghost function Burst(key: Key, now: int, n: nat): Run {
    if n == 0 then [] else [Attempt(key, now)] + Burst(key, now, n - 1)
  }

  lemma {:induction false} BurstTimed(key: Key, now: int, n: nat, rest: Run, start: int, end: int)
    requires start <= now < end && Timed(rest, now, end)
    ensures Timed(Burst(key, now, n) + rest, if n == 0 then now else start, end)
    decreases n
  {
    var run := Burst(key, now, n) + rest;
    if n == 0 {
      assert run == rest;
    } else {
      assert run[1..] == Burst(key, now, n - 1) + rest;
      BurstTimed(key, now, n - 1, rest, now, end);
    }
  }

  lemma BurstsTimed(key: Key, start: int, n: nat, later: int, end: int)
    requires start <= later < end
    ensures Timed(Burst(key, start, n), start, end)
    ensures n > 0 || start == later ==> Timed(Burst(key, start, n) + Burst(key, later, ATTEMPTS), start, end)
  {
    var first, second := Burst(key, start, n), Burst(key, later, ATTEMPTS);
    assert first + [] == first && second + [] == second;
    BurstTimed(key, start, n, [], start, end);
    BurstTimed(key, later, ATTEMPTS, [], later, end);
    BurstTimed(key, start, n, second, start, end);
  }

  /** The record an attempt by `key` is charged to. */
  ghost function ChargedTo(m: map<Key, Record>, key: Key, now: int): Record {
    if key in Live(m, now) then m[key] else Record(key, 0, now + WINDOW)
  }

  /** The records are sound, and `r` is the one an attempt by `key` would be charged to. */
  ghost predicate Charges(s: seq<Record>, key: Key, now: int, r: Record) {
    Sound(s, now) && r == ChargedTo(Table(s), key, now)
  }

  ghost function Steps(key: Key): (seq<Record>, Event) -> (seq<Record>, Tally) {
    (s, e) => (Step(s, e), Tick(s, e, key))
  }

  lemma AttemptIsGranted(s: seq<Record>, key: Key, now: int, r: Record)
    requires Charges(s, key, now, r) && r.count < ATTEMPTS
    ensures Charges(Steps(key)(s, Attempt(key, now)).0, key, now, r.(count := r.count + 1))
    ensures Steps(key)(s, Attempt(key, now)).1 == Tally(1, 0, 0)
  {
    AllowKeepsSound(s, key, now, now);
    AllowRefinesTable(s, key, now, now);
  }

  /** A run, the states it passes through, and one grant at every step. */
  ghost predicate Grants(step: (seq<Record>, Event) -> (seq<Record>, Tally), states: seq<seq<Record>>, run: Run)
    decreases run
  {
    && |states| == |run| + 1
    && (run != [] ==> step(states[0], run[0]) == (states[1], Tally(1, 0, 0)) && Grants(step, states[1..], run[1..]))
  }

  lemma {:induction false} GrantsAdd(states: seq<seq<Record>>, run: Run, key: Key)
    requires Grants(Steps(key), states, run)
    ensures After(states[0], run) == states[|run|] && Count(states[0], run, key) == Tally(|run|, 0, 0)
    decreases run
  {
    if run != [] {
      GrantsAdd(states[1..], run[1..], key);
    }
  }

  lemma {:induction false} BurstGrants(step: (seq<Record>, Event) -> (seq<Record>, Tally),
          charges: (seq<Record>, Record) -> bool, s: seq<Record>, key: Key, now: int, n: nat, r: Record)
    returns (states: seq<seq<Record>>)
    requires forall s, r | charges(s, r) && r.count < ATTEMPTS ::
      charges(step(s, Attempt(key, now)).0, r.(count := r.count + 1)) && step(s, Attempt(key, now)).1 == Tally(1, 0, 0)
    requires charges(s, r) && r.count + n <= ATTEMPTS
    ensures |states| == n + 1 && Grants(step, states, Burst(key, now, n))
    ensures states[0] == s && charges(states[n], r.(count := r.count + n))
    decreases n
  {
    if n == 0 {
      states := [s];
      assert r.(count := r.count) == r by {
        var Record(k, count, until) := r;
      }
    } else {
      var next := step(s, Attempt(key, now));
      var rest := BurstGrants(step, charges, next.0, key, now, n - 1, r.(count := r.count + 1));
      states := [s] + rest;
      assert states[1..] == rest && Burst(key, now, n)[1..] == Burst(key, now, n - 1);
    }
  }

  lemma {:induction false} BurstLength(key: Key, now: int, n: nat)
    ensures |Burst(key, now, n)| == n
  {
    if n > 0 {
      BurstLength(key, now, n - 1);
    }
  }

  /** A burst is granted as long as the record it is charged to lasts. */
  lemma {:induction false} BurstIsGranted(s: seq<Record>, key: Key, now: int, n: nat, r: Record)
    returns (after: seq<Record>)
    requires Charges(s, key, now, r) && r.count + n <= ATTEMPTS
    ensures after == After(s, Burst(key, now, n)) && Count(s, Burst(key, now, n), key) == Tally(n, 0, 0)
    ensures Charges(after, key, now, r.(count := r.count + n))
  {
    var charges := (s, r) => Charges(s, key, now, r);
    forall s, r | charges(s, r) && r.count < ATTEMPTS
      ensures charges(Steps(key)(s, Attempt(key, now)).0, r.(count := r.count + 1))
      ensures Steps(key)(s, Attempt(key, now)).1 == Tally(1, 0, 0)
    {
      AttemptIsGranted(s, key, now, r);
    }
    var states := BurstGrants(Steps(key), charges, s, key, now, n, r);
    BurstLength(key, now, n);
    GrantsAdd(states, Burst(key, now, n), key);
    after := states[n];
  }

  lemma StaysSound(s: seq<Record>, clock: int, now: int)
    requires Sound(s, clock) && clock <= now
    ensures Sound(s, now)
  {
  }

  /** The record of `key` is live, not used up, and expires before the interval from `start` is over. */
  ghost predicate Renews(s: seq<Record>, key: Key, start: int) {
    && key in Live(Table(s), start)
    && Table(s)[key].count < ATTEMPTS
    && Table(s)[key].until < start + WINDOW
  }

  lemma JoinGrants(s: seq<Record>, a: Run, mid: seq<Record>, b: Run, key: Key, n: nat, m: nat)
    requires After(s, a) == mid && Count(s, a, key) == Tally(n, 0, 0) && Count(mid, b, key) == Tally(m, 0, 0)
    ensures Count(s, a + b, key) == Tally(n + m, 0, 0)
  {
    calc {
      Count(s, a + b, key);
      { CountSplits(s, a, b, key); }
      Count(s, a, key).Plus(Count(mid, b, key));
      Tally(n, 0, 0).Plus(Tally(m, 0, 0));
    }
  }

  /** A burst of what is left of the record ... */
  lemma OneBurst(s: seq<Record>, key: Key, start: int, r: Record) returns (run: Run)
    requires Charges(s, key, start, r) && r.count <= ATTEMPTS
    ensures Timed(run, start, start + WINDOW) && Count(s, run, key) == Tally(ATTEMPTS - r.count, 0, 0)
  {
    var n := ATTEMPTS - r.count;
    var burst := Burst(key, start, n);
    var after := BurstIsGranted(s, key, start, n, r);
    BurstsTimed(key, start, n, start, start + WINDOW);
    run := burst;
  }

  /** ... and, once it has expired, of the whole of the next one. */
  lemma TwoBursts(s: seq<Record>, key: Key, start: int, r: Record) returns (run: Run)
    requires Charges(s, key, start, r) && r.count < ATTEMPTS && start < r.until < start + WINDOW
    ensures Timed(run, start, start + WINDOW) && Count(s, run, key) == Tally(2 * ATTEMPTS - r.count, 0, 0)
  {
    var n := ATTEMPTS - r.count;
    var first, second := Burst(key, start, n), Burst(key, r.until, ATTEMPTS);
    var mid := BurstIsGranted(s, key, start, n, r);
    StaysSound(mid, start, r.until);
    var end := BurstIsGranted(mid, key, r.until, ATTEMPTS, Record(key, 0, r.until + WINDOW));
    JoinGrants(s, first, mid, second, key, n, ATTEMPTS);
    BurstsTimed(key, start, n, r.until, start + WINDOW);
    run := first + second;
  }

  /** A used-up record can only be waited for. */
  lemma LateBurst(s: seq<Record>, key: Key, start: int, r: Record) returns (run: Run)
    requires Charges(s, key, start, r) && start < r.until < start + WINDOW
    ensures Timed(run, start, start + WINDOW) && Count(s, run, key) == Tally(ATTEMPTS, 0, 0)
  {
    run := Burst(key, r.until, ATTEMPTS);
    StaysSound(s, start, r.until);
    var after := BurstIsGranted(s, key, r.until, ATTEMPTS, Record(key, 0, r.until + WINDOW));
    BurstsTimed(key, r.until, ATTEMPTS, r.until, start + WINDOW);
    assert run != [] && run[0] == Attempt(key, r.until);
  }

  /** Everything that is left can be had: from any sound records some run within the interval grants `key`
      all of it, with no refund and no eviction of its record. */
  lemma AllThatIsLeftIsGranted(s: seq<Record>, key: Key, start: int) returns (run: Run)
    requires Sound(s, start)
    ensures Timed(run, start, start + WINDOW)
    ensures var left := Left(Live(Table(s), start), key, start + WINDOW);
      left >= 0 && Count(s, run, key) == Tally(left, 0, 0)
  {
    LeftBounds(s, key, start, start + WINDOW);
    SoundIsBounded(s, start);
    var r := ChargedTo(Table(s), key, start);
    if key !in Live(Table(s), start) || r.until >= start + WINDOW {
      run := OneBurst(s, key, start, r);
    } else if r.count < ATTEMPTS {
      run := TwoBursts(s, key, start, r);
    } else {
      run := LateBurst(s, key, start, r);
    }
  }

  /** Twenty in fifteen minutes, exactly when it holds. From any sound records, every run within fifteen
      minutes grants `key` at most twenty attempts, plus one for each refund and twenty for each eviction
      of its live record, unless its record at the start is live, not used up and due to expire before the
      end; and then some run without refund or eviction grants it more than twenty. */
  lemma TwentyHoldsExactly(s: seq<Record>, key: Key, start: int)
    requires Sound(s, start)
    ensures (forall run | Timed(run, start, start + QUARTER) ::
               Count(s, run, key).granted <=
               20 + Count(s, run, key).refunded + 20 * Count(s, run, key).evicted)
            <==> !Renews(s, key, start)
  {
    if Renews(s, key, start) {
      var run := AllThatIsLeftIsGranted(s, key, start);
      assert Count(s, run, key).granted > ATTEMPTS;
    } else {
      SoundIsBounded(s, start);
      forall run | Timed(run, start, start + WINDOW)
        ensures Count(s, run, key).granted <=
                ATTEMPTS + Count(s, run, key).refunded + ATTEMPTS * Count(s, run, key).evicted
      {
        RunSpendsLeft(s, run, key, start, start);
      }
    }
  }

  lemma OneSuccess(key: Key)
    ensures After([], [Attempt(key, 0), Success(key)]) == [Record(key, 0, WINDOW)]
  {
    var run, s := [Attempt(key, 0), Success(key)], [Record(key, 1, WINDOW)];
    assert Admit([], key, 0) == [Record(key, 0, WINDOW)];
    assert Step([], Attempt(key, 0)) == s by {
      var a := [Record(key, 0, WINDOW)];
      assert a[0].key == key && a[0 := Record(key, 1, WINDOW)] == s;
    }
    assert run[1..] == [Success(key)] && [Success(key)][1..] == [];
    assert s[0].key == key && s[0 := Record(key, 0, WINDOW)] == [Record(key, 0, WINDOW)];
    assert Step(s, Success(key)) == [Record(key, 0, WINDOW)];
    assert After([], run) == After(s, [Success(key)]) == After(Step(s, Success(key)), []);
  }

  /** Both bounds are met from an empty limiter: forty grants fit into fifteen minutes, on a record left
      whole by a success that gave its attempt back. */
  lemma FortyInOneInterval(key: Key) returns (before: Run, during: Run, start: int)
    ensures Timed(before, 0, start) && Timed(during, start, start + QUARTER)
    ensures Count(After([], before), during, key) == Tally(40, 0, 0)
  {
    before := [Attempt(key, 0), Success(key)];
    start := WINDOW - 1;
    OneSuccess(key);
    var s := [Record(key, 0, WINDOW)];
    LookupAt(s, 0);
    during := AllThatIsLeftIsGranted(s, key, start);
  }
}
