/** Per-key daily and hourly byte counters with lazy resets, and the ideal limiter they stand for. */
module Bandwidth {

  const DAY: nat := 86400
  const HOUR: nat := 3600
  const IDLE_TTL: nat := 86400
  const SUBNET_MULTIPLIER: int := 4

  datatype Window = Day | Hour

  /** Start of the UTC day or hour that contains the Unix time `t`. */
  function Start(w: Window, t: nat): (s: nat)
    ensures s <= t
  {
    match w
    case Day => t / DAY * DAY
    case Hour => t / HOUR * HOUR
  }

  /** A counter and the window it counts. */
  datatype Counter = Counter(since: nat, bytes: int)

  datatype State = State(day: Counter, hour: Counter, throttled: bool, lastSeen: nat, marked: bool)

  const FRESH: State := State(Counter(0, 0), Counter(0, 0), false, 0, false)

  type Table = map<string, State>

  // ---------- one key ----------

  /** Zeroes a counter whose window is over. */
  function Rolled(c: Counter, w: Window, now: nat): (r: Counter) {
    if c.since < Start(w, now) then Counter(Start(w, now), 0) else c
  }

  function DayRolled(st: State, now: nat): (r: State) {
    st.(day := Rolled(st.day, Day, now))
  }

  function HourRolled(st: State, now: nat): (r: State) {
    if st.hour.since < Start(Hour, now)
    then st.(hour := Rolled(st.hour, Hour, now), throttled := false)
    else st
  }

  /** The state after `n` bytes at time `now`. */
  function Counted(st: State, n: int, now: nat): (r: State) {
    var s := HourRolled(DayRolled(st.(marked := false, lastSeen := now), now), now);
    s.(day := s.day.(bytes := s.day.bytes + n), hour := s.hour.(bytes := s.hour.bytes + n))
  }

  function Current(m: Table, key: string): (st: State) {
    if key in m then m[key] else FRESH
  }

  function Added(m: Table, key: string, n: int, now: nat): (r: Table) {
    m[key := Counted(Current(m, key), n, now)]
  }

  predicate Idle(st: State, now: nat) {
    st.lastSeen < now - IDLE_TTL
  }

  /** One cleanup pass: idle keys are first marked, and removed when still marked on a later pass. */
  function Cleaned(m: Table, now: nat): (r: Table) {
    map k | k in m && !(Idle(m[k], now) && m[k].marked) :: if Idle(m[k], now) then m[k].(marked := true) else m[k]
  }

  // ---------- the ideal limiter ----------

  datatype Event = Event(key: string, n: int, at: nat)

  /** All bytes ever recorded for `key` in the window of kind `w` that starts at `start`. */
  function Total(log: seq<Event>, key: string, w: Window, start: nat): (s: int) {
    if log == [] then 0
    else
      var e := log[|log| - 1];
      Total(log[..|log| - 1], key, w, start) + if e.key == key && Start(w, e.at) == start then e.n else 0
  }

  datatype Quotas = Quotas(daily: int, hourly: int)

  datatype Op =
    | AddBytes(key: string, n: int, now: nat, scale: int)
    | CanOpenTunnel(key: string, now: nat)
    | Cleanup(now: nat)

  datatype Answer = Exceeded(daily: bool, hourly: bool) | MayOpen(ok: bool) | Nothing

  /** What the running limiter does and answers. */
  function Step(q: Quotas, m: Table, op: Op): (r: (Table, Answer)) {
    match op
    case AddBytes(key, n, now, scale) =>
      var r := Added(m, key, n, now);
      (r, Exceeded(r[key].day.bytes >= q.daily * scale, r[key].hour.bytes >= q.hourly * scale))
    case CanOpenTunnel(key, now) =>
      if key !in m then (m, MayOpen(true))
      else
        var st := DayRolled(m[key], now);
        (m[key := st], MayOpen(st.day.bytes < q.daily))
    case Cleanup(now) => (Cleaned(m, now), Nothing)
  }

  /** What a limiter that forgets nothing does and answers. */
  function IdealStep(q: Quotas, log: seq<Event>, op: Op): (r: (seq<Event>, Answer)) {
    match op
    case AddBytes(key, n, now, scale) =>
      var r := log + [Event(key, n, now)];
      (r, Exceeded(Total(r, key, Day, Start(Day, now)) >= q.daily * scale,
                   Total(r, key, Hour, Start(Hour, now)) >= q.hourly * scale))
    case CanOpenTunnel(key, now) => (log, MayOpen(Total(log, key, Day, Start(Day, now)) < q.daily))
    case Cleanup(now) => (log, Nothing)
  }

  function Answers(q: Quotas, m: Table, ops: seq<Op>): (r: seq<Answer>)
    decreases |ops|
  {
    if ops == [] then [] else var s := Step(q, m, ops[0]); [s.1] + Answers(q, s.0, ops[1..])
  }

  function IdealAnswers(q: Quotas, log: seq<Event>, ops: seq<Op>): (r: seq<Answer>)
    decreases |ops|
  {
    if ops == [] then [] else var s := IdealStep(q, log, ops[0]); [s.1] + IdealAnswers(q, s.0, ops[1..])
  }

  /** The clock never goes back. */
  ghost predicate Ordered(clock: nat, ops: seq<Op>)
    decreases |ops|
  {
    ops == [] || (clock <= ops[0].now && Ordered(ops[0].now, ops[1..]))
  }

  // ---------- refinement ----------

  /** Counter `c` holds the ideal total of its own window, and no traffic of `key` is more recent. */
  ghost predicate Mirrors(c: Counter, log: seq<Event>, key: string, w: Window, clock: nat) {
    && c.since <= Start(w, clock)
    && c.bytes == Total(log, key, w, c.since)
    && forall e :: e in log && e.key == key ==> Start(w, e.at) <= c.since
  }

  /** A key that is not stored has no traffic in the current day or hour. */
  ghost predicate Quiet(log: seq<Event>, key: string, clock: nat) {
    forall e :: e in log && e.key == key ==>
      Start(Day, e.at) < Start(Day, clock) && Start(Hour, e.at) < Start(Hour, clock)
  }

  ghost predicate KeyAgrees(m: Table, log: seq<Event>, key: string, clock: nat) {
    if key in m then
      && Mirrors(m[key].day, log, key, Day, clock) && Mirrors(m[key].hour, log, key, Hour, clock)
      && (forall e :: e in log && e.key == key ==> e.at <= m[key].lastSeen) && m[key].lastSeen <= clock
    else Quiet(log, key, clock)
  }

  ghost predicate Agrees(m: Table, log: seq<Event>, clock: nat) {
    && (forall e :: e in log ==> e.at <= clock)
    && forall key :: KeyAgrees(m, log, key, clock)
  }

  lemma StartMonotone(w: Window, a: nat, b: nat)
    requires a <= b
    ensures Start(w, a) <= Start(w, b)
    ensures Start(w, a) < Start(w, b) ==> a < Start(w, b)
  {}

  lemma StartClose(t: nat)
    ensures t < Start(Day, t) + DAY && t < Start(Hour, t) + HOUR
  {}

  /** Windows are whole UTC days of 86400 and hours of 3600 seconds. */
  lemma WindowHolds(t: nat)
    ensures Start(Day, t) % 86400 == 0 && Start(Day, t) <= t < Start(Day, t) + 86400
    ensures Start(Hour, t) % 3600 == 0 && Start(Hour, t) <= t < Start(Hour, t) + 3600
  {
    assert t / 86400 * 86400 % 86400 == 0;
    assert t / 3600 * 3600 % 3600 == 0;
  }

  /**
   * A key silent for more than a day goes in two passes, whatever marks it had; one that was used since the first
   * stays, unmarked, until it has been silent that long again.
   */
  lemma TwoPassesEvict(m: Table, key: string, first: nat, used: nat, n: int, second: nat)
    requires key in m && first <= used && first <= second && m[key].lastSeen < first - 86400
    ensures key !in Cleaned(Cleaned(m, first), second)
    ensures var r := Added(Cleaned(m, first), key, n, used);
      second <= used + 86400 ==> key in Cleaned(r, second) && Cleaned(r, second)[key] == r[key] && !r[key].marked
  {
    hide Start;
  }

  /** Traffic of other windows or other keys does not count. */
  lemma {:induction false} TotalZero(log: seq<Event>, key: string, w: Window, start: nat)
    requires forall e :: e in log && e.key == key ==> Start(w, e.at) != start
    ensures Total(log, key, w, start) == 0
  {
    hide Start;
    if log != [] {
      TotalZero(log[..|log| - 1], key, w, start);
    }
  }

  lemma TotalAppend(log: seq<Event>, e: Event, key: string, w: Window, start: nat)
    ensures Total(log + [e], key, w, start) ==
      Total(log, key, w, start) + if e.key == key && Start(w, e.at) == start then e.n else 0
  {
    assert (log + [e])[..|log|] == log;
  }

  /** Rolling a mirrored counter leaves it mirroring the window of `now`. */
  lemma RolledMirrors(c: Counter, log: seq<Event>, key: string, w: Window, clock: nat, now: nat)
    requires Mirrors(c, log, key, w, clock) && clock <= now
    ensures Mirrors(Rolled(c, w, now), log, key, w, now) && Rolled(c, w, now).since == Start(w, now)
  {
    StartMonotone(w, clock, now);
    hide Start;
    if c.since < Start(w, now) {
      TotalZero(log, key, w, Start(w, now));
    }
  }

  lemma FreshMirrors(log: seq<Event>, key: string, clock: nat, now: nat)
    requires Quiet(log, key, clock) && clock <= now
    ensures Mirrors(Rolled(FRESH.day, Day, now), log, key, Day, now)
    ensures Rolled(FRESH.day, Day, now).since == Start(Day, now)
    ensures Mirrors(Rolled(FRESH.hour, Hour, now), log, key, Hour, now)
    ensures Rolled(FRESH.hour, Hour, now).since == Start(Hour, now)
  {
    StartMonotone(Day, clock, now);
    StartMonotone(Hour, clock, now);
    hide Start;
    TotalZero(log, key, Day, Start(Day, now));
    TotalZero(log, key, Hour, Start(Hour, now));
  }

  lemma RolledNow(m: Table, log: seq<Event>, key: string, clock: nat, now: nat)
    requires KeyAgrees(m, log, key, clock) && clock <= now
    ensures var st := HourRolled(DayRolled(Current(m, key), now), now);
      && Mirrors(st.day, log, key, Day, now) && st.day.since == Start(Day, now)
      && Mirrors(st.hour, log, key, Hour, now) && st.hour.since == Start(Hour, now)
  {
    hide Start, Mirrors;
    if key in m {
      RolledMirrors(m[key].day, log, key, Day, clock, now);
      RolledMirrors(m[key].hour, log, key, Hour, clock, now);
    } else {
      FreshMirrors(log, key, clock, now);
    }
  }

  /** An entry evicted after a day of silence had only counters that a later access would have reset. */
  lemma EvictedIsQuiet(st: State, log: seq<Event>, key: string, clock: nat, now: nat)
    requires forall e :: e in log && e.key == key ==> e.at <= st.lastSeen
    requires Idle(st, now) && clock <= now
    ensures Quiet(log, key, now)
  {
    StartClose(now);
  }

  /** Time passing alone keeps agreement. */
  lemma LaterAgrees(m: Table, log: seq<Event>, key: string, clock: nat, now: nat)
    requires KeyAgrees(m, log, key, clock) && clock <= now
    ensures KeyAgrees(m, log, key, now)
  {
    StartMonotone(Day, clock, now);
    StartMonotone(Hour, clock, now);
    hide Start;
  }

  lemma OtherKeyAgrees(m: Table, m': Table, log: seq<Event>, e: Event, key: string, clock: nat)
    requires KeyAgrees(m, log, key, clock) && e.key != key
    requires key in m <==> key in m'
    requires key in m ==> m'[key] == m[key]
    ensures KeyAgrees(m', log + [e], key, clock)
  {
    hide Start;
    if key in m {
      TotalAppend(log, e, key, Day, m[key].day.since);
      TotalAppend(log, e, key, Hour, m[key].hour.since);
    }
  }

  /** Adding an event of the current window to a counter that mirrors it. */
  lemma CountMirrors(c: Counter, log: seq<Event>, e: Event, w: Window)
    requires Mirrors(c, log, e.key, w, e.at) && c.since == Start(w, e.at)
    ensures Mirrors(c.(bytes := c.bytes + e.n), log + [e], e.key, w, e.at)
  {
    TotalAppend(log, e, e.key, w, c.since);
    hide Start, Total;
  }

  lemma AddOwnKey(m: Table, log: seq<Event>, key: string, n: int, clock: nat, now: nat)
    requires Agrees(m, log, clock) && clock <= now
    ensures KeyAgrees(Added(m, key, n, now), log + [Event(key, n, now)], key, now)
    ensures var st := Added(m, key, n, now)[key]; st.day.since == Start(Day, now) && st.hour.since == Start(Hour, now)
  {
    hide Start, Total, Mirrors;
    var e := Event(key, n, now);
    assert KeyAgrees(m, log, key, clock);
    RolledNow(m, log, key, clock, now);
    var st := HourRolled(DayRolled(Current(m, key), now), now);
    CountMirrors(st.day, log, e, Day);
    CountMirrors(st.hour, log, e, Hour);
  }

  lemma AddAgrees(m: Table, log: seq<Event>, key: string, n: int, clock: nat, now: nat)
    requires Agrees(m, log, clock) && clock <= now
    ensures Agrees(Added(m, key, n, now), log + [Event(key, n, now)], now)
    ensures var st := Added(m, key, n, now)[key]; var log' := log + [Event(key, n, now)];
      && st.day.bytes == Total(log', key, Day, Start(Day, now))
      && st.hour.bytes == Total(log', key, Hour, Start(Hour, now))
  {
    hide Start, Total, Counted;
    var e := Event(key, n, now);
    AddOwnKey(m, log, key, n, clock, now);
    forall k ensures KeyAgrees(Added(m, key, n, now), log + [e], k, now) {
      if k != key {
        hide KeyAgrees;
        assert KeyAgrees(m, log, k, clock);
        LaterAgrees(m, log, k, clock, now);
        OtherKeyAgrees(m, Added(m, key, n, now), log, e, k, now);
      }
    }
  }

  lemma CanOpenAgrees(q: Quotas, m: Table, log: seq<Event>, key: string, clock: nat, now: nat)
    requires Agrees(m, log, clock) && clock <= now
    ensures Agrees(Step(q, m, CanOpenTunnel(key, now)).0, log, now)
    ensures key in m ==> DayRolled(m[key], now).day.bytes == Total(log, key, Day, Start(Day, now))
    ensures key !in m ==> Total(log, key, Day, Start(Day, now)) == 0
  {
    hide Start, Total;
    var m' := Step(q, m, CanOpenTunnel(key, now)).0;
    forall k ensures KeyAgrees(m', log, k, now) {
      assert KeyAgrees(m, log, k, clock);
      LaterAgrees(m, log, k, clock, now);
      if k == key && key in m {
        RolledMirrors(m[key].day, log, key, Day, clock, now);
      }
    }
    assert KeyAgrees(m, log, key, clock);
    if key in m {
      RolledMirrors(m[key].day, log, key, Day, clock, now);
    } else {
      LaterAgrees(m, log, key, clock, now);
      TotalZero(log, key, Day, Start(Day, now));
    }
  }

  lemma CleanupAgrees(m: Table, log: seq<Event>, clock: nat, now: nat)
    requires Agrees(m, log, clock) && clock <= now
    ensures Agrees(Cleaned(m, now), log, now)
  {
    hide Start, Total, Mirrors;
    forall k ensures KeyAgrees(Cleaned(m, now), log, k, now) {
      assert KeyAgrees(m, log, k, clock);
      LaterAgrees(m, log, k, clock, now);
      if k in m && k !in Cleaned(m, now) {
        EvictedIsQuiet(m[k], log, k, clock, now);
      }
    }
  }

  lemma StepAgrees(q: Quotas, m: Table, log: seq<Event>, clock: nat, op: Op)
    requires Agrees(m, log, clock) && clock <= op.now
    ensures Agrees(Step(q, m, op).0, IdealStep(q, log, op).0, op.now)
    ensures q.daily > 0 ==> Step(q, m, op).1 == IdealStep(q, log, op).1
  {
    hide Agrees, Start, Total, DayRolled;
    match op
    case AddBytes(key, n, now, scale) => AddAgrees(m, log, key, n, clock, now);
    case CanOpenTunnel(key, now) => CanOpenAgrees(q, m, log, key, clock, now);
    case Cleanup(now) => CleanupAgrees(m, log, clock, now);
  }

  lemma {:induction false} RunAgrees(q: Quotas, m: Table, log: seq<Event>, clock: nat, ops: seq<Op>)
    requires Agrees(m, log, clock) && Ordered(clock, ops) && q.daily > 0
    ensures Answers(q, m, ops) == IdealAnswers(q, log, ops)
    decreases |ops|
  {
    hide Agrees, Step, IdealStep;
    if ops != [] {
      StepAgrees(q, m, log, clock, ops[0]);
      RunAgrees(q, Step(q, m, ops[0]).0, IdealStep(q, log, ops[0]).0, ops[0].now, ops[1..]);
    }
  }

  /**
   * Over every run with a clock that never goes back, the limiter that resets lazily and evicts idle keys
   * answers like one that stores all traffic forever, exactly when the daily quota is positive.
   */
  lemma LimiterIsIdealIff(q: Quotas)
    ensures (forall ops: seq<Op> :: Ordered(0, ops) ==> Answers(q, map[], ops) == IdealAnswers(q, [], ops))
      <==> q.daily > 0
  {
    if q.daily > 0 {
      forall ops: seq<Op> | Ordered(0, ops) ensures Answers(q, map[], ops) == IdealAnswers(q, [], ops) {
        RunAgrees(q, map[], [], 0, ops);
      }
    } else {
      var ops := [CanOpenTunnel("k", 0)];
      assert Ordered(0, ops);
      assert Answers(q, map[], ops)[0] == MayOpen(true);
      assert IdealAnswers(q, [], ops)[0] == MayOpen(false);
    }
  }
}
