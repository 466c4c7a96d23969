/** The running limiter, and conservation between client buckets and subnet buckets. */
module BandwidthLimiter {
  import opened Bandwidth
  import Subnet

  class Limiter {
    const quota: int
    const hourlyQuota: int
    var ips: map<string, State>
    var throttledHourlyTotal: nat

    constructor (daily: int, hourly: int)
      ensures ips == map[] && quota == daily && hourlyQuota == hourly && throttledHourlyTotal == 0
    {
      quota, hourlyQuota, ips, throttledHourlyTotal := daily, hourly, map[], 0;
    }

    /** Counts `n` bytes for `key`; says whether the scaled daily and hourly quotas are reached. */
    method AddBytesScaled(key: string, n: int, scale: int, now: nat) returns (daily: bool, hourly: bool)
      modifies this`ips
      ensures (ips, Exceeded(daily, hourly)) ==
        Step(Quotas(quota, hourlyQuota), old(ips), AddBytes(key, n, now, scale))
    {
      if key !in ips {
        ips := ips[key := FRESH];
      }
      var st := ips[key];
      st := st.(marked := false, lastSeen := now);
      var today := Start(Day, now);
      if st.day.since < today {
        st := st.(day := Counter(today, 0));
      }
      var thisHour := Start(Hour, now);
      if st.hour.since < thisHour {
        st := st.(hour := Counter(thisHour, 0), throttled := false);
      }
      st := st.(day := st.day.(bytes := st.day.bytes + n));
      st := st.(hour := st.hour.(bytes := st.hour.bytes + n));
      ips := ips[key := st];
      assert ips == Added(old(ips), key, n, now);
      daily, hourly := st.day.bytes >= quota * scale, st.hour.bytes >= hourlyQuota * scale;
    }

    method CanOpen(key: string, now: nat) returns (ok: bool)
      modifies this`ips
      ensures (ips, MayOpen(ok)) == Step(Quotas(quota, hourlyQuota), old(ips), CanOpenTunnel(key, now))
    {
      if key !in ips {
        return true;
      }
      var st := ips[key];
      var today := Start(Day, now);
      if st.day.since < today {
        st := st.(day := Counter(today, 0));
      }
      ips := ips[key := st];
      ok := st.day.bytes < quota;
    }

    /** One cleanup pass over the keys, in any order. */
    method CleanupPass(now: nat, order: seq<string>)
      requires (forall k :: k in order <==> k in ips) && forall i, j :: 0 <= i < j < |order| ==> order[i] != order[j]
      modifies this`ips
      ensures ips == Cleaned(old(ips), now)
      ensures forall k :: k in old(ips) ==> var was := old(ips)[k];
        if was.lastSeen >= now - 86400 then k in ips && ips[k] == was
        else if was.marked then k !in ips else k in ips && ips[k] == was.(marked := true)
      ensures ips.Keys <= old(ips).Keys
    {
      ghost var m := ips;
      var i := 0;
      while i < |order|
        invariant 0 <= i <= |order|
        invariant forall k :: k in order[i..] ==> k in ips && k in m && ips[k] == m[k]
        invariant forall k :: k in ips ==> k in m
        invariant forall k :: k in m && k !in order[i..] ==>
          (k in ips <==> k in Cleaned(m, now)) && (k in ips ==> ips[k] == Cleaned(m, now)[k])
      {
        var key := order[i];
        assert forall k :: k in order[i..] <==> k == key || k in order[i + 1..];
        assert key !in order[i + 1..];
        var st := ips[key];
        if st.lastSeen < now - IDLE_TTL {
          if st.marked {
            ips := ips - {key};
          } else {
            ips := ips[key := st.(marked := true)];
          }
        }
        i := i + 1;
      }
    }

    /**
     * Accounts `n` bytes to the client and to its subnet bucket and says whether to throttle.
     * `subnetKey` is the client's subnet prefix, empty when the address does not parse.
     */
    method AccountAndThrottle(ip: string, subnetKey: string, n: int, now: nat) returns (throttle: bool)
      modifies this
      ensures var r := Accounted(Quotas(quota, hourlyQuota), old(ips), ip, subnetKey, n, now);
        ips == r.table && throttle == r.throttle &&
        throttledHourlyTotal == old(throttledHourlyTotal) + if r.crossed then 1 else 0
      ensures ip in ips && (subnetKey != "" && subnetKey != ip ==> subnetKey in ips)
      ensures throttle <==>
        || ips[ip].day.bytes >= quota || ips[ip].hour.bytes >= hourlyQuota
        || (subnetKey != "" && subnetKey != ip &&
            (ips[subnetKey].day.bytes >= 4 * quota || ips[subnetKey].hour.bytes >= 4 * hourlyQuota))
    {
      var daily, hourly := AddBytesScaled(ip, n, 1, now);
      if hourly {
        var st := ips[ip];
        if !st.throttled {
          throttledHourlyTotal := throttledHourlyTotal + 1;
        }
        ips := ips[ip := st.(throttled := true)];
      }
      if subnetKey != "" && subnetKey != ip {
        var sDaily, sHourly := AddBytesScaled(subnetKey, n, SUBNET_MULTIPLIER, now);
        daily, hourly := daily || sDaily, hourly || sHourly;
      }
      throttle := daily || hourly;
    }
  }

  datatype Accounting = Accounting(table: Table, throttle: bool, crossed: bool)

  /** Client bucket, first-crossing flag, then subnet bucket. */
  function Accounted(q: Quotas, m: Table, ip: string, subnetKey: string, n: int, now: nat): (r: Accounting) {
    var (m1, a1) := Step(q, m, AddBytes(ip, n, now, 1));
    var m2 := if a1.hourly then m1[ip := m1[ip].(throttled := true)] else m1;
    var crossed := a1.hourly && !m1[ip].throttled;
    if subnetKey != "" && subnetKey != ip then
      var (m3, a3) := Step(q, m2, AddBytes(subnetKey, n, now, SUBNET_MULTIPLIER));
      Accounting(m3, a1.daily || a3.daily || a1.hourly || a3.hourly, crossed)
    else Accounting(m2, a1.daily || a1.hourly, crossed)
  }

  // ---------- conservation ----------

  datatype Traffic = Traffic(ip: string, n: int, at: nat)

  /** The byte events a run of AccountAndThrottle calls leaves in the limiter. */
  function Logged(ts: seq<Traffic>, subnet: string -> string): (log: seq<Event>)
  {
    if ts == [] then []
    else
      var t := ts[|ts| - 1];
      Logged(ts[..|ts| - 1], subnet) + [Event(t.ip, t.n, t.at)] +
      if subnet(t.ip) != "" && subnet(t.ip) != t.ip then [Event(subnet(t.ip), t.n, t.at)] else []
  }

  ghost function SumOver(s: set<string>, f: string -> int): (n: int)
  {
    if s == {} then 0 else var x :| x in s; f(x) + SumOver(s - {x}, f)
  }

  lemma {:induction false} SumOverPick(s: set<string>, f: string -> int, x: string)
    requires x in s
    ensures SumOver(s, f) == f(x) + SumOver(s - {x}, f)
    decreases s
  {
    var y :| y in s && SumOver(s, f) == f(y) + SumOver(s - {y}, f);
    if y != x {
      SumOverPick(s - {y}, f, x);
      SumOverPick(s - {x}, f, y);
      assert s - {y} - {x} == s - {x} - {y};
    }
  }

  lemma {:induction false} SumOverShift(s: set<string>, f: string -> int, g: string -> int, x: string, d: int)
    requires forall k :: k in s ==> g(k) == f(k) + if k == x then d else 0
    ensures SumOver(s, g) == SumOver(s, f) + if x in s then d else 0
    decreases s
  {
    if s != {} {
      var y :| y in s;
      SumOverPick(s, f, y);
      SumOverPick(s, g, y);
      SumOverShift(s - {y}, f, g, x, d);
    }
  }

  /** A subnet key is not itself an address: it has no subnet. */
  ghost predicate KeysOpaque(subnet: string -> string) {
    forall ip {:trigger subnet(subnet(ip))} :: subnet(ip) == "" || subnet(subnet(ip)) == ""
  }

  /** The subnet prefixes of the limiter are such keys, for any address parser that refuses slashes. */
  lemma PrefixesAreOpaque(lib: Subnet.Library)
    requires Subnet.PlainText(lib)
    ensures KeysOpaque(ip => Subnet.SubnetPrefix(lib, ip))
  {
    var subnet := ip => Subnet.SubnetPrefix(lib, ip);
    forall ip ensures subnet(ip) == "" || subnet(subnet(ip)) == "" {
      Subnet.PrefixHasNoPrefix(lib, ip);
    }
  }

  /** An address that has a subnet never reads like a subnet key. */
  lemma NoSharedKey(subnet: string -> string)
    requires KeysOpaque(subnet)
    ensures forall ip, jp :: subnet(ip) != "" && subnet(jp) != "" ==> ip != subnet(jp)
  {
    forall ip, jp | subnet(ip) != "" && subnet(jp) != "" ensures ip != subnet(jp) {
      assert subnet(subnet(jp)) == "";
    }
  }

  /** The clients of bucket `b`. */
  ghost predicate ClientsOf(s: set<string>, ts: seq<Traffic>, subnet: string -> string, b: string) {
    && (forall t :: t in ts && subnet(t.ip) == b ==> t.ip in s)
    && (forall ip :: ip in s ==> subnet(ip) == b)
  }

  /** Bytes of clients whose address text is `b` itself. */
  function Direct(ts: seq<Traffic>, b: string, w: Window, start: nat): (n: int) {
    if ts == [] then 0
    else
      var t := ts[|ts| - 1];
      Direct(ts[..|ts| - 1], b, w, start) + if t.ip == b && Start(w, t.at) == start then t.n else 0
  }

  /**
   * In every day and every hour, a subnet bucket's total is the sum of the totals of the clients in that subnet,
   * plus what clients whose address text is the key itself used.
   */
  lemma {:induction false} BucketIsSum(ts: seq<Traffic>, subnet: string -> string, b: string, s: set<string>,
                                       w: Window, start: nat)
    requires KeysOpaque(subnet) && ClientsOf(s, ts, subnet, b) && b != ""
    ensures Total(Logged(ts, subnet), b, w, start) ==
      SumOver(s, k => Total(Logged(ts, subnet), k, w, start)) + Direct(ts, b, w, start)
  {
    hide Start;
    var log := Logged(ts, subnet);
    if ts == [] {
      AllZero(s, k => Total(log, k, w, start));
    } else {
      var t, rest := ts[|ts| - 1], ts[..|ts| - 1];
      var before := Logged(rest, subnet);
      BucketIsSum(rest, subnet, b, s, w, start);
      var own := Event(t.ip, t.n, t.at);
      var mid := before + [own];
      AppendOver(s, before, own, w, start);
      TotalAppend(before, own, b, w, start);
      assert subnet(t.ip) == "" || subnet(subnet(t.ip)) == "";
      if subnet(t.ip) != "" {
        var agg := Event(subnet(t.ip), t.n, t.at);
        assert log == mid + [agg];
        AppendOver(s, mid, agg, w, start);
        TotalAppend(mid, agg, b, w, start);
      } else {
        assert log == mid;
      }
    }
  }

  /** When every client address has a subnet, nothing else is in the bucket. */
  lemma {:induction false} NothingDirect(ts: seq<Traffic>, subnet: string -> string, b: string, w: Window, start: nat)
    requires subnet(b) == "" && forall t :: t in ts ==> subnet(t.ip) != ""
    ensures Direct(ts, b, w, start) == 0
  {
    if ts != [] {
      NothingDirect(ts[..|ts| - 1], subnet, b, w, start);
      assert ts[|ts| - 1] in ts;
    }
  }

  /**
   * Conservation: in every day and hour a subnet bucket's total is the sum of its clients' totals, exactly when no
   * bytes of that window came from a client whose address text is the key itself; none do when all addresses parse.
   */
  lemma SubnetConservation(ts: seq<Traffic>, subnet: string -> string, b: string, s: set<string>, w: Window, start: nat)
    requires KeysOpaque(subnet) && ClientsOf(s, ts, subnet, b) && b != "" && subnet(b) == ""
    ensures Total(Logged(ts, subnet), b, w, start) == SumOver(s, k => Total(Logged(ts, subnet), k, w, start))
      <==> Direct(ts, b, w, start) == 0
    ensures (forall t :: t in ts ==> subnet(t.ip) != "") ==> Direct(ts, b, w, start) == 0
  {
    BucketIsSum(ts, subnet, b, s, w, start);
    if forall t :: t in ts ==> subnet(t.ip) != "" {
      NothingDirect(ts, subnet, b, w, start);
    }
  }

  lemma {:induction false} AllZero(s: set<string>, f: string -> int)
    requires forall k :: f(k) == 0
    ensures SumOver(s, f) == 0
  {
    if s != {} {
      var x :| x in s;
      SumOverPick(s, f, x);
      AllZero(s - {x}, f);
    }
  }

  lemma AppendOver(s: set<string>, log: seq<Event>, e: Event, w: Window, start: nat)
    ensures SumOver(s, k => Total(log + [e], k, w, start)) ==
      SumOver(s, k => Total(log, k, w, start)) + if e.key in s && Start(w, e.at) == start then e.n else 0
  {
    hide Start, Total;
    var d := if Start(w, e.at) == start then e.n else 0;
    forall k | k in s ensures Total(log + [e], k, w, start) == Total(log, k, w, start) + if k == e.key then d else 0 {
      TotalAppend(log, e, k, w, start);
    }
    SumOverShift(s, k => Total(log, k, w, start), k => Total(log + [e], k, w, start), e.key, d);
  }

  /**
   * A caller that passes the text of a client's subnet key as an address counts in the subnet's own bucket. The
   * handlers pass the host of the remote address, which never reads like that.
   */
  lemma SlashedAddressCollides(lib: Subnet.Library, ip: string, n: int, now: nat)
    requires Subnet.PlainText(lib) && Subnet.SubnetPrefix(lib, ip) != "" && n > 0 && Start(Day, now) > 0
    ensures var subnet := k => Subnet.SubnetPrefix(lib, k);
      var ts := [Traffic(ip, n, now), Traffic(subnet(ip), n, now)];
      Total(Logged(ts, subnet), subnet(ip), Day, Start(Day, now)) == 2 * n &&
      Total(Logged(ts, subnet), ip, Day, Start(Day, now)) == n
  {
    hide Start, Total, Logged, Subnet.SubnetPrefix, Subnet.PlainText;
    Subnet.PrefixHasNoPrefix(lib, ip);
    KeyCollides(k => Subnet.SubnetPrefix(lib, k), ip, n, now);
  }

  lemma KeyCollides(subnet: string -> string, ip: string, n: int, now: nat)
    requires subnet(ip) != "" && subnet(ip) != ip && subnet(subnet(ip)) == "" && n > 0 && Start(Day, now) > 0
    ensures var ts := [Traffic(ip, n, now), Traffic(subnet(ip), n, now)];
      Total(Logged(ts, subnet), subnet(ip), Day, Start(Day, now)) == 2 * n &&
      Total(Logged(ts, subnet), ip, Day, Start(Day, now)) == n
  {
    hide Start;
    var b := subnet(ip);
    var t1, t2 := Traffic(ip, n, now), Traffic(b, n, now);
    assert [t1, t2][..1] == [t1] && [t1][..0] == [];
    var l1 := [Event(ip, n, now)] + [Event(b, n, now)];
    assert Logged([t1], subnet) == l1;
    assert Logged([t1, t2], subnet) == l1 + [Event(b, n, now)];
    forall key ensures Total(l1 + [Event(b, n, now)], key, Day, Start(Day, now)) ==
      (if ip == key then n else 0) + (if b == key then 2 * n else 0)
    {
      TotalAppend([], Event(ip, n, now), key, Day, Start(Day, now));
      assert [] + [Event(ip, n, now)] == [Event(ip, n, now)];
      TotalAppend([Event(ip, n, now)], Event(b, n, now), key, Day, Start(Day, now));
      TotalAppend(l1, Event(b, n, now), key, Day, Start(Day, now));
    }
  }

  // ---------- the running limiter conserves too ----------

  /** A run of the limiter: accounted traffic and cleanup passes. */
  datatype Move = Use(t: Traffic) | Sweep(at: nat)

  function At(move: Move): (t: nat) {
    match move
    case Use(t) => t.at
    case Sweep(at) => at
  }

  function TrafficOf(moves: seq<Move>): (ts: seq<Traffic>) {
    if moves == [] then []
    else
      var last := moves[|moves| - 1];
      TrafficOf(moves[..|moves| - 1]) + if last.Use? then [last.t] else []
  }

  function Played(q: Quotas, moves: seq<Move>, subnet: string -> string): (r: Table)
  {
    if moves == [] then map[]
    else
      var m := Played(q, moves[..|moves| - 1], subnet);
      match moves[|moves| - 1]
      case Use(t) => Accounted(q, m, t.ip, subnet(t.ip), t.n, t.at).table
      case Sweep(at) => Cleaned(m, at)
  }

  ghost predicate Timed(moves: seq<Move>) {
    forall i, j :: 0 <= i < j < |moves| ==> At(moves[i]) <= At(moves[j])
  }

  function LastTime(moves: seq<Move>): (t: nat) {
    if moves == [] then 0 else At(moves[|moves| - 1])
  }

  lemma FlagIsInvisible(m: Table, log: seq<Event>, clock: nat, key: string)
    requires Agrees(m, log, clock) && key in m
    ensures Agrees(m[key := m[key].(throttled := true)], log, clock)
  {
    hide Start, Total;
    var m' := m[key := m[key].(throttled := true)];
    forall k ensures KeyAgrees(m', log, k, clock) {
      assert KeyAgrees(m, log, k, clock);
    }
  }

  lemma AccountedAgrees(q: Quotas, m: Table, log: seq<Event>, clock: nat, t: Traffic, key: string)
    requires Agrees(m, log, clock) && clock <= t.at
    ensures Agrees(Accounted(q, m, t.ip, key, t.n, t.at).table,
                   log + [Event(t.ip, t.n, t.at)] + if key != "" && key != t.ip then [Event(key, t.n, t.at)] else [],
                   t.at)
  {
    hide Start, Total, Agrees;
    AddAgrees(m, log, t.ip, t.n, clock, t.at);
    var m1 := Added(m, t.ip, t.n, t.at);
    var l1 := log + [Event(t.ip, t.n, t.at)];
    FlagIsInvisible(m1, l1, t.at, t.ip);
    var m2 := if m1[t.ip].hour.bytes >= q.hourly * 1 then m1[t.ip := m1[t.ip].(throttled := true)] else m1;
    if key != "" && key != t.ip {
      AddAgrees(m2, l1, key, t.n, t.at, t.at);
    } else {
      assert l1 + [] == l1;
    }
  }

  lemma {:induction false} PlayedAgrees(q: Quotas, moves: seq<Move>, subnet: string -> string)
    requires Timed(moves)
    ensures Agrees(Played(q, moves, subnet), Logged(TrafficOf(moves), subnet), LastTime(moves))
  {
    hide Start, Total, Agrees, Accounted, Cleaned;
    if moves == [] {
      EmptyAgrees();
    } else {
      var last, rest := moves[|moves| - 1], moves[..|moves| - 1];
      PlayedAgrees(q, rest, subnet);
      var m, ts := Played(q, rest, subnet), TrafficOf(rest);
      match last {
        case Use(t) =>
          AccountedAgrees(q, m, Logged(ts, subnet), LastTime(rest), t, subnet(t.ip));
          assert (ts + [t])[..|ts|] == ts;
        case Sweep(at) =>
          CleanupAgrees(m, Logged(ts, subnet), LastTime(rest), at);
          assert ts + [] == ts;
      }
    }
  }

  /**
   * Whatever traffic of parseable addresses and cleanups came before, a stored subnet bucket reads the sum, over
   * the clients of the subnet, of everything they used in the bucket's current day and hour.
   */
  lemma StoredBucketIsSum(q: Quotas, moves: seq<Move>, subnet: string -> string, b: string, s: set<string>)
    requires Timed(moves) && KeysOpaque(subnet) && ClientsOf(s, TrafficOf(moves), subnet, b)
    requires b != "" && subnet(b) == ""
    requires forall t :: t in TrafficOf(moves) ==> subnet(t.ip) != ""
    requires b in Played(q, moves, subnet)
    ensures var st := Played(q, moves, subnet)[b]; var log := Logged(TrafficOf(moves), subnet);
      && st.day.bytes == SumOver(s, k => Total(log, k, Day, st.day.since))
      && st.hour.bytes == SumOver(s, k => Total(log, k, Hour, st.hour.since))
  {
    hide Start, Total, SumOver, ClientsOf, KeysOpaque, Played, Logged, Direct;
    PlayedAgrees(q, moves, subnet);
    var m := Played(q, moves, subnet);
    assert KeyAgrees(m, Logged(TrafficOf(moves), subnet), b, LastTime(moves));
    SubnetConservation(TrafficOf(moves), subnet, b, s, Day, m[b].day.since);
    SubnetConservation(TrafficOf(moves), subnet, b, s, Hour, m[b].hour.since);
  }

  lemma EmptyAgrees()
    ensures Agrees(map[], [], 0)
  {}

  /** The run so far was timed, and ends no later than `t`. */
  lemma TimedBefore(moves: seq<Move>, t: Traffic)
    requires Timed(moves + [Use(t)])
    ensures Timed(moves) && LastTime(moves) <= t.at
  {
    var all := moves + [Use(t)];
    forall i, j | 0 <= i < j < |moves| ensures At(moves[i]) <= At(moves[j]) {
      assert all[i] == moves[i] && all[j] == moves[j];
    }
    if moves != [] { assert all[|moves| - 1] == moves[|moves| - 1] && all[|moves|] == Use(t); }
  }

  lemma LoggedAppend(ts: seq<Traffic>, t: Traffic, subnet: string -> string)
    ensures Logged(ts + [t], subnet) ==
      Logged(ts, subnet) + [Event(t.ip, t.n, t.at)] +
      if subnet(t.ip) != "" && subnet(t.ip) != t.ip then [Event(subnet(t.ip), t.n, t.at)] else []
  {
    assert (ts + [t])[..|ts|] == ts;
  }

  /** From counters that agree with the log, whether one more use throttles. */
  lemma AccountedThrottles(q: Quotas, m: Table, log: seq<Event>, clock: nat, t: Traffic, b: string)
    requires Agrees(m, log, clock) && clock <= t.at
    ensures var bucket := b != "" && b != t.ip;
      var all := log + [Event(t.ip, t.n, t.at)] + if bucket then [Event(b, t.n, t.at)] else [];
      Accounted(q, m, t.ip, b, t.n, t.at).throttle <==>
        || Total(all, t.ip, Day, Start(Day, t.at)) >= q.daily || Total(all, t.ip, Hour, Start(Hour, t.at)) >= q.hourly
        || (bucket && (Total(all, b, Day, Start(Day, t.at)) >= 4 * q.daily ||
                       Total(all, b, Hour, Start(Hour, t.at)) >= 4 * q.hourly))
  {
    hide Start, Total, Agrees, Counted;
    var l1 := log + [Event(t.ip, t.n, t.at)];
    AddAgrees(m, log, t.ip, t.n, clock, t.at);
    var m1 := Added(m, t.ip, t.n, t.at);
    FlagIsInvisible(m1, l1, t.at, t.ip);
    var m2 := if m1[t.ip].hour.bytes >= q.hourly * 1 then m1[t.ip := m1[t.ip].(throttled := true)] else m1;
    assert q.hourly * 1 == q.hourly && q.daily * 1 == q.daily;
    if b != "" && b != t.ip {
      AddAgrees(m2, l1, b, t.n, t.at, t.at);
      TotalAppend(l1, Event(b, t.n, t.at), t.ip, Day, Start(Day, t.at));
      TotalAppend(l1, Event(b, t.n, t.at), t.ip, Hour, Start(Hour, t.at));
    } else {
      assert l1 + [] == l1;
    }
  }

  /**
   * Over every run: accounting `t` throttles exactly when, with `t` counted, the client's ideal total of the day or
   * hour reaches its quota, or that of its subnet reaches four times the quota.
   */
  lemma ThrottledIff(q: Quotas, moves: seq<Move>, subnet: string -> string, t: Traffic)
    requires Timed(moves + [Use(t)])
    ensures var log, b := Logged(TrafficOf(moves) + [t], subnet), subnet(t.ip);
      Accounted(q, Played(q, moves, subnet), t.ip, b, t.n, t.at).throttle <==>
        || Total(log, t.ip, Day, Start(Day, t.at)) >= q.daily || Total(log, t.ip, Hour, Start(Hour, t.at)) >= q.hourly
        || (b != "" && b != t.ip &&
            (Total(log, b, Day, Start(Day, t.at)) >= 4 * q.daily ||
             Total(log, b, Hour, Start(Hour, t.at)) >= 4 * q.hourly))
  {
    hide Start, Total, Logged, Accounted, Played, Agrees, Timed;
    TimedBefore(moves, t);
    PlayedAgrees(q, moves, subnet);
    LoggedAppend(TrafficOf(moves), t, subnet);
    AccountedThrottles(q, Played(q, moves, subnet), Logged(TrafficOf(moves), subnet), LastTime(moves), t, subnet(t.ip));
  }

  /** Over every run, a tunnel may be opened exactly while the key's ideal total of the day is below the quota. */
  lemma TunnelOpensIff(q: Quotas, moves: seq<Move>, subnet: string -> string, key: string, now: nat)
    requires Timed(moves) && LastTime(moves) <= now && q.daily > 0
    ensures Step(q, Played(q, moves, subnet), CanOpenTunnel(key, now)).1 ==
      MayOpen(Total(Logged(TrafficOf(moves), subnet), key, Day, Start(Day, now)) < q.daily)
  {
    hide Start, Total, Logged, Accounted, Played, Agrees, Timed, DayRolled;
    PlayedAgrees(q, moves, subnet);
    CanOpenAgrees(q, Played(q, moves, subnet), Logged(TrafficOf(moves), subnet), key, LastTime(moves), now);
  }

  /** From a state whose flag agrees with its counter, the metric moves exactly at a crossing, and they agree again. */
  lemma MetricCountsCrossings(q: Quotas, m: Table, log: seq<Event>, clock: nat, ip: string, subnetKey: string,
                              n: nat, now: nat)
    requires Agrees(m, log, clock) && clock <= now && q.hourly > 0
    requires Current(m, ip).throttled <==> Current(m, ip).hour.bytes >= q.hourly
    ensures var r := Accounted(q, m, ip, subnetKey, n, now); var before := Total(log, ip, Hour, Start(Hour, now));
      && (r.crossed <==> before < q.hourly <= before + n)
      && (subnetKey != ip ==> (r.table[ip].throttled <==> r.table[ip].hour.bytes >= q.hourly))
  {
    hide Total;
    AddAgrees(m, log, ip, n, clock, now);
    TotalAppend(log, Event(ip, n, now), ip, Hour, Start(Hour, now));
    assert KeyAgrees(m, log, ip, clock);
    RolledNow(m, log, ip, clock, now);
    hide Start, Agrees, KeyAgrees, Mirrors;
    assert q.hourly * 1 == q.hourly;
  }

  /** The flag of every client address agrees with its hourly counter. */
  ghost predicate FlagsAgree(q: Quotas, m: Table, subnet: string -> string) {
    forall k :: k in m && subnet(k) != "" ==> FlagAgrees(q, m[k])
  }

  predicate FlagAgrees(q: Quotas, st: State) {
    st.throttled <==> st.hour.bytes >= q.hourly
  }

  /** Subnet buckets carry no flag of their own, and a client's flag is set and cleared with its counter. */
  lemma AccountedKeepsFlags(q: Quotas, m: Table, subnet: string -> string, t: Traffic)
    requires FlagsAgree(q, m, subnet) && KeysOpaque(subnet) && q.hourly > 0 && t.n >= 0
    ensures FlagsAgree(q, Accounted(q, m, t.ip, subnet(t.ip), t.n, t.at).table, subnet)
  {
    hide Start, FlagAgrees, DayRolled;
    assert subnet(t.ip) == "" || subnet(subnet(t.ip)) == "";
    var st := Counted(Current(m, t.ip), t.n, t.at);
    assert q.hourly * 1 == q.hourly;
    if subnet(t.ip) != "" {
      assert FlagAgrees(q, Current(m, t.ip)) by { FreshFlagAgrees(q); }
      CountedFlag(q, Current(m, t.ip), t.n, t.at);
    }
  }

  lemma FreshFlagAgrees(q: Quotas)
    requires q.hourly > 0
    ensures FlagAgrees(q, FRESH)
  {}

  lemma CountedFlag(q: Quotas, st: State, n: int, now: nat)
    requires FlagAgrees(q, st) && q.hourly > 0 && n >= 0
    ensures var c := Counted(st, n, now);
      FlagAgrees(q, if c.hour.bytes >= q.hourly then c.(throttled := true) else c)
  {
    hide Start;
  }

  lemma {:induction false} PlayedFlags(q: Quotas, moves: seq<Move>, subnet: string -> string)
    requires KeysOpaque(subnet) && q.hourly > 0 && forall t :: t in TrafficOf(moves) ==> t.n >= 0
    ensures FlagsAgree(q, Played(q, moves, subnet), subnet)
  {
    hide Accounted, KeysOpaque, Start;
    if moves != [] {
      var last, rest := moves[|moves| - 1], moves[..|moves| - 1];
      assert forall t :: t in TrafficOf(rest) ==> t in TrafficOf(moves);
      PlayedFlags(q, rest, subnet);
      if last.Use? {
        assert last.t in TrafficOf(moves);
        AccountedKeepsFlags(q, Played(q, rest, subnet), subnet, last.t);
      }
    }
  }

  /**
   * The hourly metric, over every run: accounting `t` moves it exactly when the client's ideal total of the hour is
   * below the quota before and reaches it with `t`.
   */
  lemma MetricCountsFirstCrossings(q: Quotas, moves: seq<Move>, subnet: string -> string, t: Traffic)
    requires Timed(moves + [Use(t)]) && KeysOpaque(subnet) && q.hourly > 0 && subnet(t.ip) != "" && t.n >= 0
    requires forall u :: u in TrafficOf(moves) ==> u.n >= 0
    ensures var before := Total(Logged(TrafficOf(moves), subnet), t.ip, Hour, Start(Hour, t.at));
      var r := Accounted(q, Played(q, moves, subnet), t.ip, subnet(t.ip), t.n, t.at);
      r.crossed <==> before < q.hourly <= before + t.n
  {
    TimedBefore(moves, t);
    hide Start, Total, Logged, Accounted, KeysOpaque, Played, Agrees;
    PlayedAgrees(q, moves, subnet);
    PlayedFlags(q, moves, subnet);
    var m := Played(q, moves, subnet);
    assert FlagAgrees(q, Current(m, t.ip)) by { FreshFlagAgrees(q); }
    MetricCountsCrossings(q, m, Logged(TrafficOf(moves), subnet), LastTime(moves), t.ip, subnet(t.ip), t.n, t.at);
  }
}
