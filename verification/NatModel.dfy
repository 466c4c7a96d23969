/** The NAT table as a map from flows to ports over a bounded pool: the reference the running table refines. */
module NatModel {
  import opened Bytes
  import opened Packet
  import opened TupleKey

  const PORT_MIN: u16 := 10000
  const PORT_MAX: u16 := 60000
  const PORTS: nat := PORT_MAX - PORT_MIN + 1
  const TTL_TCP: int := 300_000_000_000
  const TTL_UDP: int := 120_000_000_000

  datatype Binding = Binding(port: u16, lastSeen: int)

  /** Live bindings, the stack of free ports (top last), and whether shutdown began. */
  datatype Table = Table(entries: map<Flow, Binding>, free: seq<u16>, stopped: bool)

  function TTL(proto: u8): (d: int) {
    if proto == TCP then TTL_TCP else TTL_UDP
  }

  predicate Expired(f: Flow, b: Binding, now: int) {
    now - b.lastSeen > TTL(f.proto)
  }

  /** Why a pass over the table removes entries. */
  datatype Reason = Stale(now: int) | Session(id: string) | Everything

  predicate Doomed(f: Flow, b: Binding, why: Reason) {
    match why
    case Stale(now) => Expired(f, b, now)
    case Session(id) => f.session == id
    case Everything => true
  }

  function Evict(t: Table, f: Flow): (r: Table)
    requires f in t.entries
  {
    t.(entries := t.entries - {f}, free := t.free + [t.entries[f].port])
  }

  /** One pass over the table in iteration order `order`. */
  function Pass(t: Table, order: seq<Flow>, why: Reason): (r: Table)
    decreases |order|
  {
    if order == [] then t
    else
      var f := order[0];
      Pass(if f in t.entries && Doomed(f, t.entries[f], why) then Evict(t, f) else t, order[1..], why)
  }

  lemma PassUnfold(t: Table, order: seq<Flow>, why: Reason)
    ensures order != [] ==>
      var f := order[0];
      var r := if f in t.entries && Doomed(f, t.entries[f], why) then Evict(t, f) else t;
      Pass(t, order, why) == Pass(r, order[1..], why)
    ensures order == [] ==> Pass(t, order, why) == t
  {}

  /** `order` visits every entry of `t` exactly once. */
  ghost predicate Visits(order: seq<Flow>, t: Table) {
    && (forall f :: f in order <==> f in t.entries)
    && (forall i, j :: 0 <= i < j < |order| ==> order[i] != order[j])
  }

  // ---------- the operations ----------

  /** What the environment decides during one Translate: clock readings, dial outcome, sweep order. */
  datatype Env = Env(sweepNow: int, now: int, dialOk: bool, order: seq<Flow>)

  function Touch(t: Table, f: Flow, now: int): (r: Table)
    requires f in t.entries
  {
    t.(entries := t.entries[f := t.entries[f].(lastSeen := now)])
  }

  function SweptIfFull(t: Table, env: Env): (r: Table) {
    if t.free == [] then Pass(t, env.order, Stale(env.sweepNow)) else t
  }

  /** Outbound translation of an accepted packet of flow `f`: the port it leaves from, or the error. */
  function Translate(t: Table, f: Flow, env: Env): (r: (Table, Result<u16>))
  {
    if t.stopped then (t, Err(ShuttingDown))
    else if f in t.entries then (Touch(t, f, env.now), Ok(t.entries[f].port))
    else
      var s := SweptIfFull(t, env);
      if s.free == [] then (s, Err(PortExhausted))
      else if !env.dialOk then (s, Err(DialFailed))
      else
        var port := s.free[|s.free| - 1];
        (s.(entries := s.entries[f := Binding(port, env.now)], free := s.free[..|s.free| - 1]), Ok(port))
  }

  /** `f` is the flow bound to `port`. */
  ghost predicate Owns(t: Table, f: Flow, port: u16) {
    f in t.entries && t.entries[f].port == port
  }

  datatype Op =
    | DoTranslate(flow: Flow, env: Env)
    | DoReverse(port: u16, now: int)
    | DoPass(order: seq<Flow>, why: Reason)
    | DoShutdown(order: seq<Flow>)

  /** Reverse lookup: the flow a reply to `port` belongs to, if any. */
  ghost function Reverse(t: Table, port: u16): (r: Option<Flow>) {
    if exists f :: Owns(t, f, port) then (var f :| Owns(t, f, port); Some(f)) else None
  }

  /** One operation-sized step; a reply refreshes the entry it belongs to. */
  ghost function Step(t: Table, op: Op): (r: Table) {
    match op
    case DoTranslate(f, env) => Translate(t, f, env).0
    case DoReverse(port, now) => var owner := Reverse(t, port); if owner.Some? then Touch(t, owner.value, now) else t
    case DoPass(order, why) => Pass(t, order, why)
    case DoShutdown(order) => Pass(t.(stopped := true), order, Everything)
  }

  /** The table after each prefix of a run; the last one is where the run ends. */
  ghost function Run(t: Table, ops: seq<Op>): (r: Table)
    decreases |ops|
  {
    if ops == [] then t else Run(Step(t, ops[0]), ops[1..])
  }

  // ---------- the invariant ----------

  ghost function PortsOf(m: map<Flow, Binding>): (s: set<u16>) {
    set f | f in m :: m[f].port
  }

  ghost function Ports(t: Table): (s: set<u16>) {
    PortsOf(t.entries)
  }

  predicate InRange(p: u16) {
    PORT_MIN <= p <= PORT_MAX
  }

  ghost predicate NoDup(s: seq<u16>) {
    forall i, j :: 0 <= i < j < |s| ==> s[i] != s[j]
  }

  ghost predicate DistinctPorts(t: Table) {
    forall f, g :: f in t.entries && g in t.entries && t.entries[f].port == t.entries[g].port ==> f == g
  }

  /** Every port of the range is either free, once, or bound to exactly one flow. */
  ghost predicate Inv(t: Table) {
    && NoDup(t.free) && DistinctPorts(t)
    && (forall f :: f in t.entries ==> t.entries[f].port !in t.free)
    && (forall p :: p in t.free ==> InRange(p))
    && (forall f :: f in t.entries ==> InRange(t.entries[f].port))
    && (forall p :: InRange(p) ==> p in t.free || p in Ports(t))
  }

  lemma EvictKeeps(t: Table, f: Flow)
    requires Inv(t) && f in t.entries
    ensures Inv(Evict(t, f))
  {
    var r := Evict(t, f);
    forall p: u16 | InRange(p) ensures p in r.free || p in Ports(r) {
      if p in t.free {
        assert r.free[..|t.free|] == t.free;
      } else if p == t.entries[f].port {
        assert r.free[|t.free|] == p;
      } else {
        var g :| g in t.entries && t.entries[g].port == p;
        assert g in r.entries;
      }
    }
  }

  lemma {:induction false} PassKeepsInv(t: Table, order: seq<Flow>, why: Reason)
    requires Inv(t)
    ensures Inv(Pass(t, order, why)) && Pass(t, order, why).stopped == t.stopped && t.free <= Pass(t, order, why).free
    decreases |order|
  {
    hide Inv, Doomed;
    if order != [] {
      var f := order[0];
      if f in t.entries && Doomed(f, t.entries[f], why) {
        EvictKeeps(t, f);
        PassKeepsInv(Evict(t, f), order[1..], why);
      } else {
        PassKeepsInv(t, order[1..], why);
      }
    }
  }

  lemma {:induction false} PassRemoves(t: Table, order: seq<Flow>, why: Reason, f: Flow)
    ensures f in Pass(t, order, why).entries <==> f in t.entries && !(f in order && Doomed(f, t.entries[f], why))
    ensures f in Pass(t, order, why).entries ==> Pass(t, order, why).entries[f] == t.entries[f]
    decreases |order|
  {
    hide Doomed;
    if order != [] {
      var g := order[0];
      assert f in order <==> f == g || f in order[1..];
      PassRemoves(if g in t.entries && Doomed(g, t.entries[g], why) then Evict(t, g) else t, order[1..], why, f);
    }
  }

  /** A pass keeps the invariant and removes exactly the doomed entries, whatever the order. */
  lemma PassKeeps(t: Table, order: seq<Flow>, why: Reason)
    requires Inv(t)
    ensures var r := Pass(t, order, why);
      && Inv(r) && r.stopped == t.stopped && t.free <= r.free
      && r.entries == (map f | f in t.entries && !(f in order && Doomed(f, t.entries[f], why)) :: t.entries[f])
  {
    hide Inv, Doomed, Pass;
    PassKeepsInv(t, order, why);
    forall f ensures
      && (f in Pass(t, order, why).entries <==> f in t.entries && !(f in order && Doomed(f, t.entries[f], why)))
      && (f in Pass(t, order, why).entries ==> Pass(t, order, why).entries[f] == t.entries[f])
    {
      PassRemoves(t, order, why, f);
    }
  }

  lemma TouchKeeps(t: Table, f: Flow, now: int)
    requires Inv(t) && f in t.entries
    ensures Inv(Touch(t, f, now))
  {
    var r := Touch(t, f, now);
    forall p | p in Ports(t) ensures p in Ports(r) {
      var g :| g in t.entries && t.entries[g].port == p;
      assert r.entries[g].port == p;
    }
  }

  lemma BindKeeps(t: Table, f: Flow, now: int)
    requires Inv(t) && f !in t.entries && t.free != []
    ensures var port := t.free[|t.free| - 1];
      Inv(t.(entries := t.entries[f := Binding(port, now)], free := t.free[..|t.free| - 1]))
  {
    var n := |t.free| - 1;
    var port := t.free[n];
    var r := t.(entries := t.entries[f := Binding(port, now)], free := t.free[..n]);
    forall p: u16 | InRange(p) ensures p in r.free || p in Ports(r) {
      if p in t.free {
        var i :| 0 <= i < |t.free| && t.free[i] == p;
        assert if i == n then r.entries[f].port == p else r.free[i] == p;
      } else {
        var g :| g in t.entries && t.entries[g].port == p;
        assert r.entries[g].port == p;
      }
    }
  }

  lemma TranslateKeeps(t: Table, f: Flow, env: Env)
    requires Inv(t)
    ensures Inv(Translate(t, f, env).0)
  {
    hide Inv, Pass;
    if !t.stopped {
      if f in t.entries {
        TouchKeeps(t, f, env.now);
      } else {
        PassKeeps(t, env.order, Stale(env.sweepNow));
        var s := SweptIfFull(t, env);
        if s.free != [] {
          BindKeeps(s, f, env.now);
        }
      }
    }
  }

  lemma StepKeeps(t: Table, op: Op)
    requires Inv(t)
    ensures Inv(Step(t, op))
  {
    hide Inv, Pass, Translate;
    match op
    case DoTranslate(f, env) => TranslateKeeps(t, f, env);
    case DoReverse(port, now) =>
      var owner := Reverse(t, port);
      if owner.Some? { TouchKeeps(t, owner.value, now); }
    case DoPass(order, why) => PassKeeps(t, order, why);
    case DoShutdown(order) =>
      InvIgnoresStopped(t);
      PassKeeps(t.(stopped := true), order, Everything);
  }

  lemma InvIgnoresStopped(t: Table)
    requires Inv(t)
    ensures Inv(t.(stopped := true))
  {
    assert Ports(t.(stopped := true)) == Ports(t);
  }

  /** The invariant holds at the end of every run. */
  lemma {:induction false} RunKeeps(t: Table, ops: seq<Op>)
    requires Inv(t)
    ensures Inv(Run(t, ops))
    decreases |ops|
  {
    if ops != [] {
      StepKeeps(t, ops[0]);
      RunKeeps(Step(t, ops[0]), ops[1..]);
    }
  }

  /** A fresh table over any arrangement of the whole range satisfies the invariant. */
  lemma FreshTable(free: seq<u16>)
    requires NoDup(free) && forall p :: p in free <==> InRange(p)
    ensures Inv(Table(map[], free, false))
  {}

  // ---------- what the passes and translation mean ----------

  /** How long, in nanoseconds, an idle flow keeps its entry: 300 s for TCP (protocol 6), 120 s otherwise. */
  function IdleLimit(proto: u8): (d: int)
    ensures d == if proto == 6 then 300_000_000_000 else 120_000_000_000
  {
    TTL(proto)
  }

  /** A sweep at `now` keeps exactly the entries that have not been idle beyond their limit, as they were. */
  lemma SweepExact(t: Table, order: seq<Flow>, now: int)
    requires Inv(t) && Visits(order, t)
    ensures var r := Pass(t, order, Stale(now));
      && (forall f :: f in r.entries <==> f in t.entries && now - t.entries[f].lastSeen <= IdleLimit(f.proto))
      && (forall f :: f in r.entries ==> r.entries[f] == t.entries[f])
  {
    hide Inv, Pass;
    PassKeeps(t, order, Stale(now));
  }

  /** The end of a session removes exactly its own flows; the others keep port and time. */
  lemma SessionEndExact(t: Table, order: seq<Flow>, session: string)
    requires Inv(t) && Visits(order, t)
    ensures var r := Pass(t, order, Session(session));
      && (forall f :: f in r.entries <==> f in t.entries && f.session != session)
      && (forall f :: f in r.entries ==> r.entries[f] == t.entries[f])
  {
    hide Inv, Pass;
    PassKeeps(t, order, Session(session));
  }

  /** Some entry has been idle beyond its limit, so that a sweep frees a port. */
  ghost predicate SomeIdle(t: Table, now: int) {
    exists g :: g in t.entries && now - t.entries[g].lastSeen > IdleLimit(g.proto)
  }

  /**
   * The four outcomes of a translation, by what holds before it. On success the flow owns the port, seen just now; a
   * bound flow keeps its port, and no other surviving entry has changed.
   */
  lemma TranslateOutcome(t: Table, f: Flow, env: Env)
    requires Inv(t) && Visits(env.order, t)
    ensures var (u, r) := Translate(t, f, env);
      var room := |t.entries| < PORTS || SomeIdle(t, env.sweepNow);
      && r == (if t.stopped then Err(ShuttingDown)
               else if f in t.entries then Ok(t.entries[f].port)
               else if !room then Err(PortExhausted)
               else if !env.dialOk then Err(DialFailed)
               else r)
      && (r.Ok? <==> !t.stopped && (f in t.entries || (room && env.dialOk)))
      && (r.Ok? ==> f in u.entries && u.entries[f] == Binding(r.value, env.now))
      && (forall g :: g in u.entries && g != f ==> g in t.entries && u.entries[g] == t.entries[g])
      && (r.Err? && f !in t.entries ==> f !in u.entries)
      && (forall g :: g in t.entries && g !in u.entries ==>
            |t.entries| == PORTS && env.sweepNow - t.entries[g].lastSeen > IdleLimit(g.proto))
  {
    hide Inv, Pass;
    PortsConserved(t);
    ExhaustedIff(t, f, env);
    if t.free == [] {
      SweepExact(t, env.order, env.sweepNow);
    }
  }

  /** The step neither closes flow `f` nor reads a clock before `now` or sweeps after `until`. */
  predicate Spares(op: Op, f: Flow, now: int, until: int) {
    match op
    case DoTranslate(_, env) => env.sweepNow <= until && env.now >= now
    case DoReverse(_, at) => at >= now
    case DoPass(_, Stale(at)) => at <= until
    case DoPass(_, Session(id)) => id != f.session
    case _ => false
  }

  lemma SparedStep(t: Table, op: Op, f: Flow, now: int)
    requires Inv(t) && f in t.entries && t.entries[f].lastSeen >= now
    requires Spares(op, f, now, now + IdleLimit(f.proto))
    ensures f in Step(t, op).entries && Step(t, op).entries[f].lastSeen >= now
  {
    hide Inv, Pass;
    match op
    case DoTranslate(_, env) => PassKeeps(t, env.order, Stale(env.sweepNow));
    case DoReverse(_, _) =>
    case DoPass(order, why) => PassKeeps(t, order, why);
  }

  /** A flow seen at `now` lives through every run that sweeps no later than its idle limit after that. */
  lemma {:induction false} SeenLivesOn(t: Table, ops: seq<Op>, f: Flow, now: int)
    requires Inv(t) && f in t.entries && t.entries[f].lastSeen >= now
    requires forall op :: op in ops ==> Spares(op, f, now, now + IdleLimit(f.proto))
    ensures LivesThrough(t, ops, f)
    decreases |ops|
  {
    hide Inv, Step, Spares;
    if ops != [] {
      StepKeeps(t, ops[0]);
      assert ops[0] in ops && forall op :: op in ops[1..] ==> op in ops;
      SparedStep(t, ops[0], f, now);
      SeenLivesOn(Step(t, ops[0]), ops[1..], f, now);
    }
  }

  // ---------- exhaustion ----------

  /** The integers from `lo` to `hi`. */
  ghost function Interval(lo: int, hi: int): (s: set<int>)
    requires lo <= hi + 1
    ensures forall p :: p in s <==> lo <= p <= hi
    ensures |s| == hi - lo + 1
    decreases hi - lo
  {
    if lo > hi then {} else Interval(lo, hi - 1) + {hi}
  }

  ghost function Elems(s: seq<u16>): (e: set<u16>) {
    set p | p in s
  }

  lemma {:induction false} NoDupSize(s: seq<u16>)
    requires NoDup(s)
    ensures |Elems(s)| == |s|
  {
    if s == [] {
      assert Elems(s) == {};
    } else {
      NoDupSize(s[1..]);
      assert s[0] !in Elems(s[1..]);
      assert Elems(s) == Elems(s[1..]) + {s[0]};
    }
  }

  ghost function PortsOver(m: map<Flow, Binding>, fs: set<Flow>): (s: set<u16>)
    requires fs <= m.Keys
  {
    set f | f in fs :: m[f].port
  }

  lemma {:induction false} PortsSize(m: map<Flow, Binding>, fs: set<Flow>)
    requires fs <= m.Keys
    requires forall f, g :: f in fs && g in fs && m[f].port == m[g].port ==> f == g
    ensures |PortsOver(m, fs)| == |fs|
  {
    if fs == {} {
      assert PortsOver(m, fs) == {};
    } else {
      var f :| f in fs;
      var rest := fs - {f};
      PortsSize(m, rest);
      assert m[f].port !in PortsOver(m, rest);
      assert PortsOver(m, fs) == PortsOver(m, rest) + {m[f].port};
    }
  }

  lemma CoverSize(a: set<int>, b: set<int>, lo: int, hi: int)
    requires lo <= hi + 1 && a * b == {}
    requires forall p :: lo <= p <= hi <==> p in a || p in b
    ensures |a| + |b| == hi - lo + 1
  {
    assert a + b == Interval(lo, hi);
    assert |a + b| == |a| + |b|;
  }

  /** Free ports plus live entries always number 50001. */
  lemma PortsConserved(t: Table)
    requires Inv(t)
    ensures |t.free| + |t.entries| == PORTS
  {
    NoDupSize(t.free);
    PortsSize(t.entries, t.entries.Keys);
    assert PortsOver(t.entries, t.entries.Keys) == Ports(t);
    PortsCover(t);
    hide Inv, Ports, PortsOver, NoDup;
    CoverSize(Elems(t.free), Ports(t), PORT_MIN, PORT_MAX);
  }

  lemma PortsCover(t: Table)
    requires Inv(t)
    ensures Elems(t.free) * Ports(t) == {}
    ensures forall p :: PORT_MIN <= p <= PORT_MAX <==> p in Elems(t.free) || p in Ports(t)
  {
    assert forall p: int :: PORT_MIN <= p <= PORT_MAX ==> InRange(p);
  }

  /**
   * Translate reports exhaustion exactly when the flow is new, all 50001 ports are bound,
   * and every one of them to an entry still within its TTL.
   */
  lemma ExhaustedIff(t: Table, f: Flow, env: Env)
    requires Inv(t) && Visits(env.order, t)
    ensures Translate(t, f, env).1 == Err(PortExhausted) <==>
      && !t.stopped && f !in t.entries && |t.entries| == PORTS
      && forall g :: g in t.entries ==> !Expired(g, t.entries[g], env.sweepNow)
  {
    hide Inv, Pass;
    PortsConserved(t);
    if t.free == [] {
      PassKeeps(t, env.order, Stale(env.sweepNow));
      var s := SweptIfFull(t, env);
      PortsConserved(s);
      assert s.entries.Keys <= t.entries.Keys;
      if s.free == [] {
        SubsetSameSize(s.entries.Keys, t.entries.Keys);
      } else {
        assert s.entries.Keys != t.entries.Keys;
      }
    }
  }

  lemma SubsetSameSize<T>(a: set<T>, b: set<T>)
    requires a <= b && |a| == |b|
    ensures a == b
  {
    assert b == a + (b - a);
  }

  /** A failed dial binds nothing: no entry is added or changed and no port is lost. */
  lemma DialFailureHarmless(t: Table, f: Flow, env: Env)
    requires Inv(t) && Translate(t, f, env).1 == Err(DialFailed)
    ensures Translate(t, f, env).0 == SweptIfFull(t, env)
    ensures t.free != [] ==> Translate(t, f, env).0 == t
    ensures |Translate(t, f, env).0.free| + |Translate(t, f, env).0.entries| == PORTS
  {
    TranslateKeeps(t, f, env);
    PortsConserved(Translate(t, f, env).0);
  }

  // ---------- round trip ----------

  /** A binding that survives a step keeps its port. */
  lemma StepKeepsPort(t: Table, op: Op, f: Flow)
    requires Inv(t) && f in t.entries && f in Step(t, op).entries
    ensures Step(t, op).entries[f].port == t.entries[f].port
  {
    match op
    case DoTranslate(g, env) =>
      PassKeeps(t, env.order, Stale(env.sweepNow));
    case DoReverse(port, now) =>
    case DoPass(order, why) => PassKeeps(t, order, why);
    case DoShutdown(order) =>
      InvIgnoresStopped(t);
      PassKeeps(t.(stopped := true), order, Everything);
  }

  /** The flow is bound before and after every step of the run. */
  ghost predicate LivesThrough(t: Table, ops: seq<Op>, f: Flow)
    decreases |ops|
  {
    f in t.entries && (ops == [] || LivesThrough(Step(t, ops[0]), ops[1..], f))
  }

  lemma {:induction false} RunKeepsPort(t: Table, ops: seq<Op>, f: Flow)
    requires Inv(t) && LivesThrough(t, ops, f)
    ensures Owns(Run(t, ops), f, t.entries[f].port)
    decreases |ops|
  {
    if ops != [] {
      StepKeeps(t, ops[0]);
      StepKeepsPort(t, ops[0], f);
      RunKeepsPort(Step(t, ops[0]), ops[1..], f);
    }
  }

  /**
   * After Translate answered port `p` for flow `f`, and for as long as the entry lives,
   * `f` is the one and only owner of `p`: replies to `p` go back to `f`'s client.
   */
  lemma ReplyReachesClient(t: Table, f: Flow, env: Env, ops: seq<Op>)
    requires Inv(t) && Translate(t, f, env).1.Ok?
    requires LivesThrough(Translate(t, f, env).0, ops, f)
    ensures var p := Translate(t, f, env).1.value; var u := Run(Translate(t, f, env).0, ops);
      Owns(u, f, p) && Reverse(u, p) == Some(f)
  {
    var t' := Translate(t, f, env).0;
    TranslateKeeps(t, f, env);
    assert t'.entries[f].port == Translate(t, f, env).1.value;
    RunKeepsPort(t', ops, f);
    RunKeeps(t', ops);
  }

  /**
   * For its idle limit after a packet left, or a reply came back, at `now`, the flow keeps its port and replies
   * to it reach the client, whatever else goes on in the table.
   */
  lemma ReplyWithinLimit(t: Table, f: Flow, env: Env, ops: seq<Op>)
    requires Inv(t) && Translate(t, f, env).1.Ok?
    requires forall op :: op in ops ==> Spares(op, f, env.now, env.now + IdleLimit(f.proto))
    ensures var p := Translate(t, f, env).1.value; var u := Run(Translate(t, f, env).0, ops);
      Owns(u, f, p) && Reverse(u, p) == Some(f)
  {
    hide Inv, Pass, Spares, Run, IdleLimit;
    TranslateKeeps(t, f, env);
    assert f in Translate(t, f, env).0.entries && Translate(t, f, env).0.entries[f].lastSeen == env.now;
    SeenLivesOn(Translate(t, f, env).0, ops, f, env.now);
    ReplyReachesClient(t, f, env, ops);
  }

  lemma ReplyKeepsAlive(t: Table, f: Flow, now: int, ops: seq<Op>)
    requires Inv(t) && f in t.entries
    requires forall op :: op in ops ==> Spares(op, f, now, now + IdleLimit(f.proto))
    ensures Owns(Run(Step(t, DoReverse(t.entries[f].port, now)), ops), f, t.entries[f].port)
  {
    hide NoDup, Pass, Spares, Run, IdleLimit;
    var p := t.entries[f].port;
    assert Owns(t, f, p);
    assert Reverse(t, p) == Some(f);
    hide Inv;
    TouchKeeps(t, f, now);
    SeenLivesOn(Touch(t, f, now), ops, f, now);
    RunKeepsPort(Touch(t, f, now), ops, f);
  }

  /** After shutdown nothing is bound, every port is free, and no run binds anything again. */
  lemma {:induction false} ShutdownIsFinal(t: Table, ops: seq<Op>)
    requires Inv(t) && t.stopped && t.entries == map[]
    ensures Run(t, ops).entries == map[] && Run(t, ops).stopped
    decreases |ops|
  {
    if ops != [] {
      StepKeeps(t, ops[0]);
      match ops[0] {
        case DoTranslate(f, env) =>
        case DoReverse(port, now) =>
        case DoPass(order, why) => PassKeeps(t, order, why);
        case DoShutdown(order) => PassKeeps(t, order, Everything); assert t.(stopped := true) == t;
      }
      ShutdownIsFinal(Step(t, ops[0]), ops[1..]);
    }
  }

  lemma ShutdownEmpties(t: Table, order: seq<Flow>)
    requires Inv(t) && Visits(order, t)
    ensures var u := Step(t, DoShutdown(order));
      u.stopped && u.entries == map[] && |u.free| == PORTS
  {
    hide Inv, Pass;
    InvIgnoresStopped(t);
    PassKeeps(t.(stopped := true), order, Everything);
    PortsConserved(Step(t, DoShutdown(order)));
  }
}
