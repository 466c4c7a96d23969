/** The running NAT table: two indexes over shared entries, a port pool and two counters. */
module NatTable {
  import opened Bytes
  import opened Packet
  import PacketOps
  import opened TupleKey
  import opened NatModel
  import opened PortPool

  /** Destinations the relay refuses: loopback, private, link-local, multicast, unspecified, broadcast. */
  predicate IsBlockedIP(ip: IP) {
    || ip[0] == 127
    || ip[0] == 10 || (ip[0] == 172 && 16 <= ip[1] < 32) || (ip[0] == 192 && ip[1] == 168)
    || (ip[0] == 169 && ip[1] == 254)
    || 224 <= ip[0] < 240
    || ip == [0, 0, 0, 0] || ip == [255, 255, 255, 255]
  }

  /** The address as the number its four bytes write. */
  function AddressNumber(ip: IP): (n: int) {
    var a: int, b: int, c: int, d: int := ip[0], ip[1], ip[2], ip[3];
    ((a * 256 + b) * 256 + c) * 256 + d
  }

  /** The refused addresses are the two all-zero and all-one ones and seven blocks of consecutive numbers. */
  lemma BlockedRanges(ip: IP)
    ensures var n := AddressNumber(ip);
      IsBlockedIP(ip) <==>
        || n == 0 || n == 0xffff_ffff
        || 0x0a00_0000 <= n <= 0x0aff_ffff  // 10.0.0.0/8
        || 0x7f00_0000 <= n <= 0x7fff_ffff  // 127.0.0.0/8
        || 0xa9fe_0000 <= n <= 0xa9fe_ffff  // 169.254.0.0/16
        || 0xac10_0000 <= n <= 0xac1f_ffff  // 172.16.0.0/12
        || 0xc0a8_0000 <= n <= 0xc0a8_ffff  // 192.168.0.0/16
        || 0xe000_0000 <= n <= 0xefff_ffff  // 224.0.0.0/4
  {
    assert ip == [ip[0], ip[1], ip[2], ip[3]];
  }

  function FlowOf(session: string, p: Parsed): (f: Flow) {
    Flow(session, p.srcIP, p.srcPort, p.dstIP, p.dstPort, p.proto)
  }

  /** Two packets are of one flow exactly when session, addresses, ports and protocol all agree. */
  lemma FlowIdentifies(s: string, t: string, p: Parsed, q: Parsed)
    ensures FlowOf(s, p) == FlowOf(t, q) <==>
      && s == t && p.srcIP == q.srcIP && p.srcPort == q.srcPort
      && p.dstIP == q.dstIP && p.dstPort == q.dstPort && p.proto == q.proto
  {}

  /**
   * A client packet leaves from relayIP:port; while the entry lives, whatever else the table does,
   * a reply to that port is readdressed to the client and handed to the client's session.
   */
  lemma ReplyRoundTrip(t: Table, session: string, b: seq<u8>, p: Parsed, relayIP: IP, env: Env, ops: seq<Op>,
                       reply: seq<u8>, q: Parsed)
    requires Inv(t) && ParseIPv4(b) == Ok(p) && ParseIPv4(reply) == Ok(q)
    requires var (t', r) := Translate(t, FlowOf(session, p), env);
      r.Ok? && LivesThrough(t', ops, FlowOf(session, p)) && q.dstPort == r.value
    ensures var (t', r) := Translate(t, FlowOf(session, p), env);
      var sent := SourceRewritten(b, p, relayIP, r.value);
      var f := FlowOf(session, p);
      var back := DestRewritten(reply, q, f.srcIP, f.srcPort);
      && ParseIPv4(sent) == Ok(p.(srcIP := relayIP, srcPort := r.value))
      && Reverse(Run(t', ops), q.dstPort) == Some(f) && f.session == session
      && ParseIPv4(back) == Ok(q.(dstIP := p.srcIP, dstPort := p.srcPort))
      && ChecksumsHold(sent, p) && ChecksumsHold(back, q) && Payload(back, q) == Payload(reply, q)
  {
    hide Inv, ParseIPv4, SourceRewritten, DestRewritten, ChecksumsHold, Translate, Run, LivesThrough;
    var f := FlowOf(session, p);
    ReplyReachesClient(t, f, env, ops);
    SourceRewrittenParses(b, p, relayIP, Translate(t, f, env).1.value);
    DestRewrittenParses(reply, q, f.srcIP, f.srcPort);
  }

  lemma VisitsIgnoresStopped(order: seq<Flow>, t: Table)
    requires Visits(order, t)
    ensures Visits(order, t.(stopped := true))
  {}

  class NatEntry {
    const flow: Flow
    const natPort: u16
    var lastSeen: int

    /** The relay has not closed the entry's socket. */
    var open: bool

    constructor (flow: Flow, natPort: u16, now: int)
      ensures this.flow == flow && this.natPort == natPort && lastSeen == now && open
    {
      this.flow, this.natPort, lastSeen, open := flow, natPort, now, true;
    }
  }

  lemma MapRemoveSize<K, V>(m: map<K, V>, k: K)
    requires k in m
    ensures |m - {k}| == |m| - 1
  {
    assert (m - {k}).Keys == m.Keys - {k};
    assert |m| == |m.Keys| && |m - {k}| == |(m - {k}).Keys|;
  }

  lemma MapAddSize<K, V>(m: map<K, V>, k: K, v: V)
    requires k !in m
    ensures |m[k := v]| == |m| + 1
  {
    assert m[k := v].Keys == m.Keys + {k};
    assert |m| == |m.Keys| && |m[k := v]| == |m[k := v].Keys|;
  }

  /** The string index files each live entry once, under its own flow's key. */
  ghost predicate TupleIndex(tuples: map<KeyText, NatEntry>, bindings: map<Flow, NatEntry>) {
    && (forall f :: f in bindings ==> bindings[f].flow == f && Key(f) in tuples && tuples[Key(f)] == bindings[f])
    && (forall k :: k in tuples ==>
          k == Key(tuples[k].flow) && tuples[k].flow in bindings && bindings[tuples[k].flow] == tuples[k])
  }

  /** The port index files each live entry once, under its own port. */
  ghost predicate PortIndex(ports: map<u16, NatEntry>, bindings: map<Flow, NatEntry>) {
    && (forall f :: f in bindings ==>
          bindings[f].flow == f && bindings[f].natPort in ports && ports[bindings[f].natPort] == bindings[f])
    && (forall p :: p in ports ==>
          ports[p].natPort == p && ports[p].flow in bindings && bindings[ports[p].flow] == ports[p])
  }

  /** The string index finds a key exactly when the flow itself is bound. */
  lemma LookupExact(tuples: map<KeyText, NatEntry>, bindings: map<Flow, NatEntry>, f: Flow)
    requires TupleIndex(tuples, bindings)
    ensures Key(f) in tuples <==> f in bindings
    ensures f in bindings ==> tuples[Key(f)] == bindings[f] && bindings[f].flow == f
  {
    hide Key;
    if Key(f) in tuples {
      KeyInjective(tuples[Key(f)].flow, f);
    }
  }

  lemma FiledEntry(tuples: map<KeyText, NatEntry>, ports: map<u16, NatEntry>, bindings: map<Flow, NatEntry>,
                   key: KeyText)
    requires TupleIndex(tuples, bindings) && PortIndex(ports, bindings) && key in tuples
    ensures var e := tuples[key];
      e.flow in bindings && bindings[e.flow] == e && key == Key(e.flow) && e.natPort in ports
  {
    hide Key;
  }

  lemma TupleIndexRemove(tuples: map<KeyText, NatEntry>, bindings: map<Flow, NatEntry>, f: Flow)
    requires TupleIndex(tuples, bindings) && f in bindings
    ensures TupleIndex(tuples - {Key(f)}, bindings - {f})
  {
    hide Key;
    var ts, bs := tuples - {Key(f)}, bindings - {f};
    forall g | g in bs ensures Key(g) in ts {
      KeysDiffer(g, f);
    }
  }

  lemma TupleIndexAdd(tuples: map<KeyText, NatEntry>, bindings: map<Flow, NatEntry>, e: NatEntry)
    requires TupleIndex(tuples, bindings) && e.flow !in bindings
    ensures TupleIndex(tuples[Key(e.flow) := e], bindings[e.flow := e])
  {
    hide Key;
    LookupExact(tuples, bindings, e.flow);
    var ts, bs := tuples[Key(e.flow) := e], bindings[e.flow := e];
    forall g | g in bindings ensures Key(g) != Key(e.flow) {
      KeysDiffer(g, e.flow);
    }
  }

  lemma PortIndexRemove(ports: map<u16, NatEntry>, bindings: map<Flow, NatEntry>, f: Flow)
    requires PortIndex(ports, bindings) && f in bindings
    ensures PortIndex(ports - {bindings[f].natPort}, bindings - {f})
    ensures (ports - {bindings[f].natPort}).Keys == ports.Keys - {bindings[f].natPort}
  {}

  lemma PortIndexAdd(ports: map<u16, NatEntry>, bindings: map<Flow, NatEntry>, e: NatEntry)
    requires PortIndex(ports, bindings) && e.flow !in bindings && e.natPort !in ports
    ensures PortIndex(ports[e.natPort := e], bindings[e.flow := e])
  {}

  /** Both indexes hold the live entries, ports in use are theirs, and both counters equal the table size. */
  ghost predicate Consistent(tuples: map<KeyText, NatEntry>, ports: map<u16, NatEntry>, bindings: map<Flow, NatEntry>,
                             inUse: set<u16>, count: int, used: int)
  {
    && TupleIndex(tuples, bindings) && PortIndex(ports, bindings)
    && inUse == ports.Keys && count == |tuples| && used == |tuples|
  }

  lemma ConsistentRemove(tuples: map<KeyText, NatEntry>, ports: map<u16, NatEntry>, bindings: map<Flow, NatEntry>,
                         inUse: set<u16>, count: int, used: int, key: KeyText)
    requires Consistent(tuples, ports, bindings, inUse, count, used) && key in tuples
    ensures var e := tuples[key];
      && e.flow in bindings && bindings[e.flow] == e && key == Key(e.flow) && e.natPort in inUse
      && Consistent(tuples - {key}, ports - {e.natPort}, bindings - {e.flow}, inUse - {e.natPort}, count - 1, used - 1)
  {
    hide TupleIndex, PortIndex, Key;
    FiledEntry(tuples, ports, bindings, key);
    TupleIndexRemove(tuples, bindings, tuples[key].flow);
    PortIndexRemove(ports, bindings, tuples[key].flow);
    MapRemoveSize(tuples, key);
  }

  /** The string index finds a key exactly when the flow itself is bound. */
  lemma LookupBound(tuples: map<KeyText, NatEntry>, ports: map<u16, NatEntry>, bindings: map<Flow, NatEntry>,
                    inUse: set<u16>, count: int, used: int, f: Flow)
    requires Consistent(tuples, ports, bindings, inUse, count, used)
    ensures Key(f) in tuples <==> f in bindings
    ensures f in bindings ==> tuples[Key(f)] == bindings[f] && bindings[f].flow == f
  {
    hide TupleIndex, PortIndex, Key;
    LookupExact(tuples, bindings, f);
  }

  lemma ConsistentAdd(tuples: map<KeyText, NatEntry>, ports: map<u16, NatEntry>, bindings: map<Flow, NatEntry>,
                      inUse: set<u16>, count: int, used: int, e: NatEntry)
    requires Consistent(tuples, ports, bindings, inUse, count, used)
    requires e.flow !in bindings && e.natPort !in inUse
    ensures Consistent(tuples[Key(e.flow) := e], ports[e.natPort := e], bindings[e.flow := e],
                       inUse + {e.natPort}, count + 1, used + 1)
  {
    hide TupleIndex, PortIndex, Key;
    LookupExact(tuples, bindings, e.flow);
    TupleIndexAdd(tuples, bindings, e);
    PortIndexAdd(ports, bindings, e);
    MapAddSize(tuples, Key(e.flow), e);
  }

  /** The bindings a set of entries stands for. */
  ghost function Entries(bindings: map<Flow, NatEntry>): (m: map<Flow, Binding>)
    reads bindings.Values
    ensures m.Keys == bindings.Keys
    ensures forall f :: f in bindings ==> m[f] == Binding(bindings[f].natPort, bindings[f].lastSeen)
  {
    map f | f in bindings :: Binding(bindings[f].natPort, bindings[f].lastSeen)
  }

  lemma EntriesRemove(bindings: map<Flow, NatEntry>, f: Flow)
    ensures Entries(bindings - {f}) == Entries(bindings) - {f}
  {}

  lemma EntriesAdd(bindings: map<Flow, NatEntry>, f: Flow, e: NatEntry)
    ensures Entries(bindings[f := e]) == Entries(bindings)[f := Binding(e.natPort, e.lastSeen)]
  {}

  class Nat {
    const relayIP: IP
    const pool: Pool
    var entriesByTuple: map<KeyText, NatEntry>
    var entriesByNATPort: map<u16, NatEntry>
    var entriesCount: int
    var portsUsed: int
    var stopped: bool

    /** The same entries, filed under the flows themselves. */
    ghost var bindings: map<Flow, NatEntry>

    /** The reference table this object stands for. */
    ghost function View(): (t: Table)
      reads this, pool, bindings.Values
    {
      Table(Entries(bindings), pool.free, stopped)
    }

    ghost predicate Valid()
      reads this, pool, bindings.Values
    {
      && Consistent(entriesByTuple, entriesByNATPort, bindings, pool.inUse, entriesCount, portsUsed)
      && Inv(View())
    }

    /** Which of the bound entries' sockets are open. */
    ghost function OpenNow(): (m: map<Flow, bool>)
      reads this, bindings.Values
    {
      map f | f in bindings :: bindings[f].open
    }

    /** Of the entries `was`, the ones still bound are open as they were, and the others are closed. */
    ghost predicate GoneAreClosed(was: map<Flow, NatEntry>, opens: map<Flow, bool>)
      requires opens.Keys == was.Keys
      reads this, was.Values
    {
      && bindings.Keys <= was.Keys
      && forall f :: f in was ==> if f in bindings then bindings[f] == was[f] && was[f].open == opens[f]
                                  else !was[f].open
    }

    constructor (relayIP: IP, picks: seq<nat>)
      requires |picks| == PORTS && forall i :: 0 <= i < |picks| ==> picks[i] <= i
      ensures Valid() && fresh(pool) && View().entries == map[] && !View().stopped
      ensures this.relayIP == relayIP
    {
      this.relayIP := relayIP;
      pool := new Pool(PORT_MIN, PORT_MAX, picks);
      entriesByTuple, entriesByNATPort, bindings := map[], map[], map[];
      entriesCount, portsUsed, stopped := 0, 0, false;
      new;
      hide Inv, NoDup;
      assert View() == Table(map[], pool.free, false);
      FreshTable(pool.free);
    }

    /** Closes the entry's socket and forgets the entry, giving its port back. */
    method EvictEntry(key: KeyText, entry: NatEntry, ghost was: map<Flow, NatEntry>, ghost opens: map<Flow, bool>)
      requires Valid() && key in entriesByTuple && entriesByTuple[key] == entry
      requires opens.Keys == was.Keys && GoneAreClosed(was, opens)
      modifies this, pool, entry`open
      ensures Valid() && View() == Evict(old(View()), entry.flow)
      ensures bindings == old(bindings) - {entry.flow} && !entry.open && GoneAreClosed(was, opens)
    {
      hide Inv, Key, Consistent, Entries, View, Valid;
      OwnFlow();
      CloseSocket(entry);
      Remove(key, entry);
    }

    /** The bookkeeping of an eviction. */
    method Remove(key: KeyText, entry: NatEntry)
      requires Valid() && key in entriesByTuple && entriesByTuple[key] == entry
      modifies this, pool
      ensures Valid() && View() == Evict(old(View()), entry.flow)
      ensures bindings == old(bindings) - {entry.flow} && entry.flow in old(bindings)
      ensures old(bindings)[entry.flow] == entry
    {
      hide Inv, Key, Consistent, Entries;
      ConsistentRemove(entriesByTuple, entriesByNATPort, bindings, pool.inUse, entriesCount, portsUsed, key);
      ghost var f := entry.flow;
      EvictKeeps(View(), f);
      EntriesRemove(bindings, f);
      entriesByTuple := entriesByTuple - {key};
      entriesByNATPort := entriesByNATPort - {entry.natPort};
      pool.Release(entry.natPort);
      entriesCount := entriesCount - 1;
      portsUsed := portsUsed - 1;
      bindings := bindings - {f};
    }

    method CloseSocket(entry: NatEntry)
      requires Valid()
      modifies entry`open
      ensures Valid() && View() == old(View()) && !entry.open
    {
      hide Inv, Key, Consistent;
      entry.open := false;
      assert View().entries == old(View()).entries;
    }

    /** Removes stale entries, in whatever order the map is iterated. */
    method SweepOnce(now: int, order: seq<Flow>)
      requires Valid() && Visits(order, View())
      modifies this, pool, bindings.Values
      ensures Valid() && View() == Pass(old(View()), order, Stale(now)) && GoneAreClosed(old(bindings), old(OpenNow()))
      ensures forall f :: f in old(bindings) ==>
        (f in bindings <==>
          now - old(bindings[f].lastSeen) <= if f.proto == 6 then 300_000_000_000 else 120_000_000_000)
      ensures forall f :: f in bindings ==> bindings[f].lastSeen == old(bindings[f].lastSeen)
    {
      hide Inv, Key, Visits, Consistent, Entries;
      SweepExact(View(), order, now);
      hide Pass, GoneAreClosed;
      ghost var was, opens := bindings, OpenNow();
      var i := 0;
      assert order[0..] == order;
      while i < |order|
        invariant 0 <= i <= |order|
        invariant Valid() && Pass(View(), order[i..], Stale(now)) == Pass(old(View()), order, Stale(now))
        invariant GoneAreClosed(was, opens)
      {
        var key := Key(order[i]);
        LookupBound(entriesByTuple, entriesByNATPort, bindings, pool.inUse, entriesCount, portsUsed, order[i]);
        assert order[i..][0] == order[i] && order[i..][1..] == order[i + 1..];
        PassUnfold(View(), order[i..], Stale(now));
        if key in entriesByTuple {
          var entry := entriesByTuple[key];
          if now - entry.lastSeen > TTL(entry.flow.proto) {
            EvictEntry(key, entry, was, opens);
          }
        }
        i := i + 1;
      }
      PassUnfold(View(), order[i..], Stale(now));
    }

    /** Removes every entry of a session that is going away. */
    method CloseSessionEntries(session: string, order: seq<Flow>)
      requires Valid() && Visits(order, View())
      modifies this, pool, bindings.Values
      ensures Valid() && View() == Pass(old(View()), order, Session(session))
      ensures GoneAreClosed(old(bindings), old(OpenNow()))
      ensures forall f :: f in old(bindings) ==> (f in bindings <==> f.session != session)
      ensures forall f :: f in bindings ==> bindings[f].lastSeen == old(bindings[f].lastSeen)
    {
      hide Inv, Key, Visits, Consistent, Entries;
      SessionEndExact(View(), order, session);
      hide Pass, GoneAreClosed;
      ghost var was, opens := bindings, OpenNow();
      var i := 0;
      assert order[0..] == order;
      while i < |order|
        invariant 0 <= i <= |order|
        invariant Valid() && Pass(View(), order[i..], Session(session)) == Pass(old(View()), order, Session(session))
        invariant GoneAreClosed(was, opens)
      {
        var key := Key(order[i]);
        LookupBound(entriesByTuple, entriesByNATPort, bindings, pool.inUse, entriesCount, portsUsed, order[i]);
        assert order[i..][0] == order[i] && order[i..][1..] == order[i + 1..];
        PassUnfold(View(), order[i..], Session(session));
        if key in entriesByTuple {
          var entry := entriesByTuple[key];
          if entry.flow.session == session {
            EvictEntry(key, entry, was, opens);
          }
        }
        i := i + 1;
      }
      PassUnfold(View(), order[i..], Session(session));
    }

    /** Removes every entry, closing its socket. */
    method RemoveAll(order: seq<Flow>)
      requires Valid() && Visits(order, View())
      modifies this, pool, bindings.Values
      ensures Valid() && View() == Pass(old(View()), order, Everything) && GoneAreClosed(old(bindings), old(OpenNow()))
    {
      hide Inv, Key, Visits, Consistent, Entries, Pass;
      ghost var was, opens := bindings, OpenNow();
      var i := 0;
      assert order[0..] == order;
      while i < |order|
        invariant 0 <= i <= |order|
        invariant Valid() && Pass(View(), order[i..], Everything) == Pass(old(View()), order, Everything)
        invariant GoneAreClosed(was, opens)
      {
        var key := Key(order[i]);
        LookupBound(entriesByTuple, entriesByNATPort, bindings, pool.inUse, entriesCount, portsUsed, order[i]);
        assert order[i..][0] == order[i] && order[i..][1..] == order[i + 1..];
        PassUnfold(View(), order[i..], Everything);
        if key in entriesByTuple {
          EvictEntry(key, entriesByTuple[key], was, opens);
        }
        i := i + 1;
      }
      PassUnfold(View(), order[i..], Everything);
    }

    /** Refuses further translation and removes every entry, closing its socket. */
    method Shutdown(order: seq<Flow>)
      requires Valid() && Visits(order, View())
      modifies this, pool, bindings.Values
      ensures Valid() && View() == Step(old(View()), DoShutdown(order))
      ensures stopped && bindings == map[] && forall f :: f in old(bindings) ==> !old(bindings)[f].open
    {
      hide Inv, Key, Visits, Consistent, Entries, Pass;
      InvIgnoresStopped(View());
      ShutdownEmpties(View(), order);
      assert Visits(order, View().(stopped := true)) by { VisitsIgnoresStopped(order, View()); }
      stopped := true;
      RemoveAll(order);
      assert bindings.Keys == View().entries.Keys == {};
      assert bindings == map[];
    }

    method TouchEntry(entry: NatEntry, now: int)
      requires Valid() && entry.flow in bindings && bindings[entry.flow] == entry
      modifies entry
      ensures Valid() && View() == Touch(old(View()), entry.flow, now)
    {
      hide Inv, Key, Consistent;
      TouchKeeps(View(), entry.flow, now);
      assert forall f :: f in bindings && bindings[f] == entry ==> f == entry.flow by { OwnFlow(); }
      entry.lastSeen := now;
      assert View().entries == Touch(old(View()), entry.flow, now).entries;
    }

    lemma OwnFlow()
      requires Valid()
      ensures forall f :: f in bindings ==> bindings[f].flow == f
    {
      hide Inv, Key;
    }

    /** Reverse lookup by port; rewrites the packet back to the client that owns the flow. */
    method Reverse(pkt: array<u8>, now: int) returns (r: Result<string>)
      requires Valid()
      modifies pkt, bindings.Values
      ensures Valid()
      ensures match ParseIPv4(old(pkt[..]))
        case Err(e) => r == Err(e) && pkt[..] == old(pkt[..]) && View() == old(View())
        case Ok(p) =>
          match NatModel.Reverse(old(View()), p.dstPort)
          case None => r == Err(InvalidPacket) && pkt[..] == old(pkt[..]) && View() == old(View())
          case Some(f) =>
            && r == Ok(f.session) && pkt[..] == DestRewritten(old(pkt[..]), p, f.srcIP, f.srcPort)
            && View() == Step(old(View()), DoReverse(p.dstPort, now))
    {
      hide Inv, Key, ParseIPv4, DestRewritten, Consistent;
      var parsed := ParseIPv4(pkt[..]);
      if parsed.Err? {
        return Err(parsed.error);
      }
      var p := parsed.value;
      PortLookup(p.dstPort);
      if p.dstPort !in entriesByNATPort {
        return Err(InvalidPacket);
      }
      var entry := entriesByNATPort[p.dstPort];
      PacketOps.RewriteDest(pkt, p, entry.flow.srcIP, entry.flow.srcPort);
      TouchEntry(entry, now);
      r := Ok(entry.flow.session);
    }

    /** The port index finds exactly the flow the reference table names. */
    lemma PortLookup(port: u16)
      requires Valid()
      ensures port in entriesByNATPort <==> NatModel.Reverse(View(), port).Some?
      ensures port in entriesByNATPort ==>
        var e := entriesByNATPort[port];
        NatModel.Reverse(View(), port) == Some(e.flow) && e.flow in bindings && bindings[e.flow] == e
    {
      hide NoDup, Key;
      if port in entriesByNATPort {
        assert Owns(View(), entriesByNATPort[port].flow, port);
      }
    }

    lemma FreeIsNotInUse()
      requires Valid() && pool.free != []
      ensures pool.free[|pool.free| - 1] !in pool.inUse
    {
      hide Key, NoDup, DistinctPorts;
      assert forall p :: p in pool.inUse ==> View().entries[entriesByNATPort[p].flow].port == p;
    }

    /** The table as it will be once the port `taken` is given back. */
    ghost predicate ValidBut(taken: u16, t: Table)
      reads this, pool, bindings.Values
    {
      && taken in pool.inUse
      && Consistent(entriesByTuple, entriesByNATPort, bindings, pool.inUse - {taken}, entriesCount, portsUsed)
      && Inv(t) && t == View().(free := pool.free + [taken])
    }

    lemma NothingGone()
      ensures GoneAreClosed(bindings, OpenNow())
    {}

    /** Takes the top port off the pool, if there is one. */
    method TryAllocate() returns (r: Result<u16>)
      requires Valid()
      modifies pool
      ensures var t := old(View());
        if t.free == [] then r == Err(PortExhausted) && Valid() && View() == t
        else r == Ok(t.free[|t.free| - 1]) && ValidBut(r.value, t)
    {
      hide Inv, Key, Consistent, Entries;
      if pool.free != [] {
        FreeIsNotInUse();
      }
      r := pool.Allocate();
      if r.Ok? {
        assert pool.inUse - {r.value} + {r.value} == pool.inUse;
      }
    }

    /** Takes a port off the pool, sweeping once when it is empty. */
    method TakePort(env: Env) returns (r: Result<u16>)
      requires Valid() && Visits(env.order, View())
      modifies this, pool, bindings.Values
      ensures var s := SweptIfFull(old(View()), env);
        if s.free == [] then r == Err(PortExhausted) && Valid() && View() == s
        else r == Ok(s.free[|s.free| - 1]) && ValidBut(r.value, s)
      ensures GoneAreClosed(old(bindings), old(OpenNow()))
    {
      NothingGone();
      hide Inv, Key, Visits, Consistent, Entries, GoneAreClosed, OpenNow, Pass;
      r := TryAllocate();
      if r.Err? {
        SweepOnce(env.sweepNow, env.order);
        r := TryAllocate();
      }
    }

    /** Gives back a port that was taken and not used. */
    method ReturnPort(port: u16, ghost t: Table)
      requires ValidBut(port, t)
      modifies pool
      ensures Valid() && View() == t
    {
      hide Inv, Key, Consistent, Entries;
      pool.Release(port);
    }

    /** Files a new entry for a port just taken. */
    method FileEntry(flow: Flow, port: u16, now: int, ghost t: Table)
      requires ValidBut(port, t) && flow !in bindings
      modifies this
      ensures Valid() && View() == t.(entries := t.entries[flow := Binding(port, now)], free := t.free[..|t.free| - 1])
    {
      hide Inv, Key, Consistent, Entries;
      var entry := new NatEntry(flow, port, now);
      BindKeeps(t, flow, now);
      ConsistentAdd(entriesByTuple, entriesByNATPort, bindings, pool.inUse - {port}, entriesCount, portsUsed, entry);
      EntriesAdd(bindings, flow, entry);
      assert pool.inUse - {port} + {port} == pool.inUse;
      entriesByTuple := entriesByTuple[Key(flow) := entry];
      entriesByNATPort := entriesByNATPort[port := entry];
      entriesCount := entriesCount + 1;
      portsUsed := portsUsed + 1;
      bindings := bindings[flow := entry];
    }

    /** First use of a flow: takes a port, dials, and files the entry; a failed dial gives the port back. */
    method BindNew(flow: Flow, env: Env) returns (r: Result<u16>)
      requires Valid() && flow !in bindings && !stopped && Visits(env.order, View())
      modifies this, pool, bindings.Values
      ensures Valid() && (View(), r) == NatModel.Translate(old(View()), flow, env)
    {
      hide Inv, Key, Visits, Consistent, Entries;
      ghost var s := SweptIfFull(View(), env);
      assert flow !in View().entries && !View().stopped;
      var port := TakePort(env);
      hide SweptIfFull;
      if port.Err? {
        return Err(PortExhausted);
      }
      if !env.dialOk {
        ReturnPort(port.value, s);
        return Err(DialFailed);
      }
      FileEntry(flow, port.value, env.now, s);
      r := port;
    }

    /** Outbound translation of one packet; on success the packet leaves from the relay address. */
    method Translate(session: string, pkt: array<u8>, env: Env) returns (r: Result<u16>)
      requires Valid() && Visits(env.order, View())
      modifies this, pool, pkt, bindings.Values
      ensures Valid()
      ensures var before := old(pkt[..]); var parsed := ParseIPv4(before);
        if old(stopped) then
          r == Err(ShuttingDown) && View() == old(View()) && pkt[..] == before
        else if parsed.Err? then
          r == Err(parsed.error) && View() == old(View()) && pkt[..] == before
        else if IsBlockedIP(parsed.value.dstIP) then
          r == Err(SSRFBlocked) && View() == old(View()) && pkt[..] == before
        else
          && (View(), r) == NatModel.Translate(old(View()), FlowOf(session, parsed.value), env)
          && pkt[..] == if r.Ok? then SourceRewritten(before, parsed.value, relayIP, r.value) else before
    {
      hide Inv, Key, Visits, Consistent, Entries, ParseIPv4, SourceRewritten, IsBlockedIP;
      if stopped {
        return Err(ShuttingDown);
      }
      var parsed := ParseIPv4(pkt[..]);
      if parsed.Err? {
        return Err(parsed.error);
      }
      var p := parsed.value;
      if IsBlockedIP(p.dstIP) {
        return Err(SSRFBlocked);
      }
      var flow := FlowOf(session, p);
      var key := Key(flow);
      LookupBound(entriesByTuple, entriesByNATPort, bindings, pool.inUse, entriesCount, portsUsed, flow);
      if key in entriesByTuple {
        var entry := entriesByTuple[key];
        TouchEntry(entry, env.now);
        PacketOps.RewriteSource(pkt, p, relayIP, entry.natPort);
        return Ok(entry.natPort);
      }
      r := BindNew(flow, env);
      if r.Ok? {
        PacketOps.RewriteSource(pkt, p, relayIP, r.value);
      }
    }
  }
}
