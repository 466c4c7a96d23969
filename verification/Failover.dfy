/** Ordered failover over relays: same country first, then the others, with the original restored on failure. */
module Failover {
  import opened AlternateCountries
  import opened Bytes
  import opened Countries

  /** Outcomes the environment picks for the k-th relay offered, and for the final restore. */
  datatype Env = Env(updateOk: nat -> bool, connectOk: nat -> bool, restoreOk: bool)

  datatype FailoverResult = FailoverResult(newCountry: string, newRelayID: string, crossCountry: bool)

  /** Where the tunnel points: domain and public key. */
  datatype Target = Target(domain: string, publicKey: string)

  function TargetOf(r: Relay): (t: Target) {
    Target(r.domain, r.publicKey)
  }

  /** Current relay, tunnel target, and the relays offered so far in this call. */
  datatype Progress = Progress(current: string, target: Target, offered: seq<Relay>)

  /** Offers `cs` in turn until one updates and connects. */
  function Offer(p: Progress, cs: seq<Relay>, env: Env): (r: (Progress, Option<Relay>))
    decreases |cs|
  {
    if cs == [] then (p, None)
    else
      var k, x := |p.offered|, cs[0];
      var q := Progress(p.current, if env.updateOk(k) then TargetOf(x) else p.target, p.offered + [x]);
      if env.updateOk(k) && env.connectOk(k) then (q.(current := x.id), Some(x)) else Offer(q, cs[1..], env)
  }

  function NotCurrent(pool: seq<Relay>, current: string): (r: seq<Relay>) {
    if pool == [] then []
    else (if pool[0].id != current then [pool[0]] else []) + NotCurrent(pool[1..], current)
  }

  function Pool(rs: seq<Relay>, code: Relay -> string, country: string, current: string): (r: seq<Relay>) {
    NotCurrent(Group(rs, Bucket(code), country), current)
  }

  function Alternates(rs: seq<Relay>, code: Relay -> string, codes: seq<string>, current: string): (r: seq<Relay>) {
    if codes == [] then [] else Pool(rs, code, codes[0], current) + Alternates(rs, code, codes[1..], current)
  }

  /** The relays a failover may offer, in order; without a known country, all of them in list order. */
  function Candidates(rs: seq<Relay>, code: Relay -> string, country: string, codes: seq<string>, current: string)
    : (r: seq<Relay>)
  {
    if country == "" then NotCurrent(rs, current)
    else Pool(rs, code, country, current) + Alternates(rs, code, codes, current)
  }

  /** The listed entry of the current relay. */
  function Original(rs: seq<Relay>, current: string): (r: Option<Relay>)
    ensures r.Some? ==> r.value in rs && r.value.id == current
    ensures r.None? ==> forall x :: x in rs ==> x.id != current
  {
    if rs == [] then None else if rs[0].id == current then Some(rs[0]) else Original(rs[1..], current)
  }

  /** The country failover starts from: the current relay's, else the preference. */
  function StartCountry(rs: seq<Relay>, code: Relay -> string, current: string, preferred: string): (c: string) {
    var o := Original(rs, current);
    var c := code(if o.Some? then o.value else Relay("", "", ""));
    if c == "" then preferred else c
  }

  // ---------- what an offer sequence means ----------

  predicate Works(env: Env, k: nat) {
    env.updateOk(k) && env.connectOk(k)
  }

  lemma ShiftFront(offered: seq<Relay>, cs: seq<Relay>)
    requires cs != []
    ensures offered + cs == (offered + [cs[0]]) + cs[1..]
    ensures forall n: nat :: n < |cs| ==> offered + cs[..n + 1] == (offered + [cs[0]]) + cs[1..][..n]
  {
    forall n: nat | n < |cs| ensures offered + cs[..n + 1] == (offered + [cs[0]]) + cs[1..][..n] {
      assert cs[..n + 1] == [cs[0]] + cs[1..][..n];
    }
  }

  /** The relay taken is the first one that works; everything before it was offered, nothing after it. */
  lemma {:induction false} OfferMeans(p: Progress, cs: seq<Relay>, env: Env) returns (i: nat)
    ensures var (q, taken) := Offer(p, cs, env); var k := |p.offered|;
      && i <= |cs| && (forall j :: k <= j < k + i ==> !Works(env, j))
      && match taken
         case Some(x) =>
           && i < |cs| && x == cs[i] && Works(env, k + i)
           && q == Progress(x.id, TargetOf(x), p.offered + cs[..i + 1])
         case None =>
           i == |cs| && q.current == p.current && q.offered == p.offered + cs
    decreases |cs|
  {
    if cs == [] {
      i := 0;
      assert p.offered + cs == p.offered;
    } else {
      var k := |p.offered|;
      if Works(env, k) {
        i := 0;
        assert cs[..1] == [cs[0]];
      } else {
        var q := Progress(p.current, if env.updateOk(k) then TargetOf(cs[0]) else p.target, p.offered + [cs[0]]);
        var r := OfferMeans(q, cs[1..], env);
        i := r + 1;
        ShiftFront(p.offered, cs);
      }
    }
  }

  lemma {:induction false} OfferConcat(p: Progress, a: seq<Relay>, b: seq<Relay>, env: Env)
    ensures Offer(p, a + b, env) ==
      if Offer(p, a, env).1.Some? then Offer(p, a, env) else Offer(Offer(p, a, env).0, b, env)
    ensures Offer(p, a, env).1.None? ==> Offer(p, a, env).0.current == p.current
    decreases |a|
  {
    if a == [] {
      assert a + b == b;
    } else {
      var k := |p.offered|;
      assert (a + b)[1..] == a[1..] + b;
      var q := Progress(p.current, if env.updateOk(k) then TargetOf(a[0]) else p.target, p.offered + [a[0]]);
      OfferConcat(q, a[1..], b, env);
    }
  }

  // ---------- which relays are offered ----------

  lemma {:induction false} NotCurrentCounts(pool: seq<Relay>, current: string, x: Relay)
    ensures multiset(NotCurrent(pool, current))[x] == if x.id != current then multiset(pool)[x] else 0
  {
    if pool != [] {
      NotCurrentCounts(pool[1..], current, x);
      assert pool == [pool[0]] + pool[1..];
    }
  }

  lemma PoolCounts(rs: seq<Relay>, code: Relay -> string, country: string, current: string, x: Relay)
    ensures multiset(Pool(rs, code, country, current))[x] ==
      if x.id != current && Bucket(code)(x) == country then multiset(rs)[x] else 0
  {
    hide Bucket, NotCurrent, Group;
    NotCurrentCounts(Group(rs, Bucket(code), country), current, x);
    GroupPartitions(rs, Bucket(code), country, x);
  }

  lemma {:induction false} AlternatesCount(rs: seq<Relay>, code: Relay -> string, codes: seq<string>, current: string,
                                           x: Relay)
    requires forall i, j :: 0 <= i < j < |codes| ==> codes[i] != codes[j]
    ensures multiset(Alternates(rs, code, codes, current))[x] ==
      if x.id != current && Bucket(code)(x) in codes then multiset(rs)[x] else 0
  {
    hide Bucket, Pool;
    if codes != [] {
      AlternatesCount(rs, code, codes[1..], current, x);
      PoolCounts(rs, code, codes[0], current, x);
    }
  }

  predicate Eligible(x: Relay, code: Relay -> string, country: string, current: string) {
    x.id != current && (country == "" || Bucket(code)(x) == country || Bucket(code)(x) != "unknown")
  }

  lemma {:induction false} GroupHas(rs: seq<Relay>, b: Relay -> string, x: Relay)
    requires x in rs
    ensures Group(rs, b, b(x)) != []
  {
    GroupPartitions(rs, b, b(x), x);
    assert x in multiset(Group(rs, b, b(x)));
  }

  /** Every eligible relay is a candidate exactly as often as it is listed, and nothing else is: no repeats. */
  lemma CandidatesExact(rs: seq<Relay>, code: Relay -> string, country: string, codes: seq<string>, current: string,
                        median: map<string, int>, x: Relay)
    requires country != "" ==> AlternateOrder(codes, rs, code, country, median)
    ensures multiset(Candidates(rs, code, country, codes, current))[x] ==
      if Eligible(x, code, country, current) then multiset(rs)[x] else 0
  {
    hide Alternates, Pool, NotCurrent, Before;
    if country == "" {
      NotCurrentCounts(rs, current, x);
    } else {
      PoolCounts(rs, code, country, current, x);
      AlternatesCount(rs, code, codes, current, x);
      if x in rs {
        GroupHas(rs, Bucket(code), x);
      }
    }
  }

  /** Candidates of the starting country all come before those of other countries. */
  lemma OwnCountryFirst(rs: seq<Relay>, code: Relay -> string, country: string, codes: seq<string>, current: string)
    requires country != "" && country !in codes
    requires forall i, j :: 0 <= i < j < |codes| ==> codes[i] != codes[j]
    ensures var cs := Candidates(rs, code, country, codes, current);
      forall i, j :: 0 <= i < j < |cs| && Bucket(code)(cs[j]) == country ==> Bucket(code)(cs[i]) == country
  {
    hide Bucket, Pool, Alternates;
    var own, alt := Pool(rs, code, country, current), Alternates(rs, code, codes, current);
    forall x | x in own ensures Bucket(code)(x) == country { PoolCounts(rs, code, country, current, x); }
    forall x | x in alt ensures Bucket(code)(x) != country { AlternatesCount(rs, code, codes, current, x); }
    assert forall i :: 0 <= i < |own| ==> (own + alt)[i] == own[i] && own[i] in own;
    assert forall i :: |own| <= i < |own + alt| ==> (own + alt)[i] == alt[i - |own|] && alt[i - |own|] in alt;
  }

  /**
   * A failover call succeeds exactly when some candidate works. It takes the first one that does; when none does,
   * every eligible relay has been offered, exactly as often as it is listed.
   */
  lemma FailoverExact(rs: seq<Relay>, code: Relay -> string, country: string, codes: seq<string>, p: Progress, env: Env,
                      median: map<string, int>)
    requires country != "" ==> AlternateOrder(codes, rs, code, country, median)
    requires p.offered == []
    ensures var cs := Candidates(rs, code, country, codes, p.current);
      var (q, taken) := Offer(p, cs, env);
      && (taken.None? <==> forall k :: 0 <= k < |cs| ==> !Works(env, k))
      && (taken.Some? ==> Eligible(taken.value, code, country, p.current) && taken.value in rs && q.offered <= cs)
      && (taken.None? ==> forall x: Relay ::
            multiset(q.offered)[x] == if Eligible(x, code, country, p.current) then multiset(rs)[x] else 0)
  {
    hide Offer, Candidates, AlternateOrder, Works, Eligible;
    var cs := Candidates(rs, code, country, codes, p.current);
    var (q, taken) := Offer(p, cs, env);
    var i := OfferMeans(p, cs, env);
    assert p.offered + cs == cs;
    if taken.Some? {
      assert p.offered + cs[..i + 1] == cs[..i + 1];
      CandidatesExact(rs, code, country, codes, p.current, median, taken.value);
      assert taken.value in multiset(cs);
    }
    forall x: Relay ensures multiset(cs)[x] == if Eligible(x, code, country, p.current) then multiset(rs)[x] else 0 {
      CandidatesExact(rs, code, country, codes, p.current, median, x);
    }
  }

  lemma {:induction false} NotCurrentListed(pool: seq<Relay>, current: string)
    ensures forall x :: x in NotCurrent(pool, current) ==> x in pool && x.id != current
  {
    if pool != [] {
      NotCurrentListed(pool[1..], current);
    }
  }

  lemma PoolListed(rs: seq<Relay>, code: Relay -> string, country: string, current: string)
    ensures forall x :: x in Pool(rs, code, country, current) ==> x in rs && x.id != current
  {
    hide Pool, Bucket;
    forall x | x in Pool(rs, code, country, current) ensures x in rs && x.id != current {
      PoolCounts(rs, code, country, current, x);
      assert multiset(Pool(rs, code, country, current))[x] > 0;
      assert x in multiset(rs);
    }
  }

  lemma {:induction false} AlternatesListed(rs: seq<Relay>, code: Relay -> string, codes: seq<string>, current: string)
    ensures forall x :: x in Alternates(rs, code, codes, current) ==> x in rs && x.id != current
  {
    hide Pool;
    if codes != [] {
      PoolListed(rs, code, codes[0], current);
      AlternatesListed(rs, code, codes[1..], current);
    }
  }

  /** On success the tunnel and the manager are left at the relay offered last, a listed one other than the current. */
  ghost predicate SwitchedTo(x: Relay, rs: seq<Relay>, before: string, p: Progress) {
    && x in rs && x.id != before && p.current == x.id
    && p.target.domain == x.domain && p.target.publicKey == x.publicKey
    && p.offered != [] && p.offered[|p.offered| - 1] == x
  }

  lemma TakenIsTarget(rs: seq<Relay>, code: Relay -> string, country: string, codes: seq<string>, p: Progress, env: Env)
    ensures var (q, taken) := Offer(p, Candidates(rs, code, country, codes, p.current), env);
      taken.Some? ==> SwitchedTo(taken.value, rs, p.current, q)
  {
    hide Offer, Pool, Alternates, NotCurrent;
    var i := OfferMeans(p, Candidates(rs, code, country, codes, p.current), env);
    NotCurrentListed(rs, p.current);
    PoolListed(rs, code, country, p.current);
    AlternatesListed(rs, code, codes, p.current);
  }

  /** No relay of another country is offered before all those of country `home`, but for the current one. */
  ghost predicate HomeFirst(offered: seq<Relay>, rs: seq<Relay>, code: Relay -> string, home: string, current: string) {
    forall j, x: Relay ::
      0 <= j < |offered| && code(offered[j]) != home && x in rs && code(x) == home && x.id != current ==>
        x in offered[..j]
  }

  /** What stands before an element of the rest includes all of the front. */
  lemma FrontComesFirst(own: seq<Relay>, rest: seq<Relay>, offered: seq<Relay>, j: nat, x: Relay)
    requires offered <= own + rest && j < |offered| && offered[j] !in own && x in own
    ensures x in offered[..j]
  {
    assert offered[j] == (own + rest)[j];
    assert j >= |own|;
    var n :| 0 <= n < |own| && own[n] == x;
    assert offered[..j][n] == offered[n] == (own + rest)[n] == own[n];
  }

  lemma InPool(rs: seq<Relay>, code: Relay -> string, home: string, current: string, x: Relay)
    requires home != "" && home != "unknown"
    ensures x in Pool(rs, code, home, current) <==> x in rs && x.id != current && code(x) == home
  {
    hide Pool;
    PoolCounts(rs, code, home, current, x);
    assert x in multiset(Pool(rs, code, home, current)) <==> x in Pool(rs, code, home, current);
    assert x in multiset(rs) <==> x in rs;
  }

  lemma OfferedArePrefix(p: Progress, cs: seq<Relay>, env: Env)
    requires p.offered == []
    ensures Offer(p, cs, env).0.offered <= cs
  {
    hide Offer;
    var i := OfferMeans(p, cs, env);
    assert p.offered + cs == cs && (i < |cs| ==> p.offered + cs[..i + 1] == cs[..i + 1]);
  }

  lemma OffersHomeFirst(rs: seq<Relay>, code: Relay -> string, home: string, codes: seq<string>, p: Progress, env: Env)
    requires home != "" && home != "unknown" && p.offered == []
    ensures HomeFirst(Offer(p, Candidates(rs, code, home, codes, p.current), env).0.offered, rs, code, home, p.current)
  {
    hide Offer, Pool, Alternates, NotCurrent;
    var own, rest := Pool(rs, code, home, p.current), Alternates(rs, code, codes, p.current);
    OfferedArePrefix(p, own + rest, env);
    var offered := Offer(p, own + rest, env).0.offered;
    forall j, x: Relay |
      0 <= j < |offered| && code(offered[j]) != home && x in rs && code(x) == home && x.id != p.current
      ensures x in offered[..j]
    {
      InPool(rs, code, home, p.current, x);
      InPool(rs, code, home, p.current, offered[j]);
      FrontComesFirst(own, rest, offered, j, x);
    }
  }

  /** Position `k` is the first listed entry of `id`. */
  predicate FirstListed(rs: seq<Relay>, id: string, k: nat) {
    k < |rs| && rs[k].id == id && forall j :: 0 <= j < k ==> rs[j].id != id
  }

  /** Failover starts at the first listed entry of the current relay, whatever the preference, if it names a country. */
  lemma {:induction false} StartsAtHome(rs: seq<Relay>, code: Relay -> string, current: string, preferred: string,
                                        k: nat)
    requires FirstListed(rs, current, k)
    ensures Original(rs, current) == Some(rs[k])
    ensures StartCountry(rs, code, current, preferred) == if code(rs[k]) != "" then code(rs[k]) else preferred
  {
    if k > 0 {
      StartsAtHome(rs[1..], code, current, preferred, k - 1);
    }
  }

  /** What the country of the listed current relay settles, whatever is preferred. */
  lemma HomeSettles(rs: seq<Relay>, code: Relay -> string, codes: seq<string>, preferred: string, p: Progress, env: Env,
                    k: nat)
    requires FirstListed(rs, p.current, k) && p.offered == []
    ensures var country := StartCountry(rs, code, p.current, preferred); var home := code(rs[k]);
      && Original(rs, p.current) == Some(rs[k])
      && (home != "" && home != "unknown" ==>
            var offered := Offer(p, Candidates(rs, code, country, codes, p.current), env).0.offered;
            HomeFirst(offered, rs, code, home, p.current))
  {
    hide Offer, Candidates, HomeFirst;
    StartsAtHome(rs, code, p.current, preferred, k);
    var home := code(rs[k]);
    if home != "" && home != "unknown" {
      OffersHomeFirst(rs, code, home, codes, p, env);
    }
  }

  /** Every listed relay of a known country was offered, but for the current one. */
  ghost predicate EveryoneTried(offered: seq<Relay>, rs: seq<Relay>, code: Relay -> string, current: string) {
    forall x :: x in rs && x.id != current && code(x) != "" && code(x) != "unknown" ==> x in offered
  }

  lemma NoneWorked(rs: seq<Relay>, code: Relay -> string, country: string, codes: seq<string>, p: Progress, env: Env,
                   median: map<string, int>)
    requires country != "" ==> AlternateOrder(codes, rs, code, country, median)
    requires p.offered == []
    ensures var (q, taken) := Offer(p, Candidates(rs, code, country, codes, p.current), env);
      taken.None? ==> EveryoneTried(q.offered, rs, code, p.current)
  {
    hide Offer, Candidates, AlternateOrder;
    FailoverExact(rs, code, country, codes, p, env, median);
    var (q, taken) := Offer(p, Candidates(rs, code, country, codes, p.current), env);
    if taken.None? {
      forall x | x in rs && x.id != p.current && code(x) != "" && code(x) != "unknown" ensures x in q.offered {
        assert Eligible(x, code, country, p.current);
        assert x in multiset(rs);
        assert x in multiset(q.offered);
      }
    }
  }

  class Manager {
    var currentRelayID: string
    var preferredCountry: string
    /** The tunnel's target, changed through the updater. */
    var target: Target
    /** Relays offered since the call began. */
    var offered: seq<Relay>

    constructor (current: string, preferred: string, target: Target)
      ensures currentRelayID == current && preferredCountry == preferred && this.target == target && offered == []
    {
      currentRelayID, preferredCountry, this.target, offered := current, preferred, target, [];
    }

    ghost function View(): (p: Progress)
      reads this
    {
      Progress(currentRelayID, target, offered)
    }

    /** Offers the pool's relays in turn, skipping the current one, until one updates and connects. */
    method TryPool(pool: seq<Relay>, country: string, cross: bool, code: Relay -> string, env: Env)
      returns (r: Option<FailoverResult>)
      modifies this`currentRelayID, this`target, this`offered
      ensures var o := Offer(old(View()), NotCurrent(pool, old(currentRelayID)), env);
        && View() == o.0
        && r == match o.1
          case None => None
          case Some(x) => Some(FailoverResult(if country == "" then code(x) else country, x.id, cross))
    {
      var i := 0;
      assert pool[0..] == pool;
      while i < |pool|
        invariant 0 <= i <= |pool| && currentRelayID == old(currentRelayID)
        invariant Offer(View(), NotCurrent(pool[i..], currentRelayID), env) ==
          Offer(old(View()), NotCurrent(pool, old(currentRelayID)), env)
      {
        var next := pool[i];
        assert pool[i..][1..] == pool[i + 1..];
        i := i + 1;
        ghost var rest := NotCurrent(pool[i..], currentRelayID);
        assert ([next] + rest)[1..] == rest && [] + rest == rest;
        if next.id != currentRelayID {
          var k := |offered|;
          offered := offered + [next];
          if env.updateOk(k) {
            target := TargetOf(next);
            if env.connectOk(k) {
              currentRelayID := next.id;
              return Some(FailoverResult(if country == "" then code(next) else country, next.id, cross));
            }
          }
        }
      }
      r := None;
    }

    /** Points the tunnel back at the original relay, when it was listed with a domain and the update succeeds. */
    method Restore(original: Option<Relay>, env: Env)
      modifies this`target
      ensures target == if original.Some? && original.value.domain != "" && env.restoreOk
                        then TargetOf(original.value) else old(target)
    {
      if original.Some? && original.value.domain != "" && env.restoreOk {
        target := TargetOf(original.value);
      }
    }

    method FindCurrent(relays: seq<Relay>) returns (r: Option<Relay>)
      ensures r == Original(relays, currentRelayID)
    {
      var i := 0;
      assert relays[0..] == relays;
      while i < |relays|
        invariant 0 <= i <= |relays|
        invariant Original(relays, currentRelayID) == Original(relays[i..], currentRelayID)
      {
        if relays[i].id == currentRelayID {
          return Some(relays[i]);
        }
        assert relays[i..][1..] == relays[i + 1..];
        i := i + 1;
      }
      r := None;
    }

    /** Tries the other countries' pools in the given order. */
    method Cascade(groups: map<string, seq<Relay>>, code: Relay -> string, codes: seq<string>, env: Env,
                   ghost relays: seq<Relay>)
      returns (r: Option<FailoverResult>)
      requires "" !in codes && Grouped(groups, relays, code)
      modifies this`currentRelayID, this`target, this`offered
      ensures var o := Offer(old(View()), Alternates(relays, code, codes, old(currentRelayID)), env);
        && View() == o.0
        && r == match o.1
          case None => None
          case Some(x) => Some(FailoverResult(Bucket(code)(x), x.id, true))
    {
      hide Offer, Pool, Bucket, Grouped;
      OfferNothing(View(), env);
      r := None;
      var i := 0;
      assert codes[0..] == codes;
      while i < |codes|
        invariant 0 <= i <= |codes| && currentRelayID == old(currentRelayID) && r.None?
        invariant Offer(View(), Alternates(relays, code, codes[i..], currentRelayID), env) ==
          Offer(old(View()), Alternates(relays, code, codes, old(currentRelayID)), env)
      {
        assert codes[i..][1..] == codes[i + 1..];
        ghost var pool := Pool(relays, code, codes[i], currentRelayID);
        OfferConcat(View(), pool, Alternates(relays, code, codes[i + 1..], currentRelayID), env);
        TakenIsInPool(View(), relays, code, codes[i], env);
        r := TryCountry(groups, codes[i], true, code, env, relays);
        if r.Some? {
          return;
        }
        i := i + 1;
      }
      OfferNothing(View(), env);
    }

    /** Tries one country's pool. */
    method TryCountry(groups: map<string, seq<Relay>>, country: string, cross: bool, code: Relay -> string, env: Env,
                      ghost relays: seq<Relay>)
      returns (r: Option<FailoverResult>)
      requires country != "" && Grouped(groups, relays, code)
      modifies this`currentRelayID, this`target, this`offered
      ensures var o := Offer(old(View()), Pool(relays, code, country, old(currentRelayID)), env);
        && View() == o.0
        && r == match o.1
          case None => None
          case Some(x) => Some(FailoverResult(country, x.id, cross))
    {
      hide Offer;
      var pool := if country in groups then groups[country] else [];
      r := TryPool(pool, country, cross, code, env);
    }

    /**
     * Switches to the next relay that works. On total failure the current relay is unchanged and, when it was
     * listed, the tunnel is pointed back at it.
     */
    method HandleFailover(relays: seq<Relay>, code: Relay -> string, latency: map<string, int>, env: Env)
      returns (r: Option<FailoverResult>, ghost codes: seq<string>, ghost median: map<string, int>)
      modifies this`currentRelayID, this`target, this`offered
      ensures var country := StartCountry(relays, code, old(currentRelayID), old(preferredCountry));
        |relays| > 1 ==>
          AlternateOrder(codes, relays, code, country, median) && MediansOf(median, relays, code, country, latency)
      ensures
        var country := StartCountry(relays, code, old(currentRelayID), old(preferredCountry));
        var cs := Candidates(relays, code, country, codes, old(currentRelayID));
        var o := Offer(Progress(old(currentRelayID), old(target), []), cs, env);
        if |relays| <= 1 then
          r == None && currentRelayID == old(currentRelayID) && target == old(target) && offered == []
        else if o.1.None? then
          var original := Original(relays, old(currentRelayID));
          && r == None && currentRelayID == old(currentRelayID) && offered == o.0.offered
          && target == if original.Some? && original.value.domain != "" && env.restoreOk
                       then TargetOf(original.value) else o.0.target
        else
          var x := o.1.value;
          && View() == o.0
          && r == Some(FailoverResult(if country == "" then code(x) else Bucket(code)(x), x.id,
                                      country != "" && Bucket(code)(x) != country))
      ensures match r
        case Some(res) =>
          exists x: Relay :: x.id == res.newRelayID && SwitchedTo(x, relays, old(currentRelayID), View())
        case None =>
          && currentRelayID == old(currentRelayID)
          && (|relays| > 1 ==> EveryoneTried(offered, relays, code, currentRelayID))
      ensures |relays| > 1 ==> forall k: nat :: FirstListed(relays, old(currentRelayID), k) ==>
        var here := relays[k];
        && (code(here) != "" && code(here) != "unknown" ==>
              HomeFirst(offered, relays, code, code(here), old(currentRelayID)))
        && (r.None? && here.domain != "" && env.restoreOk ==>
              target.domain == here.domain && target.publicKey == here.publicKey)
    {
      hide Offer, Pool, Bucket, Alternates, NotCurrent, MediansOf, SwitchedTo, FirstListed, HomeFirst, EveryoneTried;
      offered := [];
      if |relays| <= 1 {
        return None, [], map[];
      }
      var original := FindCurrent(relays);
      var country := code(if original.Some? then original.value else Relay("", "", ""));
      if country == "" {
        country := preferredCountry;
      }
      ghost var p := View();
      // The order depends on the list and the latencies alone, so it can be settled before the first attempt.
      var groups := RelaysByCountry(relays, Bucket(code));
      var alternates;
      alternates, median := SortedAlternateCountries(groups, country, latency, relays, code);
      codes := alternates;
      TakenIsTarget(relays, code, country, codes, p, env);
      NoneWorked(relays, code, country, codes, p, env, median);
      forall k: nat | FirstListed(relays, p.current, k) {
        HomeSettles(relays, code, codes, preferredCountry, p, env, k);
      }
      if country != "" {
        OfferConcat(p, Pool(relays, code, country, p.current), Alternates(relays, code, codes, p.current), env);
        TakenIsInPool(p, relays, code, country, env);
        r := TryCountry(groups, country, false, code, env, relays);
        if r.Some? {
          return;
        }
        TakenIsElsewhere(View(), relays, code, country, codes, env);
        r := Cascade(groups, code, alternates, env, relays);
        if r.Some? {
          return;
        }
        OfferKeepsCurrent(p, Pool(relays, code, country, p.current) + Alternates(relays, code, codes, p.current), env);
      } else {
        r := TryPool(relays, "", false, code, env);
        if r.Some? {
          return;
        }
        OfferKeepsCurrent(p, NotCurrent(relays, p.current), env);
      }
      Restore(original, env);
    }
  }

  lemma OfferNothing(p: Progress, env: Env)
    ensures Offer(p, [], env) == (p, None)
  {}

  lemma OfferKeepsCurrent(p: Progress, cs: seq<Relay>, env: Env)
    ensures Offer(p, cs, env).1.None? ==> Offer(p, cs, env).0.current == p.current
    ensures Offer(p, cs, env).1.Some? ==> Offer(p, cs, env).1.value in cs
  {
    hide Offer;
    var i := OfferMeans(p, cs, env);
  }

  lemma TakenIsInPool(p: Progress, rs: seq<Relay>, code: Relay -> string, country: string, env: Env)
    ensures var o := Offer(p, Pool(rs, code, country, p.current), env);
      o.1.Some? ==> Bucket(code)(o.1.value) == country
  {
    hide Offer, Pool, Bucket;
    OfferKeepsCurrent(p, Pool(rs, code, country, p.current), env);
    var o := Offer(p, Pool(rs, code, country, p.current), env);
    if o.1.Some? {
      PoolCounts(rs, code, country, p.current, o.1.value);
    }
  }

  lemma TakenIsElsewhere(p: Progress, rs: seq<Relay>, code: Relay -> string, country: string, codes: seq<string>,
                         env: Env)
    requires country !in codes && forall i, j :: 0 <= i < j < |codes| ==> codes[i] != codes[j]
    ensures var o := Offer(p, Alternates(rs, code, codes, p.current), env);
      o.1.Some? ==> Bucket(code)(o.1.value) != country
  {
    hide Offer, Alternates, Bucket;
    OfferKeepsCurrent(p, Alternates(rs, code, codes, p.current), env);
    var o := Offer(p, Alternates(rs, code, codes, p.current), env);
    if o.1.Some? {
      AlternatesCount(rs, code, codes, p.current, o.1.value);
    }
  }
}
