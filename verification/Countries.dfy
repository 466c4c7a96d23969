/** Relay entries, their countries, and the grouping and ranking of relay lists. */
module Countries {
  import opened Bytes
  import Sorting
  import Text

  datatype Relay = Relay(id: string, domain: string, publicKey: string)

  const COUNTRIES: set<string> := {"is", "de", "fi", "us", "fr", "es", "gb"}

  /** Old-style prefixes; the program keeps them in a map, so they may be tried in any order. */
  datatype Legacy = Legacy(prefix: string, code: string)

  const LEGACY: seq<Legacy> := [
    Legacy("relay-iceland", "is"), Legacy("relay-finland", "fi"), Legacy("relay-germany", "de"),
    Legacy("relay-france", "fr"), Legacy("relay-usa", "us")]

  predicate HasPrefix(s: string, p: string) {
    p <= s
  }

  /** relay-{code}-{num} */
  function CodeOfID(id: string): (code: string) {
    if !HasPrefix(id, "relay-") then ""
    else
      var rest := id[6..];
      match Text.IndexOf(rest, '-')
      case None => ""
      case Some(i) => if i >= 2 && rest[..i] in COUNTRIES then rest[..i] else ""
  }

  /** {code}.domain or {code}-{num}.domain */
  function CodeOfDomain(domain: string): (code: string) {
    match Text.IndexOf(domain, '.')
    case None => ""
    case Some(dot) =>
      if dot < 2 then ""
      else
        var prefix := domain[..dot];
        if prefix in COUNTRIES then prefix
        else
          match Text.IndexOf(prefix, '-')
          case None => ""
          case Some(dash) => if dash >= 2 && prefix[..dash] in COUNTRIES then prefix[..dash] else ""
  }

  lemma CodesAreShort(c: string)
    requires c in COUNTRIES
    ensures |c| == 2 && '-' !in c && '.' !in c
  {}

  lemma IDPrefix(id: string, c: string)
    requires c in COUNTRIES && CodeOfID(id) == c
    ensures "relay-" + c + "-" <= id
  {
    CodesAreShort(c);
    hide COUNTRIES;
    var rest := id[6..];
    var i := Text.IndexOf(rest, '-').value;
    assert rest[..i] == c && rest[i] == '-';
    assert id[..9] == id[..6] + rest[..2] + [rest[2]];
    assert id[..6] == "relay-";
  }

  lemma IDWithPrefix(id: string, c: string)
    requires c in COUNTRIES && "relay-" + c + "-" <= id
    ensures CodeOfID(id) == c
  {
    CodesAreShort(c);
    hide COUNTRIES;
    var rest := id[6..];
    assert id[..9] == "relay-" + c + "-";
    assert rest == c + ['-'] + rest[3..];
    Text.IndexOfCut(c, '-', rest[3..]);
    assert rest[..2] == c;
  }

  /** An ID names a known country exactly when it starts with "relay-", the country's code and a dash. */
  lemma IDNamesCountry(id: string, c: string)
    requires c in COUNTRIES
    ensures CodeOfID(id) == c <==> "relay-" + c + "-" <= id
  {
    hide COUNTRIES, CodeOfID;
    if CodeOfID(id) == c { IDPrefix(id, c); }
    if "relay-" + c + "-" <= id { IDWithPrefix(id, c); }
  }

  lemma DomainPrefix(domain: string, c: string)
    requires c in COUNTRIES && CodeOfDomain(domain) == c
    ensures c + "." <= domain || (c + "-" <= domain && '.' in domain)
  {
    CodesAreShort(c);
    hide COUNTRIES;
    var dot := Text.IndexOf(domain, '.').value;
    assert domain[dot] == '.';
    var prefix := domain[..dot];
    if prefix == c {
      assert domain[..3] == c + ".";
    } else {
      var dash := Text.IndexOf(prefix, '-').value;
      assert prefix[..dash] == c && prefix[dash] == '-';
      assert domain[..3] == prefix[..3] == c + "-";
    }
  }

  lemma DottedCountry(domain: string, c: string)
    requires c in COUNTRIES && c + "." <= domain
    ensures CodeOfDomain(domain) == c
  {
    CodesAreShort(c);
    hide COUNTRIES;
    assert domain[..3] == c + ".";
    assert domain == c + ['.'] + domain[3..];
    Text.IndexOfCut(c, '.', domain[3..]);
    assert domain[..2] == c;
  }

  lemma DashedCountry(domain: string, c: string)
    requires c in COUNTRIES && c + "-" <= domain && '.' in domain
    ensures CodeOfDomain(domain) == c
  {
    CodesAreShort(c);
    assert domain[..3] == c + "-";
    var dot := Text.IndexOf(domain, '.').value;
    assert domain[0] == c[0] && domain[1] == c[1] && domain[2] == '-' && dot > 2;
    var prefix := domain[..dot];
    assert prefix == c + ['-'] + prefix[3..];
    Text.IndexOfCut(c, '-', prefix[3..]);
    assert prefix[..2] == c && |prefix| > 2;
    assert forall d :: d in COUNTRIES ==> |d| == 2;
    hide COUNTRIES;
  }

  /** A domain names a known country exactly when it starts with the code and a dot, or a dash with a dot later. */
  lemma DomainNamesCountry(domain: string, c: string)
    requires c in COUNTRIES
    ensures CodeOfDomain(domain) == c <==> c + "." <= domain || (c + "-" <= domain && '.' in domain)
  {
    hide COUNTRIES, CodeOfDomain;
    if CodeOfDomain(domain) == c { DomainPrefix(domain, c); }
    if c + "." <= domain { DottedCountry(domain, c); }
    if c + "-" <= domain && '.' in domain { DashedCountry(domain, c); }
  }

  predicate LegacyMatch(r: Relay, entry: Legacy) {
    HasPrefix(r.domain, entry.prefix) || HasPrefix(r.id, entry.prefix)
  }

  function LegacyCode(r: Relay, order: seq<Legacy>): (code: string) {
    if order == [] then ""
    else if LegacyMatch(r, order[0]) then order[0].code
    else LegacyCode(r, order[1..])
  }

  /** The country of a relay: from its ID, then its domain, then the first legacy prefix in iteration order. */
  function ExtractCountryCode(r: Relay, order: seq<Legacy>): (code: string) {
    if CodeOfID(r.id) != "" then CodeOfID(r.id)
    else if CodeOfDomain(r.domain) != "" then CodeOfDomain(r.domain)
    else LegacyCode(r, order)
  }

  /** An ID that names a country decides; otherwise a domain that does; legacy prefixes come last. */
  lemma IDThenDomain(r: Relay, order: seq<Legacy>, c: string)
    requires c in COUNTRIES
    ensures "relay-" + c + "-" <= r.id ==> ExtractCountryCode(r, order) == c
    ensures
      && (forall d :: d in COUNTRIES ==> !("relay-" + d + "-" <= r.id))
      && (c + "." <= r.domain || (c + "-" <= r.domain && '.' in r.domain))
      ==> ExtractCountryCode(r, order) == c
  {
    IDNamesCountry(r.id, c);
    DomainNamesCountry(r.domain, c);
    CodesAreShort(c);
    if CodeOfID(r.id) != "" {
      IDNamesCountry(r.id, CodeOfID(r.id));
    }
    hide CodeOfDomain, LegacyCode;
  }

  /** An iteration order of the legacy map. */
  ghost predicate Iterates(order: seq<Legacy>, table: seq<Legacy>) {
    forall e :: e in order <==> e in table
  }

  lemma {:induction false} LegacyCodeMeans(r: Relay, order: seq<Legacy>)
    ensures (exists e :: e in order && LegacyMatch(r, e)) ==>
      exists e :: e in order && LegacyMatch(r, e) && LegacyCode(r, order) == e.code
    ensures (forall e :: e in order ==> !LegacyMatch(r, e)) ==> LegacyCode(r, order) == ""
  {
    if order != [] {
      LegacyCodeMeans(r, order[1..]);
      if !LegacyMatch(r, order[0]) {
        assert forall e :: e in order && LegacyMatch(r, e) ==> e in order[1..];
      }
    }
  }

  /** The extracted code is empty or a known country. */
  lemma CodeIsKnown(r: Relay, order: seq<Legacy>)
    requires Iterates(order, LEGACY)
    ensures var c := ExtractCountryCode(r, order); c == "" || c in COUNTRIES
  {
    LegacyCodeMeans(r, order);
    if CodeOfID(r.id) == "" && CodeOfDomain(r.domain) == "" && exists e :: e in order && LegacyMatch(r, e) {
      var e :| e in order && LegacyMatch(r, e) && LegacyCode(r, order) == e.code;
      assert e in LEGACY;
    }
  }

  /** The legacy lookup is independent of iteration order exactly when all matching prefixes agree. */
  lemma LegacyOrderInvisibleIff(r: Relay, table: seq<Legacy>)
    ensures (forall o, p :: Iterates(o, table) && Iterates(p, table) ==> LegacyCode(r, o) == LegacyCode(r, p)) <==>
      forall e, f :: e in table && f in table && LegacyMatch(r, e) && LegacyMatch(r, f) ==> e.code == f.code
  {
    hide LegacyMatch;
    if e, f :| e in table && f in table && LegacyMatch(r, e) && LegacyMatch(r, f) && e.code != f.code {
      assert Iterates([e] + table, table) && Iterates([f] + table, table);
      assert LegacyCode(r, [e] + table) == e.code && LegacyCode(r, [f] + table) == f.code;
    } else {
      hide LegacyCode;
      forall o, p | Iterates(o, table) && Iterates(p, table) ensures LegacyCode(r, o) == LegacyCode(r, p) {
        LegacyCodeMeans(r, o);
        LegacyCodeMeans(r, p);
      }
    }
  }

  /**
   * The country of a relay is independent of map iteration order exactly when its ID or domain already decides,
   * or all matching legacy prefixes agree.
   */
  lemma OrderInvisibleIff(r: Relay, table: seq<Legacy>)
    ensures (forall o, p :: Iterates(o, table) && Iterates(p, table) ==>
               ExtractCountryCode(r, o) == ExtractCountryCode(r, p))
      <==>
      || CodeOfID(r.id) != "" || CodeOfDomain(r.domain) != ""
      || forall e, f :: e in table && f in table && LegacyMatch(r, e) && LegacyMatch(r, f) ==> e.code == f.code
  {
    LegacyOrderInvisibleIff(r, table);
    hide LegacyCode, LegacyMatch, Iterates, CodeOfID, CodeOfDomain;
  }

  /** A relay whose ID and domain start with two different legacy prefixes and name no country otherwise. */
  const TWO_PREFIXES: Relay := Relay("relay-usa", "relay-iceland", "")

  lemma NoCodeInID()
    ensures CodeOfID(TWO_PREFIXES.id) == ""
  {
    assert TWO_PREFIXES.id[6..] == "usa";
  }

  lemma NoCodeInDomain()
    ensures CodeOfDomain(TWO_PREFIXES.domain) == ""
  {
    assert '.' !in TWO_PREFIXES.domain;
    assert Text.IndexOf(TWO_PREFIXES.domain, '.') == None;
  }

  lemma LegacyFirst(r: Relay, entry: Legacy, rest: seq<Legacy>)
    requires LegacyMatch(r, entry)
    ensures LegacyCode(r, [entry] + rest) == entry.code
  {
    hide LegacyMatch;
  }

  /** Over the real table two iteration orders give that relay two countries. */
  lemma OrderShowsWitness()
    ensures var o := [Legacy("relay-iceland", "is")] + LEGACY; var p := [Legacy("relay-usa", "us")] + LEGACY;
      && Iterates(o, LEGACY) && Iterates(p, LEGACY)
      && ExtractCountryCode(TWO_PREFIXES, o) == "is" && ExtractCountryCode(TWO_PREFIXES, p) == "us"
  {
    hide LegacyCode, CodeOfID, CodeOfDomain;
    NoCodeInID();
    NoCodeInDomain();
    assert LEGACY[0] == Legacy("relay-iceland", "is") && LEGACY[4] == Legacy("relay-usa", "us");
    LegacyFirst(TWO_PREFIXES, LEGACY[0], LEGACY);
    LegacyFirst(TWO_PREFIXES, LEGACY[4], LEGACY);
  }

  // ---------- grouping and ranking ----------

  /** The relays of `rs` whose country, by `code`, is `c`, in order. */
  function Group(rs: seq<Relay>, code: Relay -> string, c: string): (g: seq<Relay>) {
    if rs == [] then []
    else
      var last := rs[|rs| - 1];
      Group(rs[..|rs| - 1], code, c) + if code(last) == c then [last] else []
  }

  /** Groups partition the list: a relay occurs in the group of its own country as often as in the list. */
  lemma {:induction false} GroupPartitions(rs: seq<Relay>, code: Relay -> string, c: string, r: Relay)
    ensures multiset(Group(rs, code, c))[r] == if code(r) == c then multiset(rs)[r] else 0
  {
    if rs != [] {
      var n := |rs| - 1;
      GroupPartitions(rs[..n], code, c, r);
      assert rs == rs[..n] + [rs[n]];
    }
  }

  /** Groups keep the order of the list: each is the list at increasing positions. */
  lemma {:induction false} GroupKeepsOrder(rs: seq<Relay>, code: Relay -> string, c: string) returns (at: seq<nat>)
    ensures |at| == |Group(rs, code, c)|
    ensures forall i :: 0 <= i < |at| ==> at[i] < |rs| && Group(rs, code, c)[i] == rs[at[i]]
    ensures forall i, j :: 0 <= i < j < |at| ==> at[i] < at[j]
  {
    if rs == [] {
      at := [];
    } else {
      var n := |rs| - 1;
      at := GroupKeepsOrder(rs[..n], code, c);
      if code(rs[n]) == c {
        at := at + [n];
      }
    }
  }

  /** `rs` grouped by country, one pass over the list. */
  method RelaysByCountry(rs: seq<Relay>, code: Relay -> string) returns (groups: map<string, seq<Relay>>)
    ensures forall c :: c in groups <==> Group(rs, code, c) != []
    ensures forall c :: c in groups ==> groups[c] == Group(rs, code, c)
  {
    groups := map[];
    var i := 0;
    while i < |rs|
      invariant 0 <= i <= |rs|
      invariant forall c :: c in groups <==> Group(rs[..i], code, c) != []
      invariant forall c :: c in groups ==> groups[c] == Group(rs[..i], code, c)
    {
      var c := code(rs[i]);
      assert rs[..i + 1][..i] == rs[..i];
      groups := groups[c := (if c in groups then groups[c] else []) + [rs[i]]];
      i := i + 1;
    }
    assert rs[..i] == rs;
  }

  // ---------- ranking by cached latency ----------

  function Known(rs: seq<Relay>, latency: map<string, int>): (k: seq<Relay>) {
    if rs == [] then [] else (if rs[0].id in latency then [rs[0]] else []) + Known(rs[1..], latency)
  }

  function Unknown(rs: seq<Relay>, latency: map<string, int>): (u: seq<Relay>) {
    if rs == [] then [] else (if rs[0].id !in latency then [rs[0]] else []) + Unknown(rs[1..], latency)
  }

  /** What sort.Slice promises: the same elements with no inversion; equal keys may come in any order. */
  ghost predicate SortedBy(k: seq<Relay>, sorted: seq<Relay>, latency: map<string, int>) {
    && multiset(sorted) == multiset(k)
    && (forall r :: r in sorted ==> r.id in latency)
    && forall i, j :: 0 <= i < j < |sorted| ==> latency[sorted[i].id] <= latency[sorted[j].id]
  }

  lemma PartitionHead(rs: seq<Relay>, latency: map<string, int>)
    requires rs != []
    ensures Known(rs, latency) == (if rs[0].id in latency then [rs[0]] else []) + Known(rs[1..], latency)
    ensures Unknown(rs, latency) == (if rs[0].id !in latency then [rs[0]] else []) + Unknown(rs[1..], latency)
  {}

  lemma {:induction false} KnownOrUnknown(rs: seq<Relay>, latency: map<string, int>, r: Relay)
    ensures multiset(Known(rs, latency))[r] + multiset(Unknown(rs, latency))[r] == multiset(rs)[r]
  {
    if rs != [] {
      KnownOrUnknown(rs[1..], latency, r);
      assert rs == [rs[0]] + rs[1..];
    }
  }

  /** Known and unknown relays together are the list. */
  lemma KnownUnknownSplit(rs: seq<Relay>, latency: map<string, int>)
    ensures multiset(Known(rs, latency)) + multiset(Unknown(rs, latency)) == multiset(rs)
  {
    hide Known, Unknown;
    forall r: Relay ensures multiset(Known(rs, latency))[r] + multiset(Unknown(rs, latency))[r] == multiset(rs)[r] {
      KnownOrUnknown(rs, latency, r);
    }
  }

  lemma {:induction false} KnownAreKnown(rs: seq<Relay>, latency: map<string, int>)
    ensures forall r :: r in Known(rs, latency) ==> r.id in latency
    ensures forall r :: r in Unknown(rs, latency) ==> r.id !in latency
  {
    if rs != [] {
      PartitionHead(rs, latency);
      KnownAreKnown(rs[1..], latency);
      hide Known, Unknown;
    }
  }

  /** Ranking by cached latencies loses and invents nothing: known latencies ascending, then the rest in order. */
  lemma RankingIsPermutation(rs: seq<Relay>, latency: map<string, int>, sorted: seq<Relay>)
    requires SortedBy(Known(rs, latency), sorted, latency)
    ensures var r := sorted + Unknown(rs, latency);
      && multiset(r) == multiset(rs) && |r| == |rs|
      && (forall i, j :: 0 <= i < j < |r| && r[j].id in latency ==>
            r[i].id in latency && latency[r[i].id] <= latency[r[j].id])
  {
    hide Known, Unknown;
    KnownUnknownSplit(rs, latency);
    KnownAreKnown(rs, latency);
    var u := Unknown(rs, latency);
    var r := sorted + u;
    assert |r| == |multiset(r)| && |rs| == |multiset(rs)|;
    assert forall j :: |sorted| <= j < |r| ==> r[j] == u[j - |sorted|] && r[j] in u;
    assert forall i :: 0 <= i < |sorted| ==> r[i] == sorted[i] && r[i] in sorted;
  }

  lemma {:induction false} KnownAppend(rs: seq<Relay>, r: Relay, latency: map<string, int>)
    ensures Known(rs + [r], latency) == Known(rs, latency) + if r.id in latency then [r] else []
  {
    if rs == [] {
      assert rs + [r] == [r] && [r][1..] == [];
    } else {
      assert (rs + [r])[0] == rs[0] && (rs + [r])[1..] == rs[1..] + [r];
      KnownAppend(rs[1..], r, latency);
    }
  }

  lemma {:induction false} UnknownAppend(rs: seq<Relay>, r: Relay, latency: map<string, int>)
    ensures Unknown(rs + [r], latency) == Unknown(rs, latency) + if r.id !in latency then [r] else []
  {
    if rs == [] {
      assert rs + [r] == [r] && [r][1..] == [];
    } else {
      assert (rs + [r])[0] == rs[0] && (rs + [r])[1..] == rs[1..] + [r];
      UnknownAppend(rs[1..], r, latency);
    }
  }

  /** Nothing cached: nothing is reordered. */
  lemma {:induction false} NothingCached(rs: seq<Relay>)
    ensures Known(rs, map[]) == [] && Unknown(rs, map[]) == rs
  {
    if rs != [] {
      NothingCached(rs[1..]);
    }
  }

  /** Ranks by the cached latencies: a partition in one pass, then a sort of the known part. */
  method SortByLatencyCache(rs: seq<Relay>, latency: map<string, int>) returns (r: seq<Relay>, ghost sorted: seq<Relay>)
    ensures SortedBy(Known(rs, latency), sorted, latency) && r == sorted + Unknown(rs, latency)
    ensures latency == map[] ==> r == rs
  {
    hide Known, Unknown;
    if |latency| == 0 {
      NothingCached(rs);
      return rs, [];
    }
    var known, unknown := [], [];
    NothingRanked(latency);
    for i := 0 to |rs|
      invariant known == Known(rs[..i], latency) && unknown == Unknown(rs[..i], latency)
    {
      assert rs[..i + 1] == rs[..i] + [rs[i]];
      KnownAppend(rs[..i], rs[i], latency);
      UnknownAppend(rs[..i], rs[i], latency);
      if rs[i].id in latency {
        known := known + [rs[i]];
      } else {
        unknown := unknown + [rs[i]];
      }
    }
    assert rs[..|rs|] == rs;
    var of := (x: Relay) => if x.id in latency then latency[x.id] else 0;
    var ranked := Sorting.Sort(known, (a: Relay, b: Relay) => of(a) < of(b));
    KnownAreKnown(rs, latency);
    forall x | x in ranked ensures x in known {
      assert x in multiset(ranked);
      assert x in multiset(known);
    }
    r, sorted := ranked + unknown, ranked;
  }

  lemma NothingRanked(latency: map<string, int>)
    ensures Known([], latency) == [] && Unknown([], latency) == []
  {}
}
