/** The order in which failover tries the other countries: by median measured latency, then by code. */
module AlternateCountries {
  import opened Bytes
  import opened Countries
  import Sorting
  import Text

  /** The bucket a relay is grouped under. */
  function Bucket(code: Relay -> string): (b: Relay -> string) {
    r => if code(r) == "" then "unknown" else code(r)
  }

  /** `groups` is `rs` grouped by bucket. */
  ghost predicate Grouped(groups: map<string, seq<Relay>>, rs: seq<Relay>, code: Relay -> string) {
    && (forall c :: c in groups <==> Group(rs, Bucket(code), c) != [])
    && (forall c :: c in groups ==> groups[c] == Group(rs, Bucket(code), c))
  }

  // ---------- medians ----------

  /** The latency of one relay, when it was measured. */
  function Sample(r: Relay, latency: map<string, int>): (ls: seq<int>) {
    if r.id in latency && latency[r.id] > 0 then [latency[r.id]] else []
  }

  /** The measured latencies of a pool; relays without a positive measurement are skipped. */
  function Measured(pool: seq<Relay>, latency: map<string, int>): (ls: seq<int>) {
    if pool == [] then [] else Sample(pool[0], latency) + Measured(pool[1..], latency)
  }

  /** The same numbers in ascending order. */
  ghost predicate Ranked(ls: seq<int>, s: seq<int>) {
    multiset(s) == multiset(ls) && forall i, j :: 0 <= i < j < |s| ==> s[i] <= s[j]
  }

  /** The middle of an ascending list, the mean of the two middle ones when their number is even. */
  function Middle(s: seq<int>): (m: int)
    requires s != []
  {
    var mid := |s| / 2;
    if |s| % 2 == 1 then s[mid] else (s[mid - 1] + s[mid]) / 2
  }

  ghost predicate IsMedian(ls: seq<int>, m: int) {
    ls != [] && exists s :: Ranked(ls, s) && s != [] && m == Middle(s)
  }

  /** How many numbers are strictly below, or strictly above, `m`. */
  function Below(ls: seq<int>, m: int): (n: nat) {
    if ls == [] then 0 else (if ls[0] < m then 1 else 0) + Below(ls[1..], m)
  }

  function Above(ls: seq<int>, m: int): (n: nat) {
    if ls == [] then 0 else (if ls[0] > m then 1 else 0) + Above(ls[1..], m)
  }

  lemma {:induction false} CountsConcat(a: seq<int>, b: seq<int>, m: int)
    ensures Below(a + b, m) == Below(a, m) + Below(b, m)
    ensures Above(a + b, m) == Above(a, m) + Above(b, m)
  {
    if a == [] {
      assert a + b == b;
    } else {
      assert (a + b)[1..] == a[1..] + b;
      CountsConcat(a[1..], b, m);
    }
  }

  lemma TakeOut(t: seq<int>, i: nat, m: int)
    requires i < |t|
    ensures var rest := t[..i] + t[i + 1..];
      Below(t, m) == Below([t[i]], m) + Below(rest, m) && Above(t, m) == Above([t[i]], m) + Above(rest, m)
  {
    hide Below, Above;
    var a, b := t[..i], t[i + 1..];
    assert t == a + ([t[i]] + b);
    CountsConcat(a, [t[i]] + b, m);
    CountsConcat([t[i]], b, m);
    CountsConcat(a, b, m);
  }

  lemma WithoutOne(t: seq<int>, i: nat)
    requires i < |t|
    ensures multiset(t[..i] + t[i + 1..]) + multiset{t[i]} == multiset(t)
  {
    assert t == t[..i] + [t[i]] + t[i + 1..];
  }

  lemma CancelOne(a: multiset<int>, b: multiset<int>, x: int)
    requires a + multiset{x} == b + multiset{x}
    ensures a == b
  {
    forall y ensures a[y] == b[y] {
      assert (a + multiset{x})[y] == (b + multiset{x})[y];
    }
  }

  /** The front of `s` has a place in any rearrangement of `s`; taking it out leaves a rearrangement of the rest. */
  lemma Position(s: seq<int>, t: seq<int>) returns (i: nat)
    requires multiset(s) == multiset(t) && s != []
    ensures i < |t| && t[i] == s[0] && multiset(s[1..]) == multiset(t[..i] + t[i + 1..])
  {
    assert s[0] in multiset(t);
    i :| i < |t| && t[i] == s[0];
    WithoutOne(s, 0);
    WithoutOne(t, i);
    assert s[..0] + s[1..] == s[1..];
    CancelOne(multiset(s[1..]), multiset(t[..i] + t[i + 1..]), s[0]);
  }

  lemma {:induction false} CountsIgnoreOrder(s: seq<int>, t: seq<int>, m: int)
    requires multiset(s) == multiset(t)
    ensures Below(s, m) == Below(t, m) && Above(s, m) == Above(t, m)
  {
    if s == [] {
      assert |t| == |multiset(t)| == |multiset(s)| == 0;
    } else {
      hide Below, Above;
      var i := Position(s, t);
      var rest := t[..i] + t[i + 1..];
      CountsIgnoreOrder(s[1..], rest, m);
      TakeOut(t, i, m);
      TakeOut(s, 0, m);
      assert s[..0] + s[1..] == s[1..];
    }
  }

  /** An ascending list has at most `k` numbers below its entry `k`, and at most the rest above its entry `k - 1`. */
  lemma {:induction false} CountsBounded(s: seq<int>, k: nat, m: int)
    requires k <= |s|
    ensures (forall i :: k <= i < |s| ==> s[i] >= m) ==> Below(s, m) <= k
    ensures (forall i :: 0 <= i < k ==> s[i] <= m) ==> Above(s, m) <= |s| - k
    decreases |s|
  {
    if s != [] {
      var t := s[1..];
      assert forall i :: 0 <= i < |t| ==> t[i] == s[i + 1];
      CountsBounded(t, if k == 0 then 0 else k - 1, m);
      if k == 0 {
        assert (forall i :: 0 <= i < |s| ==> s[i] >= m) ==> s[0] >= m;
      } else {
        assert (forall i :: 0 <= i < k ==> s[i] <= m) ==> s[0] <= m;
      }
    }
  }

  /** At most half of the numbers are below their median and at most half above it. */
  lemma MedianHalves(ls: seq<int>, m: int)
    requires IsMedian(ls, m)
    ensures 2 * Below(ls, m) <= |ls| && 2 * Above(ls, m) <= |ls|
  {
    hide Below, Above;
    var s :| Ranked(ls, s) && s != [] && m == Middle(s);
    assert |s| == |multiset(s)| == |multiset(ls)| == |ls|;
    CountsIgnoreOrder(ls, s, m);
    var mid := |s| / 2;
    assert |s| % 2 == 0 ==> s[mid - 1] <= m <= s[mid];
    CountsBounded(s, mid, m);
    CountsBounded(s, |s| - mid, m);
  }

  predicate Ascending(s: seq<int>) {
    forall i, j :: 0 <= i < j < |s| ==> s[i] <= s[j]
  }

  lemma FirstIsLeast(s: seq<int>, x: int)
    requires Ascending(s) && x in multiset(s)
    ensures s != [] && s[0] <= x
  {
    assert x in s;
  }

  lemma TailAscends(s: seq<int>)
    requires Ascending(s) && s != []
    ensures Ascending(s[1..]) && multiset(s[1..]) + multiset{s[0]} == multiset(s)
  {
    assert s == [s[0]] + s[1..];
  }

  lemma SameHead(s: seq<int>, t: seq<int>)
    requires multiset(s) == multiset(t) && Ascending(s) && Ascending(t) && s != [] && t != []
    ensures s[0] == t[0] && multiset(s[1..]) == multiset(t[1..]) && Ascending(s[1..]) && Ascending(t[1..])
  {
    hide Ascending;
    assert s[0] in multiset(s) && t[0] in multiset(t);
    FirstIsLeast(s, t[0]);
    FirstIsLeast(t, s[0]);
    TailAscends(s);
    TailAscends(t);
    CancelOne(multiset(s[1..]), multiset(t[1..]), s[0]);
  }

  /** A list has one ascending arrangement. */
  lemma {:induction false} AscendingIsUnique(s: seq<int>, t: seq<int>)
    requires multiset(s) == multiset(t) && Ascending(s) && Ascending(t)
    ensures s == t
  {
    hide Ascending;
    assert |s| == |multiset(s)| == |multiset(t)| == |t|;
    if s != [] {
      SameHead(s, t);
      AscendingIsUnique(s[1..], t[1..]);
      assert s == [s[0]] + s[1..] && t == [t[0]] + t[1..];
    }
  }

  /** The median of numbers in ascending order: the middle one, or the mean of the two middle ones rounded down. */
  lemma MedianOfAscending(s: seq<int>, m: int)
    requires Ascending(s) && IsMedian(s, m)
    ensures |s| % 2 == 1 ==> m == s[(|s| - 1) / 2]
    ensures |s| % 2 == 0 ==> m == (s[|s| / 2 - 1] + s[|s| / 2]) / 2
  {
    var r :| Ranked(s, r) && r != [] && m == Middle(r);
    AscendingIsUnique(r, s);
  }

  lemma {:induction false} MeasuredAppend(pool: seq<Relay>, r: Relay, latency: map<string, int>)
    ensures Measured(pool + [r], latency) == Measured(pool, latency) + Sample(r, latency)
  {
    hide Sample;
    var last := Sample(r, latency);
    if pool == [] {
      assert pool + [r] == [r] && [r][1..] == [];
      assert last + [] == [] + last;
    } else {
      assert (pool + [r])[1..] == pool[1..] + [r];
      MeasuredAppend(pool[1..], r, latency);
      var first, rest := Sample(pool[0], latency), Measured(pool[1..], latency);
      assert first + (rest + last) == (first + rest) + last;
    }
  }

  /** Sorts, and takes the middle. */
  method Median(latencies: seq<int>) returns (m: int)
    requires latencies != []
    ensures IsMedian(latencies, m)
  {
    var s := Sorting.Sort(latencies, (a: int, b: int) => a < b);
    assert Ranked(latencies, s);
    assert |s| == |multiset(s)| == |multiset(latencies)| == |latencies|;
    var mid := |s| / 2;
    if |s| % 2 == 1 {
      return s[mid];
    }
    m := (s[mid - 1] + s[mid]) / 2;
  }

  /** The median measured latency of a pool, if any relay of it was measured. */
  method MedianLatency(pool: seq<Relay>, latency: map<string, int>) returns (m: Option<int>)
    ensures m.None? <==> Measured(pool, latency) == []
    ensures m.Some? ==> IsMedian(Measured(pool, latency), m.value)
  {
    hide Measured, IsMedian;
    NothingMeasured(latency);
    var latencies := [];
    assert pool[..0] == [];
    for i := 0 to |pool|
      invariant latencies == Measured(pool[..i], latency)
    {
      assert pool[..i + 1] == pool[..i] + [pool[i]];
      MeasuredAppend(pool[..i], pool[i], latency);
      var lat := if pool[i].id in latency then latency[pool[i].id] else 0;
      if lat > 0 {
        latencies := latencies + [lat];
      }
    }
    assert pool[..|pool|] == pool;
    if |latencies| == 0 {
      return None;
    }
    var middle := Median(latencies);
    m := Some(middle);
  }

  // ---------- the order ----------

  /** Countries with a measured median first, by median; the others by code. */
  predicate Before(median: map<string, int>, a: string, b: string) {
    if (a in median) != (b in median) then a in median
    else if a in median then median[a] < median[b]
    else Text.Less(a, b)
  }

  lemma BeforeIsStrictWeak(median: map<string, int>)
    ensures Sorting.StrictWeak((a: string, b: string) => Before(median, a, b))
  {
    hide Text.Less;
    forall a, b ensures Before(median, a, b) ==> !Before(median, b, a) { Text.LessIsStrictTotal(a, b); }
    forall a, b, c ensures !Before(median, b, a) && !Before(median, c, b) ==> !Before(median, c, a) {
      NotBeforeTransitive(median, a, b, c);
    }
  }

  lemma NotBeforeTransitive(median: map<string, int>, a: string, b: string, c: string)
    ensures !Before(median, b, a) && !Before(median, c, b) ==> !Before(median, c, a)
  {
    hide Text.Less;
    Text.LessIsStrictTotal(a, b);
    Text.LessIsStrictTotal(b, c);
    Text.LessIsStrictTotal(a, c);
    if Text.Less(c, a) && Text.Less(a, b) { Text.LessTransitive(c, a, b); }
  }

  predicate Elsewhere(c: string, country: string) {
    c != country && c != "" && c != "unknown"
  }

  /** Country `c` has a median recorded exactly when its latencies `ls` are not empty, and it is one of theirs. */
  ghost predicate MedianHeld(median: map<string, int>, c: string, ls: seq<int>) {
    (c in median <==> ls != []) && (c in median ==> IsMedian(ls, median[c]))
  }

  /** The medians of the other countries, those of them that have any measurement. */
  ghost predicate MediansOf(median: map<string, int>, rs: seq<Relay>, code: Relay -> string, country: string,
                            latency: map<string, int>)
  {
    forall c :: Elsewhere(c, country) ==> MedianHeld(median, c, Measured(Group(rs, Bucket(code), c), latency))
  }

  /** The other countries, each eligible code once, sorted; countries of equal median may come in any order. */
  ghost predicate AlternateOrder(codes: seq<string>, rs: seq<Relay>, code: Relay -> string, country: string,
                                 median: map<string, int>)
  {
    && (forall c :: c in codes <==> Group(rs, Bucket(code), c) != [] && Elsewhere(c, country))
    && (forall i, j :: 0 <= i < j < |codes| ==> codes[i] != codes[j] && !Before(median, codes[j], codes[i]))
  }

  /**
   * What the order promises: every listed country but the current one and "unknown", once; measured ones first, by
   * ascending median; the others after them, by code.
   */
  lemma OrderMeans(codes: seq<string>, rs: seq<Relay>, code: Relay -> string, country: string, median: map<string, int>)
    requires AlternateOrder(codes, rs, code, country, median)
    ensures forall x :: x in rs && code(x) != country && code(x) != "" && code(x) != "unknown" ==> code(x) in codes
    ensures forall c :: c in codes ==>
      c != country && c != "unknown" && exists x :: x in rs && code(x) == c && code(x) != ""
    ensures forall i, j :: 0 <= i < j < |codes| ==>
      && codes[i] != codes[j]
      && (codes[j] in median ==> codes[i] in median && median[codes[i]] <= median[codes[j]])
      && (codes[i] !in median ==> codes[j] !in median && Text.Less(codes[i], codes[j]))
  {
    hide Text.Less, Group, Before;
    forall x | x in rs && code(x) != country && code(x) != "" && code(x) != "unknown" ensures code(x) in codes {
      GroupPartitions(rs, Bucket(code), code(x), x);
      assert x in multiset(Group(rs, Bucket(code), code(x)));
    }
    forall c | c in codes ensures exists x :: x in rs && code(x) == c && code(x) != "" {
      var x := Group(rs, Bucket(code), c)[0];
      GroupPartitions(rs, Bucket(code), c, x);
      assert x in multiset(Group(rs, Bucket(code), c));
      assert x in multiset(rs);
    }
    forall i, j | 0 <= i < j < |codes| ensures
      && (codes[j] in median ==> codes[i] in median && median[codes[i]] <= median[codes[j]])
      && (codes[i] !in median ==> codes[j] !in median && Text.Less(codes[i], codes[j]))
    {
      NotBeforeMeans(median, codes[i], codes[j]);
    }
  }

  lemma NotBeforeMeans(median: map<string, int>, a: string, b: string)
    requires a != b && !Before(median, b, a)
    ensures b in median ==> a in median && median[a] <= median[b]
    ensures a !in median ==> b !in median && Text.Less(a, b)
  {
    hide Text.Less;
    Text.LessIsStrictTotal(a, b);
  }

  lemma PermutedDistinct(xs: seq<string>, ys: seq<string>)
    requires multiset(xs) == multiset(ys) && forall i, j :: 0 <= i < j < |xs| ==> xs[i] != xs[j]
    ensures forall i, j :: 0 <= i < j < |ys| ==> ys[i] != ys[j]
    ensures forall c :: c in xs <==> c in ys
  {
    forall c ensures c in xs <==> c in ys {
      assert c in xs <==> c in multiset(xs);
    }
    forall i, j | 0 <= i < j < |ys| ensures ys[i] != ys[j] {
      if ys[i] == ys[j] {
        var c := ys[i];
        assert ys == ys[..i] + [c] + ys[i + 1..j] + [c] + ys[j + 1..];
        assert multiset(xs)[c] >= 2;
        OnceEach(xs, c);
      }
    }
  }

  lemma {:induction false} OnceEach(xs: seq<string>, c: string)
    requires forall i, j :: 0 <= i < j < |xs| ==> xs[i] != xs[j]
    ensures multiset(xs)[c] <= 1
  {
    if xs != [] {
      OnceEach(xs[1..], c);
      assert xs == [xs[0]] + xs[1..];
      if xs[0] == c {
        assert c !in xs[1..];
      }
    }
  }

  /** The eligible codes and their medians, the groups being visited in any order. */
  method GatherMedians(groups: map<string, seq<Relay>>, country: string, latency: map<string, int>)
    returns (items: seq<string>, medians: map<string, int>)
    ensures forall c :: c in items <==> c in groups && Elsewhere(c, country)
    ensures forall i, j :: 0 <= i < j < |items| ==> items[i] != items[j]
    ensures medians.Keys <= groups.Keys
    ensures forall c :: c in groups && Elsewhere(c, country) ==> MedianHeld(medians, c, Measured(groups[c], latency))
  {
    hide Measured, IsMedian, Elsewhere;
    items, medians := [], map[];
    var left := groups.Keys;
    while left != {}
      invariant left <= groups.Keys && medians.Keys <= groups.Keys - left
      invariant forall c :: c in items <==> c in groups && c !in left && Elsewhere(c, country)
      invariant forall i, j :: 0 <= i < j < |items| ==> items[i] != items[j]
      invariant forall c :: c in groups && c !in left && Elsewhere(c, country) ==>
        MedianHeld(medians, c, Measured(groups[c], latency))
      decreases |left|
    {
      var c :| c in left;
      left := left - {c};
      if Elsewhere(c, country) {
        var m := MedianLatency(groups[c], latency);
        items := items + [c];
        if m.Some? {
          medians := medians[c := m.value];
        }
      }
    }
  }

  /** The codes to try after `country`, by the medians of their pools. */
  method SortedAlternateCountries(groups: map<string, seq<Relay>>, country: string, latency: map<string, int>,
                                  ghost rs: seq<Relay>, ghost code: Relay -> string)
    returns (codes: seq<string>, median: map<string, int>)
    requires Grouped(groups, rs, code)
    ensures AlternateOrder(codes, rs, code, country, median) && MediansOf(median, rs, code, country, latency)
  {
    hide Group, Measured, Bucket, IsMedian, Before, Elsewhere;
    var items, medians := GatherMedians(groups, country, latency);
    BeforeIsStrictWeak(medians);
    codes := Sorting.Sort(items, (a: string, b: string) => Before(medians, a, b));
    median := medians;
    PermutedDistinct(items, codes);
    NothingMeasured(latency);
  }

  lemma NothingMeasured(latency: map<string, int>)
    ensures Measured([], latency) == []
  {}
}
