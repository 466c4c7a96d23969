/** Strict round-robin over the relays of a country. */
module Selector {
  import opened Countries

  function IDs(pool: seq<Relay>): (ids: seq<string>)
    ensures |ids| == |pool| && forall i :: 0 <= i < |pool| ==> ids[i] == pool[i].id
  {
    seq(|pool|, i requires 0 <= i < |pool| => pool[i].id)
  }

  /** The cursor after one pick from a pool of `n`. */
  function Next(n: nat, c: nat): (r: nat)
    requires c < n
    ensures r < n
  {
    if c + 1 == n then 0 else c + 1
  }

  lemma NextIsModulo(n: nat, c: nat)
    requires c < n
    ensures c % n == c && (c + 1) % n == Next(n, c)
  {}

  /** Cursors and pool snapshots, by country. */
  datatype State = State(cursors: map<string, nat>, snapshots: map<string, seq<string>>)

  /** The cursor a pick starts from: reset when the pool changed since the last pick. */
  function CursorFor(s: State, country: string, pool: seq<Relay>): (c: nat) {
    if country in s.snapshots && s.snapshots[country] == IDs(pool) && country in s.cursors then s.cursors[country]
    else 0
  }

  ghost predicate Valid(s: State) {
    forall c :: c in s.snapshots ==> c in s.cursors && s.snapshots[c] != [] && s.cursors[c] < |s.snapshots[c]|
  }

  function Picked(s: State, country: string, pool: seq<Relay>): (r: (State, nat))
    requires pool != [] && Valid(s)
    ensures Valid(r.0) && r.1 < |pool|
  {
    var c := CursorFor(s, country, pool);
    (State(s.cursors[country := Next(|pool|, c)], s.snapshots[country := IDs(pool)]), c)
  }

  class CountrySelector {
    var cursors: map<string, nat>
    var snapshots: map<string, seq<string>>

    ghost function View(): (s: State)
      reads this
    {
      State(cursors, snapshots)
    }

    constructor ()
      ensures View() == State(map[], map[]) && Valid(View())
    {
      cursors, snapshots := map[], map[];
    }

    method SameIDs(a: seq<string>, b: seq<string>) returns (same: bool)
      ensures same <==> a == b
    {
      if |a| != |b| {
        return false;
      }
      var i := 0;
      while i < |a|
        invariant 0 <= i <= |a| && a[..i] == b[..i]
      {
        if a[i] != b[i] {
          return false;
        }
        i := i + 1;
      }
      assert a[..i] == a && b[..i] == b;
      same := true;
    }

    method CollectIDs(pool: seq<Relay>) returns (ids: seq<string>)
      ensures ids == IDs(pool)
    {
      ids := [];
      var i := 0;
      while i < |pool|
        invariant 0 <= i <= |pool| && ids == IDs(pool)[..i]
      {
        ids := ids + [pool[i].id];
        i := i + 1;
      }
    }

    /** Forgets the cursor of a country whose pool changed. */
    method ResetIfChanged(country: string, pool: seq<Relay>)
      requires pool != [] && Valid(View())
      modifies this
      ensures Valid(View()) && snapshots == old(snapshots)[country := IDs(pool)]
      ensures cursors == old(cursors)[country := CursorFor(old(View()), country, pool)]
    {
      var ids := CollectIDs(pool);
      var same := SameIDs(if country in snapshots then snapshots[country] else [], ids);
      if !same {
        snapshots := snapshots[country := ids];
        cursors := cursors[country := 0];
      }
    }

    /** Returns the next relay of the pool; the cursor restarts when the pool's ordered IDs changed. */
    method Pick(country: string, pool: seq<Relay>) returns (r: Relay, ghost idx: nat)
      requires pool != [] && Valid(View())
      modifies this
      ensures Valid(View()) && (View(), idx) == Picked(old(View()), country, pool) && r == pool[idx]
    {
      hide CursorFor, IDs;
      ghost var s := View();
      ResetIfChanged(country, pool);
      NextIsModulo(|pool|, cursors[country]);
      var c := cursors[country] % |pool|;
      cursors := cursors[country := (c + 1) % |pool|];
      assert cursors == s.cursors[country := Next(|pool|, c)];
      r, idx := pool[c], c;
    }
  }

  // ---------- fairness ----------

  /** A run of picks, any countries interleaved; the indices drawn for `country`. */
  datatype Pick = Pick(country: string, pool: seq<Relay>)

  ghost predicate Playable(picks: seq<Pick>) {
    forall p :: p in picks ==> p.pool != []
  }

  function Drawn(s: State, picks: seq<Pick>, country: string): (idx: seq<nat>)
    requires Valid(s) && forall p :: p in picks ==> p.pool != []
    decreases |picks|
  {
    if picks == [] then []
    else
      var r := Picked(s, picks[0].country, picks[0].pool);
      (if picks[0].country == country then [r.1] else []) + Drawn(r.0, picks[1..], country)
  }

  /** Indices drawn from a pool of `n` starting at cursor `c`: `k` steps of strict rotation. */
  function Rotation(n: nat, c: nat, k: nat): (idx: seq<nat>)
    requires c < n
    ensures |idx| == k
    decreases k
  {
    if k == 0 then [] else [c] + Rotation(n, Next(n, c), k - 1)
  }

  /** While the country's pool keeps its ordered IDs, its picks rotate strictly, whatever other countries do. */
  lemma {:induction false} DrawnRotates(s: State, picks: seq<Pick>, country: string, ids: seq<string>, c: nat)
    requires Valid(s) && Playable(picks) && ids != []
    requires forall p :: p in picks && p.country == country ==> IDs(p.pool) == ids
    requires c < |ids|
    requires if country in s.snapshots && s.snapshots[country] == ids then s.cursors[country] == c else c == 0
    ensures Drawn(s, picks, country) == Rotation(|ids|, c, |Drawn(s, picks, country)|)
    decreases |picks|
  {
    if picks != [] {
      var p := picks[0];
      var r := Picked(s, p.country, p.pool);
      if p.country == country {
        DrawnRotates(r.0, picks[1..], country, ids, Next(|ids|, c));
        var rest := Drawn(r.0, picks[1..], country);
        assert Drawn(s, picks, country)[0] == c && Drawn(s, picks, country)[1..] == rest;
      } else {
        DrawnRotates(r.0, picks[1..], country, ids, c);
        assert Drawn(s, picks, country) == Drawn(r.0, picks[1..], country);
      }
    }
  }

  lemma {:induction false} RotationAt(n: nat, c: nat, k: nat, j: nat)
    requires c < n && j < k && j <= n
    ensures Rotation(n, c, k)[j] == if c + j < n then c + j else if j == n then c else c + j - n
    decreases j
  {
    if j > 0 {
      RotationAt(n, Next(n, c), k - 1, j - 1);
    }
  }

  lemma {:induction false} RotationSuffix(n: nat, c: nat, k: nat, i: nat)
    requires c < n && i < k
    ensures Rotation(n, c, k)[i] < n && Rotation(n, c, k)[i..] == Rotation(n, Rotation(n, c, k)[i], k - i)
    decreases i
  {
    var r := Rotation(n, c, k);
    if i == 0 {
      assert r[0] == c && r[0..] == r;
    } else {
      var rest := Rotation(n, Next(n, c), k - 1);
      assert r == [c] + rest;
      assert r[i] == rest[i - 1] && r[i..] == rest[i - 1..];
      RotationSuffix(n, Next(n, c), k - 1, i - 1);
    }
  }

  /** Any n consecutive picks hit every relay of a pool of n exactly once. */
  lemma ConsecutiveArePermutation(n: nat, c: nat, k: nat, i: nat)
    requires c < n && i + n <= k
    ensures var w := Rotation(n, c, k)[i..i + n];
      && (forall j :: 0 <= j < n ==> w[j] < n)
      && (forall j, l :: 0 <= j < l < n ==> w[j] != w[l])
      && (forall x :: 0 <= x < n ==> x in w)
  {
    var all := Rotation(n, c, k);
    RotationSuffix(n, c, k, i);
    var d := all[i];
    var w := all[i..i + n];
    forall j | 0 <= j < n ensures w[j] == if d + j < n then d + j else d + j - n {
      RotationAt(n, d, k - i, j);
      assert w[j] == all[i..][j];
    }
    forall x | 0 <= x < n ensures x in w {
      assert w[if x >= d then x - d else x + n - d] == x;
    }
  }

  function Times(w: seq<nat>, x: nat): (t: nat) {
    if w == [] then 0 else Times(w[..|w| - 1], x) + if w[|w| - 1] == x then 1 else 0
  }

  lemma {:induction false} RotationSnoc(n: nat, c: nat, k: nat)
    requires c < n
    ensures Rotation(n, c, k + 1)[..k] == Rotation(n, c, k)
    ensures k > 0 ==> Rotation(n, c, k)[k - 1] < n && Rotation(n, c, k + 1)[k] == Next(n, Rotation(n, c, k)[k - 1])
    decreases k
  {
    if k > 0 {
      RotationSnoc(n, Next(n, c), k - 1);
      if k == 1 {
        assert Rotation(n, c, 2)[1] == Next(n, c);
      }
    }
  }

  /** The cursor after `k` picks from a reset. */
  function CursorAfter(n: nat, k: nat): (c: nat)
    requires n > 0
    ensures c < n
  {
    if k == 0 then 0 else Next(n, CursorAfter(n, k - 1))
  }

  lemma {:induction false} RotationFromReset(n: nat, k: nat)
    requires n > 0
    ensures Rotation(n, 0, k + 1)[k] == CursorAfter(n, k)
  {
    if k > 0 {
      RotationFromReset(n, k - 1);
      RotationSnoc(n, 0, k);
    }
  }

  /** Since the last reset, the relays already visited this turn have one pick more than the others. */
  lemma {:induction false} CountsSinceReset(n: nat, k: nat) returns (turns: nat)
    requires n > 0
    ensures forall x: nat :: x < n ==>
      Times(Rotation(n, 0, k), x) == turns + if x < CursorAfter(n, k) then 1 else 0
  {
    if k == 0 {
      turns := 0;
    } else {
      turns := CountsSinceReset(n, k - 1);
      RotationSnoc(n, 0, k - 1);
      RotationFromReset(n, k - 1);
      var w := Rotation(n, 0, k);
      assert w[..k - 1] == Rotation(n, 0, k - 1) && w[k - 1] == CursorAfter(n, k - 1);
      if CursorAfter(n, k) == 0 {
        turns := turns + 1;
      }
    }
  }

  /** Pick counts since the last reset differ by at most one. */
  lemma CountsDifferByAtMostOne(n: nat, k: nat, x: nat, y: nat)
    requires x < n && y < n
    ensures -1 <= Times(Rotation(n, 0, k), x) - Times(Rotation(n, 0, k), y) <= 1
  {
    var turns := CountsSinceReset(n, k);
  }

  /** The picks of one country while its pool keeps the ordered IDs `ids`, starting with the cursor at `c`. */
  ghost predicate Steady(s: State, picks: seq<Pick>, country: string, ids: seq<string>, c: nat) {
    && Valid(s) && Playable(picks) && c < |ids|
    && (forall p :: p in picks && p.country == country ==> IDs(p.pool) == ids)
    && if country in s.snapshots && s.snapshots[country] == ids then s.cursors[country] == c else c == 0
  }

  /** Any |ids| consecutive picks of the country are a permutation of its pool, whatever other countries draw. */
  lemma PicksArePermutation(s: State, picks: seq<Pick>, country: string, ids: seq<string>, c: nat, i: nat)
    requires Steady(s, picks, country, ids, c)
    requires i + |ids| <= |Drawn(s, picks, country)|
    ensures var w := Drawn(s, picks, country)[i..i + |ids|];
      && (forall j :: 0 <= j < |ids| ==> w[j] < |ids|)
      && (forall j, l :: 0 <= j < l < |ids| ==> w[j] != w[l])
      && (forall x :: 0 <= x < |ids| ==> x in w)
  {
    hide Drawn, Rotation;
    DrawnRotates(s, picks, country, ids, c);
    var n, d := |ids|, Drawn(s, picks, country);
    ConsecutiveArePermutation(n, c, |d|, i);
    assert d[i..i + n] == Rotation(n, c, |d|)[i..i + n];
  }

  /** Since the reset that precedes them, how often two relays of the pool were picked differs by at most one. */
  lemma PickCountsDifferByAtMostOne(s: State, picks: seq<Pick>, country: string, ids: seq<string>, x: nat, y: nat)
    requires Steady(s, picks, country, ids, 0) && x < |ids| && y < |ids|
    ensures var w := Drawn(s, picks, country); -1 <= Times(w, x) - Times(w, y) <= 1
  {
    hide Drawn, Rotation;
    DrawnRotates(s, picks, country, ids, 0);
    CountsDifferByAtMostOne(|ids|, |Drawn(s, picks, country)|, x, y);
  }
}
