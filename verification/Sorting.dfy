/** Go's sort.Slice, as far as its contract goes: any comparison that is a strict weak order will do. */
module Sorting {

  ghost predicate StrictWeak<T(!new)>(less: (T, T) -> bool) {
    && (forall a, b :: less(a, b) ==> !less(b, a))
    && (forall a, b, c :: !less(b, a) && !less(c, b) ==> !less(c, a))
  }

  ghost predicate Sorted<T>(s: seq<T>, less: (T, T) -> bool) {
    forall i, j :: 0 <= i < j < |s| ==> !less(s[j], s[i])
  }

  /** `s` with `x` put after every element that is not greater. */
  function Inserted<T>(s: seq<T>, x: T, less: (T, T) -> bool): (r: seq<T>)
    ensures multiset(r) == multiset(s) + multiset{x}
  {
    if s == [] || !less(x, s[|s| - 1]) then s + [x]
    else
      assert s == s[..|s| - 1] + [s[|s| - 1]];
      Inserted(s[..|s| - 1], x, less) + [s[|s| - 1]]
  }

  lemma {:induction false} InsertedSorted<T(!new)>(s: seq<T>, x: T, less: (T, T) -> bool)
    requires StrictWeak(less) && Sorted(s, less)
    ensures Sorted(Inserted(s, x, less), less)
  {
    if s == [] || !less(x, s[|s| - 1]) {
    } else {
      var last, r := s[|s| - 1], Inserted(s[..|s| - 1], x, less);
      InsertedSorted(s[..|s| - 1], x, less);
      forall i | 0 <= i < |r| ensures !less(last, r[i]) {
        assert r[i] in multiset(r);
        assert r[i] == x || r[i] in s[..|s| - 1];
      }
    }
  }

  method Sort<T(!new)>(xs: seq<T>, less: (T, T) -> bool) returns (s: seq<T>)
    requires StrictWeak(less)
    ensures multiset(s) == multiset(xs) && Sorted(s, less)
  {
    s := [];
    for i := 0 to |xs|
      invariant multiset(s) == multiset(xs[..i]) && Sorted(s, less)
    {
      assert xs[..i + 1] == xs[..i] + [xs[i]];
      InsertedSorted(s, xs[i], less);
      s := Inserted(s, xs[i], less);
    }
    assert xs[..|xs|] == xs;
  }
}
