/** The bounded stack of NAT ports. */
module PortPool {
  import opened Bytes
  import opened Packet
  import opened NatModel

  lemma SwapKeeps(s: seq<u16>, i: nat, j: nat)
    requires NoDup(s) && i < |s| && j < |s|
    ensures var r := s[i := s[j]][j := s[i]]; NoDup(r) && forall p :: p in r <==> p in s
  {
    var r := s[i := s[j]][j := s[i]];
    assert r[i] == s[j] && r[j] == s[i];
    forall p ensures p in r <==> p in s {
      if p in s {
        var k :| 0 <= k < |s| && s[k] == p;
        assert r[if k == i then j else if k == j then i else k] == p;
      }
    }
  }

  class Pool {
    var free: seq<u16>
    var inUse: set<u16>

    /** Fills the range in order, then shuffles; `picks[i]` is the random index drawn for position `i`. */
    constructor (min: u16, max: u16, picks: seq<nat>)
      requires min <= max
      requires |picks| == max - min + 1 && forall i :: 0 <= i < |picks| ==> picks[i] <= i
      ensures NoDup(free) && (forall p :: p in free <==> min <= p <= max) && inUse == {}
    {
      var n := max - min + 1;
      var ports := new u16[n](_ => 0);
      var i := 0;
      while i < n
        invariant 0 <= i <= n
        invariant forall k :: 0 <= k < i ==> ports[k] == min + k
      {
        ports[i] := min + i;
        i := i + 1;
      }
      forall p | min <= p <= max ensures p in ports[..] {
        assert ports[..][p - min] == p;
      }
      i := n - 1;
      while i > 0
        invariant 0 <= i <= n - 1
        invariant NoDup(ports[..]) && forall p :: p in ports[..] <==> min <= p <= max
      {
        var j := picks[i];
        SwapKeeps(ports[..], i, j);
        ghost var swapped := ports[..][i := ports[j]][j := ports[i]];
        ports[i], ports[j] := ports[j], ports[i];
        assert ports[..] == swapped;
        i := i - 1;
      }
      free := ports[..];
      inUse := {};
    }

    /** Pops the top of the stack, or reports exhaustion. */
    method Allocate() returns (r: Result<u16>)
      modifies this
      ensures old(free) == [] ==> r == Err(PortExhausted) && free == [] && inUse == old(inUse)
      ensures old(free) != [] ==>
        r == Ok(old(free)[|old(free)| - 1]) && free + [r.value] == old(free) && inUse == old(inUse) + {r.value}
    {
      if |free| == 0 {
        return Err(PortExhausted);
      }
      var port := free[|free| - 1];
      free := free[..|free| - 1];
      inUse := inUse + {port};
      r := Ok(port);
    }

    /** Pushes an allocated port back; a second release is ignored. */
    method Release(port: u16)
      modifies this
      ensures port in old(inUse) ==> free == old(free) + [port] && inUse == old(inUse) - {port}
      ensures port !in old(inUse) ==> free == old(free) && inUse == old(inUse)
    {
      if port !in inUse {
        return;
      }
      inUse := inUse - {port};
      free := free + [port];
    }
  }
}
