/** The lock-free slot counter: add, compare, undo. */
module Admission {

  /** A client of the counter between its atomic operations. */
  datatype Client = Outside | Holding | Undoing | Restoring

  datatype World = World(current: int, max: int, clients: seq<Client>)

  datatype Act = Acquire | Undo | Release | Restore

  function Put(w: World, i: nat, c: Client, d: int): (r: World)
    requires i < |w.clients|
  {
    w.(current := w.current + d, clients := w.clients[i := c])
  }

  /** One atomic operation of client `i`; one taken out of turn changes nothing. */
  function Step(w: World, i: nat, a: Act): (r: World) {
    if i >= |w.clients| then w
    else
      match (a, w.clients[i])
      case (Acquire, Outside) => Put(w, i, if w.current + 1 > w.max then Undoing else Holding, 1)
      case (Undo, Undoing) => Put(w, i, Outside, -1)
      case (Release, Holding) => Put(w, i, if w.current - 1 < 0 then Restoring else Outside, -1)
      case (Restore, Restoring) => Put(w, i, Outside, 1)
      case _ => w
  }

  function Run(w: World, acts: seq<(nat, Act)>): (r: World)
    decreases |acts|
  {
    if acts == [] then w else Run(Step(w, acts[0].0, acts[0].1), acts[1..])
  }

  function Count(cs: seq<Client>, c: Client): (n: nat)
    ensures n <= |cs|
  {
    if cs == [] then 0 else Count(cs[1..], c) + if cs[0] == c then 1 else 0
  }

  lemma {:induction false} CountUpdate(cs: seq<Client>, i: nat, x: Client, c: Client)
    requires i < |cs|
    ensures Count(cs[i := x], c) == Count(cs, c) - (if cs[i] == c then 1 else 0) + (if x == c then 1 else 0)
  {
    if i == 0 {
      assert cs[0 := x][1..] == cs[1..];
    } else {
      assert cs[i := x][1..] == cs[1..][i - 1 := x];
      CountUpdate(cs[1..], i - 1, x, c);
    }
  }

  /** The counter is holders plus pending undos, holders never exceed the maximum, nobody ever restores. */
  ghost predicate Inv(w: World) {
    && w.current == Count(w.clients, Holding) + Count(w.clients, Undoing)
    && Count(w.clients, Restoring) == 0
    && (Count(w.clients, Holding) <= w.max || Count(w.clients, Holding) == 0)
  }

  lemma StepKeeps(w: World, i: nat, a: Act)
    requires Inv(w)
    ensures Inv(Step(w, i, a))
  {
    if i < |w.clients| {
      var x := Step(w, i, a).clients[i];
      CountUpdate(w.clients, i, x, Holding);
      CountUpdate(w.clients, i, x, Undoing);
      CountUpdate(w.clients, i, x, Restoring);
    }
  }

  lemma {:induction false} NoneOf(cs: seq<Client>, c: Client)
    requires forall i :: 0 <= i < |cs| ==> cs[i] != c
    ensures Count(cs, c) == 0
  {
    if cs != [] {
      NoneOf(cs[1..], c);
    }
  }

  /** For any number of clients and any interleaving: slots are bounded, none leaks, the counter never goes negative. */
  lemma {:induction false} AdmissionSafe(w: World, acts: seq<(nat, Act)>)
    requires Inv(w)
    ensures var r := Run(w, acts);
      && Inv(r) && r.current >= 0 && r.max == w.max
      && ((forall i :: 0 <= i < |r.clients| ==> r.clients[i] == Outside) ==> r.current == 0)
    decreases |acts|
  {
    if acts == [] {
      if forall i :: 0 <= i < |w.clients| ==> w.clients[i] == Outside {
        NoneOf(w.clients, Holding);
        NoneOf(w.clients, Undoing);
      }
    } else {
      StepKeeps(w, acts[0].0, acts[0].1);
      hide Inv;
      AdmissionSafe(Step(w, acts[0].0, acts[0].1), acts[1..]);
    }
  }

  lemma StartsSafe(max: int, clients: seq<Client>)
    requires forall i :: 0 <= i < |clients| ==> clients[i] == Outside
    ensures Inv(World(0, max, clients))
  {
    NoneOf(clients, Holding);
    NoneOf(clients, Undoing);
    NoneOf(clients, Restoring);
  }

  /** So from a fresh counter on: at most `max` holders, and exactly zero once everyone has left. */
  lemma SafeFromStart(max: nat, clients: seq<Client>, acts: seq<(nat, Act)>)
    requires forall i :: 0 <= i < |clients| ==> clients[i] == Outside
    ensures var r := Run(World(0, max, clients), acts);
      && Count(r.clients, Holding) <= max && r.current == Count(r.clients, Holding) + Count(r.clients, Undoing)
      && ((forall i :: 0 <= i < |r.clients| ==> r.clients[i] == Outside) ==> r.current == 0)
  {
    StartsSafe(max, clients);
    AdmissionSafe(World(0, max, clients), acts);
  }

  /** Acquire succeeds exactly when holders and pending undos together leave room. */
  lemma AcquireIff(w: World, i: nat)
    requires Inv(w) && i < |w.clients| && w.clients[i] == Outside
    ensures Step(w, i, Acquire).clients[i] == Holding <==>
      Count(w.clients, Holding) + Count(w.clients, Undoing) < w.max
  {}

  /** A pending undo can turn a client away although no slot is held. */
  lemma SpuriousRejection()
    ensures var w := World(0, 1, [Outside, Outside, Outside]);
      var r := Run(w, [(0, Acquire), (1, Acquire), (0, Release), (2, Acquire)]);
      r.clients == [Outside, Undoing, Undoing] && Count(r.clients, Holding) == 0
  {
    var w := World(0, 1, [Outside, Outside, Outside]);
    var w1 := Step(w, 0, Acquire);
    var w2 := Step(w1, 1, Acquire);
    var w3 := Step(w2, 0, Release);
    var w4 := Step(w3, 2, Acquire);
    assert w4.clients == [Outside, Undoing, Undoing];
    RunFour(w, [(0, Acquire), (1, Acquire), (0, Release), (2, Acquire)]);
    NoneOf(w4.clients, Holding);
  }

  lemma RunFour(w: World, acts: seq<(nat, Act)>)
    requires |acts| == 4
    ensures Run(w, acts) ==
      Step(Step(Step(Step(w, acts[0].0, acts[0].1), acts[1].0, acts[1].1), acts[2].0, acts[2].1), acts[3].0, acts[3].1)
  {
    hide Step;
    var w1 := Step(w, acts[0].0, acts[0].1);
    var w2 := Step(w1, acts[1].0, acts[1].1);
    var w3 := Step(w2, acts[2].0, acts[2].1);
    assert acts[1..][1..] == acts[2..] && acts[2..][1..] == acts[3..] && acts[3..][1..] == [];
    assert Run(w3, acts[3..]) == Step(w3, acts[3].0, acts[3].1);
    assert Run(w2, acts[2..]) == Run(w3, acts[3..]);
    assert Run(w1, acts[1..]) == Run(w2, acts[2..]);
  }

  /** The limiter as called, each method run without interruption. */
  class Limiter {
    var current: int
    const max: int

    constructor (max: int)
      ensures current == 0 && this.max == max
    {
      current := 0;
      this.max := max;
    }

    method Acquire() returns (ok: bool)
      modifies this
      ensures ok <==> old(current) < max
      ensures current == old(current) + if ok then 1 else 0
    {
      current := current + 1;
      if current > max {
        current := current - 1;
        return false;
      }
      ok := true;
    }

    /** A release without a matching acquire is absorbed at zero. */
    method Release()
      requires current >= 0
      modifies this
      ensures current == if old(current) > 0 then old(current) - 1 else 0
    {
      current := current - 1;
      if current < 0 {
        current := current + 1;
      }
    }
  }
}
