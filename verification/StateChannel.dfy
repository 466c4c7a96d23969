/** The tunnel state manager: the current state and a four-slot notification channel that drops its oldest entry. */
module StateChannel {

  datatype ConnState = Connected | Connecting | Disconnected | Failed

  const SLOTS: nat := 4

  /** The channel after a send: a full channel loses its oldest entry. */
  function Sent<T>(q: seq<T>, x: T): (r: seq<T>)
    requires |q| <= SLOTS
    ensures |r| <= SLOTS
  {
    if |q| < SLOTS then q + [x] else q[1..] + [x]
  }

  class StateManager {
    var current: ConnState
    var updates: seq<ConnState>
    var closed: bool

    constructor ()
      ensures current == Disconnected && updates == [] && !closed
    {
      current, updates, closed := Disconnected, [], false;
    }

    /** Never blocks; after Close only the current state changes. */
    method Set(state: ConnState)
      requires |updates| <= SLOTS
      modifies this
      ensures current == state && closed == old(closed)
      ensures updates == if closed then old(updates) else Sent(old(updates), state)
    {
      current := state;
      if closed {
        return;
      }
      if |updates| == SLOTS {
        updates := updates[1..];
      }
      updates := updates + [state];
    }

    method Close()
      modifies this
      ensures closed && current == old(current) && updates == old(updates)
    {
      closed := true;
    }
  }

  // ---------- which notifications arrive ----------

  /** Notifications are numbered as they are set; the channel holds numbers, and so does the receiver. */
  datatype Channel = Channel(count: nat, queue: seq<nat>, received: seq<nat>)

  datatype Op = Notify | Receive

  function Step(c: Channel, op: Op): (r: Channel)
    requires |c.queue| <= SLOTS
    ensures |r.queue| <= SLOTS
  {
    match op
    case Notify => Channel(c.count + 1, Sent(c.queue, c.count), c.received)
    case Receive => if c.queue == [] then c else c.(queue := c.queue[1..], received := c.received + [c.queue[0]])
  }

  function Run(c: Channel, ops: seq<Op>): (r: Channel)
    requires |c.queue| <= SLOTS
    decreases |ops|
  {
    if ops == [] then c else Run(Step(c, ops[0]), ops[1..])
  }

  function Notifies(ops: seq<Op>): (n: nat) {
    if ops == [] then 0 else Notifies(ops[1..]) + if ops[0] == Notify then 1 else 0
  }

  /** The channel always holds the latest notifications, in order, and the receiver only older ones, in order. */
  ghost predicate Inv(c: Channel) {
    && |c.queue| <= SLOTS && |c.queue| <= c.count
    && (forall i :: 0 <= i < |c.queue| ==> c.queue[i] == c.count - |c.queue| + i)
    && (forall i :: 0 <= i < |c.received| ==> c.received[i] < c.count - |c.queue|)
    && (forall i, j :: 0 <= i < j < |c.received| ==> c.received[i] < c.received[j])
  }

  lemma StepKeeps(c: Channel, op: Op)
    requires Inv(c)
    ensures Inv(Step(c, op))
  {}

  lemma {:induction false} RunKeeps(c: Channel, ops: seq<Op>)
    requires Inv(c)
    ensures Inv(Run(c, ops))
    decreases |ops|
  {
    if ops != [] {
      StepKeeps(c, ops[0]);
      RunKeeps(Step(c, ops[0]), ops[1..]);
    }
  }

  /** At some moment of the run `k` has not been received and more than four notifications are not older than it. */
  ghost predicate OvertakenUnread(c: Channel, ops: seq<Op>, k: nat)
    requires |c.queue| <= SLOTS
    decreases |ops|
  {
    || (k !in c.received && c.count - k > SLOTS)
    || (ops != [] && OvertakenUnread(Step(c, ops[0]), ops[1..], k))
  }

  lemma QueueIsLatest(c: Channel, k: nat)
    requires Inv(c)
    ensures k in c.queue <==> c.count - |c.queue| <= k < c.count
  {
    if c.count - |c.queue| <= k < c.count {
      assert c.queue[k - (c.count - |c.queue|)] == k;
    }
  }

  lemma StepReceives(c: Channel, op: Op, k: nat)
    requires Inv(c)
    ensures k in c.received ==> k in Step(c, op).received
    ensures k in Step(c, op).received ==> k in c.received || k in c.queue
  {
    var d := Step(c, op);
    assert forall i :: 0 <= i < |c.received| ==> d.received[i] == c.received[i];
  }

  /** What is neither queued nor received any more stays so. */
  lemma {:induction false} StaysLost(c: Channel, ops: seq<Op>, k: nat)
    requires Inv(c) && k < c.count && k !in c.queue && k !in c.received
    ensures k !in Run(c, ops).queue && k !in Run(c, ops).received
    decreases |ops|
  {
    if ops != [] {
      var d := Step(c, ops[0]);
      StepKeeps(c, ops[0]);
      QueueIsLatest(c, k);
      QueueIsLatest(d, k);
      StepReceives(c, ops[0], k);
      StaysLost(d, ops[1..], k);
    }
  }

  lemma {:induction false} StaysReceived(c: Channel, ops: seq<Op>, k: nat)
    requires Inv(c) && k in c.received
    ensures k in Run(c, ops).received && !OvertakenUnread(c, ops, k)
    decreases |ops|
  {
    if ops != [] {
      StepKeeps(c, ops[0]);
      StepReceives(c, ops[0], k);
      StaysReceived(Step(c, ops[0]), ops[1..], k);
    }
  }

  /** A notification is lost in a run exactly when at some moment four newer ones have overtaken it unread. */
  lemma {:induction false} LostIff(c: Channel, ops: seq<Op>, k: nat)
    requires Inv(c) && (k in c.queue || k in c.received)
    ensures (k !in Run(c, ops).queue && k !in Run(c, ops).received) <==> OvertakenUnread(c, ops, k)
    decreases |ops|
  {
    QueueIsLatest(c, k);
    if k in c.received {
      StaysReceived(c, ops, k);
    } else if ops != [] {
      var d := Step(c, ops[0]);
      StepKeeps(c, ops[0]);
      QueueIsLatest(d, k);
      StillThere(c, ops[0], k);
      if k in d.queue || k in d.received {
        LostIff(d, ops[1..], k);
      } else {
        StaysLost(d, ops[1..], k);
      }
    }
  }

  /** One step loses a queued notification only by overtaking it. */
  lemma StillThere(c: Channel, op: Op, k: nat)
    requires Inv(c) && k in c.queue
    ensures var d := Step(c, op); k in d.queue || k in d.received || d.count - k > SLOTS
  {
    var d := Step(c, op);
    StepKeeps(c, op);
    QueueIsLatest(c, k);
    QueueIsLatest(d, k);
    if op == Receive && k == c.queue[0] {
      assert d.received[|c.received|] == k;
    }
  }

  /** A notification followed by at most three others is received or still queued, whatever the receiver does. */
  lemma NotOvertaken(c: Channel, ops: seq<Op>, k: nat)
    requires Inv(c) && (k in c.queue || k in c.received) && c.count - k + Notifies(ops) <= SLOTS
    ensures k in Run(c, ops).queue || k in Run(c, ops).received
  {
    LostIff(c, ops, k);
    FewAreNotEnough(c, ops, k);
  }

  lemma {:induction false} FewAreNotEnough(c: Channel, ops: seq<Op>, k: nat)
    requires |c.queue| <= SLOTS && c.count - k + Notifies(ops) <= SLOTS
    ensures !OvertakenUnread(c, ops, k)
    decreases |ops|
  {
    if ops != [] {
      FewAreNotEnough(Step(c, ops[0]), ops[1..], k);
    }
  }
}
