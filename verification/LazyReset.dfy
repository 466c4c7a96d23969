/**
 * The double-checked reset of a window counter, one atomic load, store, add or lock operation at a time, for any
 * number of threads calling addBytes within the same day (and, for the hourly counter, the same hour).
 */
module LazyReset {
  import opened Bytes

  /** Where a thread stands in addBytes, as far as one counter is concerned. */
  datatype PC = Entering | WaitingLock | Locked | Zeroing | Stamping | Unlocking | Adding | Finished

  datatype Thread = Thread(n: int, pc: PC)

  /** The counter, the start of the window it counts, the reset mutex, and the threads. */
  datatype World = World(bytes: int, stamp: int, holder: Option<nat>, threads: seq<Thread>)

  function Move(w: World, i: nat, pc: PC): (r: World)
    requires i < |w.threads|
  {
    w.(threads := w.threads[i := w.threads[i].(pc := pc)])
  }

  /** Thread `i` takes its next atomic step; a thread waiting for a held lock stays where it is. */
  function Step(w: World, today: int, i: nat): (r: World) {
    if i >= |w.threads| then w
    else
      match w.threads[i].pc
      case Entering => Move(w, i, if w.stamp < today then WaitingLock else Adding)
      case WaitingLock => if w.holder.None? then Move(w, i, Locked).(holder := Some(i)) else w
      case Locked => Move(w, i, if w.stamp < today then Zeroing else Unlocking)
      case Zeroing => Move(w, i, Stamping).(bytes := 0)
      case Stamping => Move(w, i, Unlocking).(stamp := today)
      case Unlocking => Move(w, i, Adding).(holder := None)
      case Adding => Move(w, i, Finished).(bytes := w.bytes + w.threads[i].n)
      case Finished => w
  }

  function Run(w: World, today: int, schedule: seq<nat>): (r: World)
    decreases |schedule|
  {
    if schedule == [] then w else Run(Step(w, today, schedule[0]), today, schedule[1..])
  }

  /** Bytes added by the threads that have finished. */
  function Added(ts: seq<Thread>): (s: int) {
    if ts == [] then 0 else Added(ts[1..]) + if ts[0].pc == Finished then ts[0].n else 0
  }

  /** What the counter held for this window before any of the threads entered. */
  function Base(w: World, today: int): (b: int) {
    if w.stamp < today then 0 else w.bytes
  }

  /** All threads about to enter, lock free, counter of this window or an earlier one. */
  ghost predicate Initial(w: World, today: int) {
    w.stamp <= today && w.holder.None? && forall i :: 0 <= i < |w.threads| ==> w.threads[i].pc == Entering
  }

  predicate Holds(pc: PC) {
    pc == Locked || pc == Zeroing || pc == Stamping || pc == Unlocking
  }

  /** Exactly the thread inside the critical section holds the mutex. */
  ghost predicate LockInv(w: World) {
    && (w.holder.Some? ==> w.holder.value < |w.threads|)
    && (forall i :: 0 <= i < |w.threads| ==> (Holds(w.threads[i].pc) <==> w.holder == Some(i)))
  }

  /** Where thread `i` may stand, given the published stamp. */
  ghost predicate Placed(w: World, today: int, i: nat)
    requires i < |w.threads|
  {
    var pc := w.threads[i].pc;
    if w.stamp < today then pc != Unlocking && pc != Adding && pc != Finished && (pc == Stamping ==> w.bytes == 0)
    else pc != Zeroing && pc != Stamping
  }

  ghost predicate Inv(w: World, today: int, base: int) {
    && w.stamp <= today && LockInv(w)
    && (w.stamp < today ==> base == 0)
    && (w.stamp == today ==> w.bytes == base + Added(w.threads))
    && forall i :: 0 <= i < |w.threads| ==> Placed(w, today, i)
  }

  lemma {:induction false} AddedUpdate(ts: seq<Thread>, i: nat, t: Thread)
    requires i < |ts|
    ensures Added(ts[i := t]) == Added(ts)
      - (if ts[i].pc == Finished then ts[i].n else 0) + (if t.pc == Finished then t.n else 0)
  {
    if i == 0 {
      assert ts[0 := t][1..] == ts[1..];
    } else {
      assert ts[i := t][1..] == ts[1..][i - 1 := t];
      AddedUpdate(ts[1..], i - 1, t);
    }
  }

  lemma {:induction false} NoneAdded(ts: seq<Thread>)
    requires forall i :: 0 <= i < |ts| ==> ts[i].pc != Finished
    ensures Added(ts) == 0
  {
    if ts != [] {
      NoneAdded(ts[1..]);
    }
  }

  lemma InitialInv(w: World, today: int)
    requires Initial(w, today)
    ensures Inv(w, today, Base(w, today))
  {
    NoneAdded(w.threads);
  }

  lemma StepKeepsLock(w: World, today: int, i: nat)
    requires LockInv(w)
    ensures LockInv(Step(w, today, i))
  {}

  lemma StepKeepsPlaces(w: World, today: int, i: nat)
    requires w.stamp <= today && LockInv(w) && forall j :: 0 <= j < |w.threads| ==> Placed(w, today, j)
    ensures var r := Step(w, today, i); forall j :: 0 <= j < |r.threads| ==> Placed(r, today, j)
  {
    var r := Step(w, today, i);
    forall j | 0 <= j < |r.threads| ensures Placed(r, today, j) {
      assert Placed(w, today, j);
      if i < |w.threads| { assert Placed(w, today, i); }
    }
  }

  lemma StepKeeps(w: World, today: int, base: int, i: nat)
    requires Inv(w, today, base)
    ensures Inv(Step(w, today, i), today, base)
  {
    StepKeepsLock(w, today, i);
    StepKeepsPlaces(w, today, i);
    if i < |w.threads| {
      assert Placed(w, today, i);
      AddedUpdate(w.threads, i, Step(w, today, i).threads[i]);
      if w.stamp < today {
        forall j | 0 <= j < |w.threads| ensures w.threads[j].pc != Finished { assert Placed(w, today, j); }
        NoneAdded(w.threads);
      }
    }
    hide LockInv, Placed, Added;
  }

  lemma {:induction false} RunKeeps(w: World, today: int, base: int, schedule: seq<nat>)
    requires Inv(w, today, base)
    ensures Inv(Run(w, today, schedule), today, base)
    decreases |schedule|
  {
    hide Inv, Step;
    if schedule != [] {
      StepKeeps(w, today, base, schedule[0]);
      RunKeeps(Step(w, today, schedule[0]), today, base, schedule[1..]);
    }
  }

  function Sum(ts: seq<Thread>): (s: int) {
    if ts == [] then 0 else Sum(ts[1..]) + ts[0].n
  }

  lemma {:induction false} AllAdded(ts: seq<Thread>)
    requires forall i :: 0 <= i < |ts| ==> ts[i].pc == Finished
    ensures Added(ts) == Sum(ts)
  {
    if ts != [] {
      AllAdded(ts[1..]);
    }
  }

  lemma {:induction false} SumSteady(w: World, today: int, schedule: seq<nat>)
    ensures Sum(Run(w, today, schedule).threads) == Sum(w.threads)
    decreases |schedule|
  {
    if schedule != [] {
      SumStep(w, today, schedule[0]);
      hide Step;
      SumSteady(Step(w, today, schedule[0]), today, schedule[1..]);
    }
  }

  lemma SumStep(w: World, today: int, i: nat)
    ensures Sum(Step(w, today, i).threads) == Sum(w.threads)
  {
    if i < |w.threads| {
      SumUpdate(w.threads, i, Step(w, today, i).threads[i]);
    }
  }

  lemma {:induction false} SumUpdate(ts: seq<Thread>, i: nat, t: Thread)
    requires i < |ts| && t.n == ts[i].n
    ensures Sum(ts[i := t]) == Sum(ts)
  {
    if i == 0 {
      assert ts[0 := t][1..] == ts[1..];
    } else {
      assert ts[i := t][1..] == ts[1..][i - 1 := t];
      SumUpdate(ts[1..], i - 1, t);
    }
  }

  /** No byte is lost or counted twice: once every thread is done, the counter is exact. */
  lemma ExactAtTheEnd(w: World, today: int, schedule: seq<nat>)
    requires Initial(w, today) && w.threads != []
    requires var r := Run(w, today, schedule);
      forall i :: 0 <= i < |r.threads| ==> r.threads[i].pc == Finished
    ensures Run(w, today, schedule).bytes == Base(w, today) + Sum(w.threads)
  {
    hide Run;
    var r := Run(w, today, schedule);
    InitialInv(w, today);
    RunKeeps(w, today, Base(w, today), schedule);
    SumSteady(w, today, schedule);
    AllAdded(r.threads);
    ThreadsStay(w, today, schedule);
    assert r.threads[0].pc == Finished && Placed(r, today, 0);
  }

  lemma {:induction false} ThreadsStay(w: World, today: int, schedule: seq<nat>)
    ensures |Run(w, today, schedule).threads| == |w.threads|
    decreases |schedule|
  {
    if schedule != [] {
      ThreadsStay(Step(w, today, schedule[0]), today, schedule[1..]);
    }
  }

  /** The counter is exact at every moment after the new stamp is published. */
  lemma ExactOncePublished(w: World, today: int, schedule: seq<nat>)
    requires Initial(w, today) && Run(w, today, schedule).stamp == today
    ensures Run(w, today, schedule).bytes == Base(w, today) + Added(Run(w, today, schedule).threads)
  {
    hide Run;
    InitialInv(w, today);
    RunKeeps(w, today, Base(w, today), schedule);
  }

  /** Until every thread is done, some thread can take a step. */
  lemma SomeThreadMoves(w: World, today: int, base: int)
    requires Inv(w, today, base)
    ensures (exists i :: 0 <= i < |w.threads| && w.threads[i].pc != Finished) ==>
      exists i :: 0 <= i < |w.threads| && Step(w, today, i) != w
  {
    if i :| 0 <= i < |w.threads| && w.threads[i].pc != Finished {
      var k := if w.threads[i].pc == WaitingLock && w.holder.Some? then w.holder.value else i;
      assert Step(w, today, k).threads[k].pc != w.threads[k].pc;
    }
  }
}
