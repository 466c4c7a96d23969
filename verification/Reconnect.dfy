/** Reconnection under the kill switch: every run, every choice of failures by the environment. */
module Reconnect {
  import StateChannel

  type ConnState = StateChannel.ConnState

  // Durations in milliseconds.
  const INITIAL_BACKOFF: nat := 100
  const BACKOFF_FACTOR: nat := 2
  const MAX_BACKOFF: nat := 30000
  const RETRIES_BEFORE_FAILOVER: nat := 3
  const BREAKER_THRESHOLD: nat := 5

  function NextBackoff(current: nat): (next: nat) {
    var next := current * BACKOFF_FACTOR;
    if next > MAX_BACKOFF then MAX_BACKOFF else next
  }

  /** What happened, in order; connect and failover attempts record whether the DNS proxy was running. */
  datatype Event =
    | Torn
    | StoppedProxy
    | StartedProxy(ok: bool)
    | Attempt(backoff: nat, proxy: bool, ok: bool)
    | Failover(proxy: bool, ok: bool)
    | Tripped

  /** Kill switch flag, the proxy it controls, the breaker flag, and the history. */
  datatype World = World(active: bool, proxy: bool, failed: bool, trace: seq<Event>)

  function Log(w: World, e: Event): (r: World) {
    w.(trace := w.trace + [e])
  }

  /** Activate: refuses when active; otherwise stops the proxy first, and is active once the resolver call succeeds. */
  function Activated(w: World, resolverOk: bool): (r: World) {
    if w.active then w else Log(w, StoppedProxy).(proxy := false, active := resolverOk)
  }

  predicate ActivateFails(w: World, resolverOk: bool) {
    w.active || !resolverOk
  }

  /** Deactivate: refuses when inactive; otherwise restarts the proxy, and is released once that succeeds. */
  function Deactivated(w: World, startOk: bool): (r: World) {
    if !w.active then w
    else Log(w, StartedProxy(startOk)).(proxy := startOk, active := !startOk)
  }

  predicate DeactivateFails(w: World, startOk: bool) {
    !w.active || !startOk
  }

  /** Everything the environment decides during one cycle; attempts are numbered from zero. */
  datatype Env = Env(
    resolverOk1: bool, cancelActivate: bool, resolverOk2: bool,
    cancelBackoff: nat -> bool, connectOk: nat -> bool, cancelConnect: nat -> bool, failoverOk: bool,
    startOk1: bool, cancelRelease: bool, startOk2: bool)

  /** Deactivation with one retry. */
  function Released(w: World, env: Env): (r: World) {
    var once := Deactivated(w, env.startOk1);
    if DeactivateFails(w, env.startOk1) && !env.cancelRelease then Deactivated(once, env.startOk2) else once
  }

  /** The connect loop from its `retries`-th failure on. */
  function Attempts(w: World, env: Env, hasFailover: bool, retries: nat, backoff: nat, attempted: bool): (r: World)
    requires retries < BREAKER_THRESHOLD
    decreases BREAKER_THRESHOLD - retries
  {
    if env.cancelBackoff(retries) then w
    else
      var ok := env.connectOk(retries);
      var tried := Log(w, Attempt(backoff, w.proxy, ok));
      if ok then Released(tried, env)
      else if env.cancelConnect(retries) then tried
      else
        var n := retries + 1;
        var failsOver := n >= RETRIES_BEFORE_FAILOVER && hasFailover && !attempted;
        var over := if failsOver then Log(tried, Failover(w.proxy, env.failoverOk)) else tried;
        if failsOver && env.failoverOk then Released(over, env)
        else if n >= BREAKER_THRESHOLD then Log(over, Tripped).(failed := true)
        else Attempts(over, env, hasFailover, n, NextBackoff(backoff), attempted || failsOver)
  }

  /** The world in which the connect loop starts, unless the cycle is cancelled before. */
  function Armed(w: World, env: Env): (r: World) {
    var torn := Log(w, Torn);
    var once := Activated(torn, env.resolverOk1);
    if ActivateFails(torn, env.resolverOk1) then Activated(once, env.resolverOk2) else once
  }

  /** One disconnect handled from start to finish. */
  function Cycle(w: World, env: Env, hasFailover: bool): (r: World) {
    var torn := Log(w, Torn);
    if ActivateFails(torn, env.resolverOk1) && env.cancelActivate then Activated(torn, env.resolverOk1)
    else Attempts(Armed(w, env), env, hasFailover, 0, INITIAL_BACKOFF, false)
  }

  datatype Input = Update(state: ConnState, env: Env) | Reset

  function React(w: World, hasFailover: bool, i: Input): (r: World) {
    match i
    case Update(state, env) => if state == StateChannel.Disconnected && !w.failed then Cycle(w, env, hasFailover) else w
    case Reset => w.(failed := false)
  }

  function Run(w: World, hasFailover: bool, inputs: seq<Input>): (r: World)
    decreases |inputs|
  {
    if inputs == [] then w else Run(React(w, hasFailover, inputs[0]), hasFailover, inputs[1..])
  }

  // ---------- when anything happens ----------

  /** The cycle is cancelled before its first attempt: between the activation calls or during the first wait. */
  predicate CancelledEarly(active: bool, env: Env) {
    ((active || !env.resolverOk1) && env.cancelActivate) || env.cancelBackoff(0)
  }

  /** The tunnel was torn down, and unless cancelled early a first attempt was made after 100 ms. */
  ghost predicate Reacted(before: seq<Event>, active: bool, env: Env, after: seq<Event>) {
    && before + [Torn] <= after
    && (CancelledEarly(active, env) ||
        exists i :: |before| < i < |after| && after[i].Attempt? && after[i].backoff == 100 &&
                    after[i].ok == env.connectOk(0))
  }

  lemma ReleasedExtends(w: World, env: Env)
    ensures w.trace <= Released(w, env).trace
  {}

  lemma {:induction false} AttemptsExtend(w: World, env: Env, hasFailover: bool, retries: nat, backoff: nat,
                                          attempted: bool)
    requires retries < BREAKER_THRESHOLD
    ensures var r := Attempts(w, env, hasFailover, retries, backoff, attempted);
      (if env.cancelBackoff(retries) then w.trace
       else w.trace + [Attempt(backoff, w.proxy, env.connectOk(retries))]) <= r.trace
    decreases BREAKER_THRESHOLD - retries
  {
    hide Released, NextBackoff;
    if !env.cancelBackoff(retries) {
      var tried := Log(w, Attempt(backoff, w.proxy, env.connectOk(retries)));
      ReleasedExtends(tried, env);
      var n := retries + 1;
      var failsOver := n >= RETRIES_BEFORE_FAILOVER && hasFailover && !attempted;
      var over := if failsOver then Log(tried, Failover(w.proxy, env.failoverOk)) else tried;
      ReleasedExtends(over, env);
      if n < BREAKER_THRESHOLD {
        AttemptsExtend(over, env, hasFailover, n, NextBackoff(backoff), attempted || failsOver);
      }
    }
  }

  lemma CycleReacts(w: World, env: Env, hasFailover: bool)
    ensures Reacted(w.trace, w.active, env, Cycle(w, env, hasFailover).trace)
  {
    var a := Armed(w, env);
    assert w.trace + [Torn] <= a.trace;
    AttemptsExtend(a, env, hasFailover, 0, INITIAL_BACKOFF, false);
    hide Attempts, Armed;
    if !CancelledEarly(w.active, env) {
      assert Cycle(w, env, hasFailover).trace[|a.trace|] == Attempt(INITIAL_BACKOFF, a.proxy, env.connectOk(0));
    }
  }

  lemma {:induction false} RunExtends(w: World, hasFailover: bool, inputs: seq<Input>)
    ensures w.trace <= Run(w, hasFailover, inputs).trace
    decreases |inputs|
  {
    hide Cycle;
    if inputs != [] {
      if inputs[0].Update? {
        CycleReacts(w, inputs[0].env, hasFailover);
      }
      RunExtends(React(w, hasFailover, inputs[0]), hasFailover, inputs[1..]);
    }
  }

  lemma {:induction false} RunConcat(w: World, hasFailover: bool, a: seq<Input>, b: seq<Input>)
    ensures Run(w, hasFailover, a + b) == Run(Run(w, hasFailover, a), hasFailover, b)
    decreases |a|
  {
    hide React;
    if a == [] {
      assert a + b == b;
    } else {
      assert (a + b)[0] == a[0] && (a + b)[1..] == a[1..] + b;
      RunConcat(React(w, hasFailover, a[0]), hasFailover, a[1..], b);
    }
  }

  lemma RunOne(w: World, hasFailover: bool, i: Input)
    ensures Run(w, hasFailover, [i]) == React(w, hasFailover, i)
  {
    assert Run(React(w, hasFailover, i), hasFailover, [i][1..]) == React(w, hasFailover, i);
  }

  /**
   * Wherever a run stands, a disconnect is reacted to unless the breaker has tripped, and after a Reset in any case;
   * a notification of any other state leaves the world alone.
   */
  lemma DisconnectReacts(w: World, hasFailover: bool, inputs: seq<Input>, state: ConnState, env: Env)
    ensures var u := Run(w, hasFailover, inputs); var r := Run(w, hasFailover, inputs + [Update(state, env)]);
      if state == StateChannel.Disconnected && !u.failed then Reacted(u.trace, u.active, env, r.trace) else r == u
    ensures var u := Run(w, hasFailover, inputs); var r := Run(w, hasFailover, inputs + [Reset, Update(state, env)]);
      if state == StateChannel.Disconnected then Reacted(u.trace, u.active, env, r.trace)
      else r == u.(failed := false)
  {
    var u, i := Run(w, hasFailover, inputs), Update(state, env);
    hide Cycle, Reacted;
    RunConcat(w, hasFailover, inputs, [i]);
    RunConcat(w, hasFailover, inputs, [Reset, i]);
    RunConcat(u, hasFailover, [Reset], [i]);
    assert [Reset] + [i] == [Reset, i];
    RunOne(u, hasFailover, Reset);
    RunOne(u, hasFailover, i);
    RunOne(u.(failed := false), hasFailover, i);
    CycleReacts(u, env, hasFailover);
    CycleReacts(u.(failed := false), env, hasFailover);
  }

  predicate IsDisconnect(i: Input) {
    i.Update? && i.state == StateChannel.Disconnected
  }

  /** From an untripped reconnector, a run tears the tunnel down exactly when it meets a disconnect. */
  lemma {:induction false} RunTears(w: World, hasFailover: bool, inputs: seq<Input>)
    requires !w.failed
    ensures var r := Run(w, hasFailover, inputs);
      if exists i :: i in inputs && IsDisconnect(i) then w.trace + [Torn] <= r.trace else r == w
    decreases |inputs|
  {
    hide Cycle;
    if inputs != [] {
      var next := React(w, hasFailover, inputs[0]);
      assert forall i :: i in inputs <==> i == inputs[0] || i in inputs[1..];
      if IsDisconnect(inputs[0]) {
        CycleReacts(w, inputs[0].env, hasFailover);
        RunExtends(next, hasFailover, inputs[1..]);
      } else {
        RunTears(next, hasFailover, inputs[1..]);
      }
    }
  }

  // ---------- the objects ----------

  class KillSwitch {
    var active: bool
    /** The DNS proxy behind the stop and start callbacks. */
    var proxyRunning: bool
    ghost var trace: seq<Event>

    constructor ()
      ensures !active && proxyRunning && trace == []
    {
      active, proxyRunning, trace := false, true, [];
    }

    method Activate(resolverOk: bool) returns (err: bool)
      modifies this
      ensures var w := Activated(World(old(active), old(proxyRunning), false, old(trace)), resolverOk);
        active == w.active && proxyRunning == w.proxy && trace == w.trace
      ensures err == (old(active) || !resolverOk)
      ensures old(active) ==> unchanged(this)
      ensures !old(active) ==> !proxyRunning && active == resolverOk && trace == old(trace) + [StoppedProxy]
    {
      if active {
        return true;
      }
      proxyRunning := false;
      trace := trace + [StoppedProxy];
      if !resolverOk {
        return true;
      }
      active := true;
      err := false;
    }

    method Deactivate(startOk: bool) returns (err: bool)
      modifies this
      ensures var w := Deactivated(World(old(active), old(proxyRunning), false, old(trace)), startOk);
        active == w.active && proxyRunning == w.proxy && trace == w.trace
      ensures err == (!old(active) || !startOk)
      ensures !old(active) ==> unchanged(this)
      ensures old(active) ==>
        proxyRunning == startOk && active == !startOk && trace == old(trace) + [StartedProxy(startOk)]
    {
      if !active {
        return true;
      }
      proxyRunning := startOk;
      trace := trace + [StartedProxy(startOk)];
      if !startOk {
        return true;
      }
      active := false;
      err := false;
    }
  }

  class Reconnector {
    const killSwitch: KillSwitch
    const hasFailover: bool
    var failed: bool
    var reconnecting: bool

    constructor (ks: KillSwitch, hasFailover: bool)
      ensures killSwitch == ks && this.hasFailover == hasFailover && !failed && !reconnecting
    {
      killSwitch, this.hasFailover, failed, reconnecting := ks, hasFailover, false, false;
    }

    ghost function View(): (w: World)
      reads this, killSwitch
    {
      World(killSwitch.active, killSwitch.proxyRunning, failed, killSwitch.trace)
    }

    ghost method Record(e: Event)
      modifies killSwitch`trace
      ensures View() == Log(old(View()), e)
    {
      killSwitch.trace := killSwitch.trace + [e];
    }

    method DeactivateKillSwitch(env: Env)
      modifies killSwitch
      ensures View() == Released(old(View()), env)
    {
      var err := killSwitch.Deactivate(env.startOk1);
      if err {
        if env.cancelRelease {
          return;
        }
        err := killSwitch.Deactivate(env.startOk2);
      }
    }

    /** Stops DNS for the cycle; says whether the wait between the two activation calls was cancelled. */
    method ArmKillSwitch(env: Env) returns (cancelled: bool)
      modifies killSwitch
      ensures var torn := Log(old(View()), Torn); var once := Activated(torn, env.resolverOk1);
        && cancelled == (ActivateFails(torn, env.resolverOk1) && env.cancelActivate)
        && View() == if cancelled then once else Armed(old(View()), env)
    {
      Record(Torn);
      var err := killSwitch.Activate(env.resolverOk1);
      cancelled := err && env.cancelActivate;
      if err && !cancelled {
        err := killSwitch.Activate(env.resolverOk2);
      }
    }

    /** The failover call, its outcome, and the release when it succeeds. */
    method TryFailover(env: Env)
      modifies killSwitch
      ensures var over := Log(old(View()), Failover(old(killSwitch.proxyRunning), env.failoverOk));
        View() == if env.failoverOk then Released(over, env) else over
    {
      hide Released;
      Record(Failover(killSwitch.proxyRunning, env.failoverOk));
      if env.failoverOk {
        DeactivateKillSwitch(env);
      }
    }

    /** Connect attempts with growing backoff until success, cancellation, failover or the breaker. */
    method ConnectLoop(env: Env)
      modifies this, killSwitch
      ensures reconnecting == old(reconnecting)
      ensures View() == Attempts(old(View()), env, hasFailover, 0, INITIAL_BACKOFF, false)
    {
      hide Released;
      var backoff := INITIAL_BACKOFF;
      var retries := 0;
      var failoverAttempted := false;
      while true
        invariant 0 <= retries < BREAKER_THRESHOLD && reconnecting == old(reconnecting)
        invariant Attempts(View(), env, hasFailover, retries, backoff, failoverAttempted) ==
          Attempts(old(View()), env, hasFailover, 0, INITIAL_BACKOFF, false)
        decreases BREAKER_THRESHOLD - retries
      {
        if env.cancelBackoff(retries) {
          return;
        }
        Record(Attempt(backoff, killSwitch.proxyRunning, env.connectOk(retries)));
        if env.connectOk(retries) {
          DeactivateKillSwitch(env);
          return;
        }
        if env.cancelConnect(retries) {
          return;
        }
        retries := retries + 1;
        if retries >= RETRIES_BEFORE_FAILOVER && hasFailover && !failoverAttempted {
          failoverAttempted := true;
          TryFailover(env);
          if env.failoverOk {
            return;
          }
        }
        if retries >= BREAKER_THRESHOLD {
          Record(Tripped);
          failed := true;
          return;
        }
        backoff := NextBackoff(backoff);
      }
    }

    method HandleDisconnect(env: Env)
      requires !reconnecting
      modifies this, killSwitch
      ensures !reconnecting && View() == Cycle(old(View()), env, hasFailover)
      ensures Reacted(old(killSwitch.trace), old(killSwitch.active), env, killSwitch.trace)
    {
      CycleReacts(View(), env, hasFailover);
      hide Attempts, Activated, Armed, Reacted;
      reconnecting := true;
      var cancelled := ArmKillSwitch(env);
      if !cancelled {
        ConnectLoop(env);
      }
      reconnecting := false;
    }

    /** The listening loop over the notifications and resets it meets. */
    method Start(inputs: seq<Input>)
      requires !reconnecting
      modifies this, killSwitch
      ensures View() == Run(old(View()), hasFailover, inputs)
      ensures !old(failed) ==>
        if exists i :: i in inputs && IsDisconnect(i) then old(killSwitch.trace) + [Torn] <= killSwitch.trace
        else View() == old(View())
    {
      hide Cycle;
      if !failed {
        RunTears(View(), hasFailover, inputs);
      }
      var i := 0;
      assert inputs[0..] == inputs;
      while i < |inputs|
        invariant 0 <= i <= |inputs| && !reconnecting
        invariant Run(View(), hasFailover, inputs[i..]) == Run(old(View()), hasFailover, inputs)
      {
        assert inputs[i..][1..] == inputs[i + 1..];
        match inputs[i] {
          case Update(state, env) =>
            if state == StateChannel.Disconnected && !failed {
              HandleDisconnect(env);
            }
          case Reset =>
            failed := false;
        }
        i := i + 1;
      }
    }
  }

  // ---------- safety over all runs ----------

  /** No attempt with the proxy running; the proxy is started only just after a success. */
  ghost predicate Safe(trace: seq<Event>) {
    && (forall i :: 0 <= i < |trace| && (trace[i].Attempt? || trace[i].Failover?) ==> !trace[i].proxy)
    && (forall i :: 0 <= i < |trace| && trace[i].StartedProxy? ==> Justified(trace, i))
  }

  predicate Success(e: Event) {
    (e.Attempt? || e.Failover?) && e.ok
  }

  /** The start at `i` follows a success, directly or as the retry of a failed start that does. */
  predicate Justified(trace: seq<Event>, i: nat)
    requires i < |trace|
  {
    && i > 0 && (Success(trace[i - 1]) || (trace[i - 1] == StartedProxy(false) && i > 1 && Success(trace[i - 2])))
  }

  ghost predicate Inv(w: World) {
    (w.active ==> !w.proxy) && Safe(w.trace)
  }

  lemma LogKeeps(trace: seq<Event>, e: Event)
    requires Safe(trace)
    requires (e.Attempt? || e.Failover?) ==> !e.proxy
    requires e.StartedProxy? ==> Justified(trace + [e], |trace|)
    ensures Safe(trace + [e])
  {
    var t := trace + [e];
    forall i | 0 <= i < |t| && t[i].StartedProxy? ensures Justified(t, i) {
      if i < |trace| { assert Justified(trace, i); }
    }
  }

  lemma ReleasedKeeps(w: World, env: Env)
    requires Inv(w) && w.trace != [] && Success(w.trace[|w.trace| - 1])
    ensures Inv(Released(w, env))
    ensures var r := Released(w, env);
      && (r.proxy <==> w.proxy || (w.active && (env.startOk1 || (!env.cancelRelease && env.startOk2))))
      && (r.active <==> w.active && !r.proxy)
      && r.failed == w.failed && w.trace <= r.trace
  {
    if w.active {
      var t1 := w.trace + [StartedProxy(env.startOk1)];
      assert t1[|t1| - 2] == w.trace[|w.trace| - 1];
      LogKeeps(w.trace, StartedProxy(env.startOk1));
      if !env.startOk1 && !env.cancelRelease {
        var t2 := t1 + [StartedProxy(env.startOk2)];
        assert t2[|t2| - 2] == StartedProxy(false) && t2[|t2| - 3] == w.trace[|w.trace| - 1];
        LogKeeps(t1, StartedProxy(env.startOk2));
      }
    }
  }

  lemma {:induction false} AttemptsKeep(w: World, env: Env, hasFailover: bool, retries: nat, backoff: nat,
                                        attempted: bool)
    requires retries < BREAKER_THRESHOLD && Inv(w) && !w.proxy
    ensures Inv(Attempts(w, env, hasFailover, retries, backoff, attempted))
    decreases BREAKER_THRESHOLD - retries
  {
    hide Safe, Released;
    if !env.cancelBackoff(retries) {
      var ok := env.connectOk(retries);
      var tried := Log(w, Attempt(backoff, w.proxy, ok));
      LogKeeps(w.trace, Attempt(backoff, w.proxy, ok));
      if ok {
        ReleasedKeeps(tried, env);
      } else if !env.cancelConnect(retries) {
        var n := retries + 1;
        var failsOver := n >= RETRIES_BEFORE_FAILOVER && hasFailover && !attempted;
        var over := if failsOver then Log(tried, Failover(w.proxy, env.failoverOk)) else tried;
        LogKeeps(tried.trace, Failover(w.proxy, env.failoverOk));
        if failsOver && env.failoverOk {
          ReleasedKeeps(over, env);
        } else if n >= BREAKER_THRESHOLD {
          LogKeeps(over.trace, Tripped);
        } else {
          AttemptsKeep(over, env, hasFailover, n, NextBackoff(backoff), attempted || failsOver);
        }
      }
    }
  }

  /** After the activation calls the proxy is stopped, whatever they returned. */
  lemma ArmedStopsProxy(w: World, env: Env)
    requires Inv(w)
    ensures Inv(Armed(w, env)) && !Armed(w, env).proxy
    ensures Armed(w, env).active <==> w.active || env.resolverOk1 || env.resolverOk2
    ensures Armed(w, env).failed == w.failed
  {
    LogKeeps(w.trace, Torn);
    LogKeeps(w.trace + [Torn], StoppedProxy);
    LogKeeps(w.trace + [Torn] + [StoppedProxy], StoppedProxy);
    hide Safe;
  }

  lemma CycleKeeps(w: World, env: Env, hasFailover: bool)
    requires Inv(w)
    ensures Inv(Cycle(w, env, hasFailover))
  {
    ArmedStopsProxy(w, env);
    LogKeeps(w.trace, Torn);
    LogKeeps(w.trace + [Torn], StoppedProxy);
    hide Safe, Attempts;
    AttemptsKeep(Armed(w, env), env, hasFailover, 0, INITIAL_BACKOFF, false);
  }

  /**
   * Over every run and every failure: the switch is active only with the proxy stopped, nothing is attempted with
   * the proxy running even when activation failed, and the proxy is restarted only after a success.
   */
  lemma {:induction false} RunSafe(w: World, hasFailover: bool, inputs: seq<Input>)
    requires Inv(w)
    ensures Inv(Run(w, hasFailover, inputs))
    decreases |inputs|
  {
    hide Inv, Cycle;
    if inputs != [] {
      match inputs[0] {
        case Update(state, env) => CycleKeeps(w, env, hasFailover);
        case Reset => ResetKeeps(w);
      }
      RunSafe(React(w, hasFailover, inputs[0]), hasFailover, inputs[1..]);
    }
  }

  lemma ResetKeeps(w: World)
    requires Inv(w)
    ensures Inv(w.(failed := false))
  {}

  /** After the breaker trips, nothing at all happens until Reset. */
  lemma {:induction false} TrippedIsFinal(w: World, hasFailover: bool, inputs: seq<Input>)
    requires w.failed && forall i :: 0 <= i < |inputs| ==> inputs[i].Update?
    ensures Run(w, hasFailover, inputs) == w
    decreases |inputs|
  {
    if inputs != [] {
      TrippedIsFinal(w, hasFailover, inputs[1..]);
    }
  }

  // ---------- one cycle in detail ----------

  /** Backoff before the `k`-th attempt (from zero). */
  function BackoffAt(k: nat): (b: nat) {
    if k == 0 then INITIAL_BACKOFF else NextBackoff(BackoffAt(k - 1))
  }

  lemma {:induction false} BackoffBounds(k: nat)
    ensures INITIAL_BACKOFF <= BackoffAt(k) <= MAX_BACKOFF && BackoffAt(k) <= BackoffAt(k + 1)
  {
    if k > 0 {
      BackoffBounds(k - 1);
    }
  }

  /** `n` failed attempts on the current relay, with the one failover tried right after the third. */
  function Failures(n: nat, failsOver: bool): (t: seq<Event>) {
    if n == 0 then []
    else Failures(n - 1, failsOver) + [Attempt(BackoffAt(n - 1), false, false)] +
         if n == RETRIES_BEFORE_FAILOVER && failsOver then [Failover(false, false)] else []
  }

  /** How a cycle can end. */
  datatype Ending = Cancelled(failures: nat, afterAttempt: bool) | Reconnected(failures: nat) | FailedOver | GaveUp

  function Ended(w: World, env: Env, hasFailover: bool, e: Ending): (r: World) {
    match e
    case Cancelled(n, after) =>
      var t := w.(trace := w.trace + Failures(n, hasFailover));
      if after then Log(t, Attempt(BackoffAt(n), false, false)) else t
    case Reconnected(n) =>
      Released(w.(trace := w.trace + Failures(n, hasFailover) + [Attempt(BackoffAt(n), false, true)]), env)
    case FailedOver =>
      Released(w.(trace := w.trace + Failures(2, false) + [Attempt(BackoffAt(2), false, false)]
                           + [Failover(false, true)]), env)
    case GaveUp =>
      w.(trace := w.trace + Failures(BREAKER_THRESHOLD, hasFailover) + [Tripped], failed := true)
  }

  /** The world after `k` plain failures of the cycle. */
  function After(w: World, hasFailover: bool, k: nat): (r: World) {
    w.(trace := w.trace + Failures(k, hasFailover))
  }

  function From(w: World, env: Env, hasFailover: bool, k: nat): (r: World)
    requires k < BREAKER_THRESHOLD
  {
    Attempts(After(w, hasFailover, k), env, hasFailover, k, BackoffAt(k), k >= RETRIES_BEFORE_FAILOVER && hasFailover)
  }

  predicate Fails(env: Env, hasFailover: bool, k: nat) {
    && !env.cancelBackoff(k) && !env.connectOk(k) && !env.cancelConnect(k)
    && !(k + 1 == RETRIES_BEFORE_FAILOVER && hasFailover && env.failoverOk)
  }

  /** The environment's choices that lead to each ending. */
  ghost predicate When(env: Env, hasFailover: bool, e: Ending) {
    match e
    case Cancelled(n, after) =>
      && n < BREAKER_THRESHOLD && AllFail(env, hasFailover, n)
      && if after then !env.cancelBackoff(n) && !env.connectOk(n) && env.cancelConnect(n) else env.cancelBackoff(n)
    case Reconnected(n) =>
      n < BREAKER_THRESHOLD && AllFail(env, hasFailover, n) && !env.cancelBackoff(n) && env.connectOk(n)
    case FailedOver =>
      && hasFailover && AllFail(env, hasFailover, 2)
      && !env.cancelBackoff(2) && !env.connectOk(2) && !env.cancelConnect(2) && env.failoverOk
    case GaveUp => AllFail(env, hasFailover, BREAKER_THRESHOLD)
  }

  /** The attempts before the `n`-th fail and the loop goes on. */
  ghost predicate AllFail(env: Env, hasFailover: bool, n: nat) {
    forall k: nat :: k < n ==> Fails(env, hasFailover, k)
  }

  lemma AfterOneMore(w: World, hasFailover: bool, k: nat)
    requires !w.proxy
    ensures After(w, hasFailover, k + 1) ==
      var tried := Log(After(w, hasFailover, k), Attempt(BackoffAt(k), w.proxy, false));
      if k + 1 == RETRIES_BEFORE_FAILOVER && hasFailover then Log(tried, Failover(w.proxy, false)) else tried
  {
    hide BackoffAt;
    var f := Failures(k, hasFailover);
    var e := [Attempt(BackoffAt(k), false, false)];
    assert w.trace + (f + e + [Failover(false, false)]) == w.trace + f + e + [Failover(false, false)];
    assert w.trace + (f + e + []) == w.trace + f + e;
  }

  lemma FailsOn(w: World, env: Env, hasFailover: bool, k: nat)
    requires k + 1 < BREAKER_THRESHOLD && !w.proxy && Fails(env, hasFailover, k)
    ensures From(w, env, hasFailover, k) == From(w, env, hasFailover, k + 1)
  {
    AfterOneMore(w, hasFailover, k);
    hide Released, After;
  }

  lemma GivesUp(w: World, env: Env, hasFailover: bool)
    requires !w.proxy && Fails(env, hasFailover, BREAKER_THRESHOLD - 1)
    ensures From(w, env, hasFailover, BREAKER_THRESHOLD - 1) == Ended(w, env, hasFailover, GaveUp)
  {
    AfterOneMore(w, hasFailover, BREAKER_THRESHOLD - 1);
    hide Released, Failures;
  }

  lemma FailsOver(w: World, env: Env)
    requires !w.proxy && !env.cancelBackoff(2) && !env.connectOk(2) && !env.cancelConnect(2) && env.failoverOk
    ensures From(w, env, true, 2) == Ended(w, env, true, FailedOver)
  {
    assert Failures(2, true) == Failures(2, false);
    hide Released, Failures, BackoffAt;
  }

  lemma EndsAt(w: World, env: Env, hasFailover: bool, k: nat)
    requires k < BREAKER_THRESHOLD && !w.proxy
    ensures env.cancelBackoff(k) ==> From(w, env, hasFailover, k) == Ended(w, env, hasFailover, Cancelled(k, false))
    ensures !env.cancelBackoff(k) && env.connectOk(k) ==>
      From(w, env, hasFailover, k) == Ended(w, env, hasFailover, Reconnected(k))
    ensures !env.cancelBackoff(k) && !env.connectOk(k) && env.cancelConnect(k) ==>
      From(w, env, hasFailover, k) == Ended(w, env, hasFailover, Cancelled(k, true))
  {
    hide Released, Failures, BackoffAt;
  }

  lemma {:induction false} LoopEnds(w: World, env: Env, hasFailover: bool, k: nat) returns (e: Ending)
    requires k < BREAKER_THRESHOLD && !w.proxy && AllFail(env, hasFailover, k)
    ensures When(env, hasFailover, e) && From(w, env, hasFailover, k) == Ended(w, env, hasFailover, e)
    decreases BREAKER_THRESHOLD - k
  {
    hide From, Ended;
    EndsAt(w, env, hasFailover, k);
    if env.cancelBackoff(k) {
      e := Cancelled(k, false);
    } else if env.connectOk(k) {
      e := Reconnected(k);
    } else if env.cancelConnect(k) {
      e := Cancelled(k, true);
    } else if k + 1 == RETRIES_BEFORE_FAILOVER && hasFailover && env.failoverOk {
      FailsOver(w, env);
      e := FailedOver;
    } else if k + 1 < BREAKER_THRESHOLD {
      FailsOn(w, env, hasFailover, k);
      e := LoopEnds(w, env, hasFailover, k + 1);
    } else {
      GivesUp(w, env, hasFailover);
      e := GaveUp;
    }
  }

  lemma OneEnding(env: Env, hasFailover: bool, d: Ending, e: Ending)
    requires When(env, hasFailover, d) && When(env, hasFailover, e)
    ensures d == e
  {
    var m := if d.Cancelled? || d.Reconnected? then d.failures else if d.FailedOver? then 2 else BREAKER_THRESHOLD;
    var n := if e.Cancelled? || e.Reconnected? then e.failures else if e.FailedOver? then 2 else BREAKER_THRESHOLD;
    assert m < n ==> Fails(env, hasFailover, m);
    assert n < m ==> Fails(env, hasFailover, n);
  }

  /**
   * Every connect loop ends in exactly one of four ways, as the environment's choices have it: with at most five
   * attempts on the relay at growing backoffs, one failover at most and only right after the third failure, and the
   * breaker tripped only after five failures.
   */
  lemma AttemptsEnd(w: World, env: Env, hasFailover: bool) returns (e: Ending)
    requires !w.proxy
    ensures forall d :: When(env, hasFailover, d) <==> d == e
    ensures Attempts(w, env, hasFailover, 0, INITIAL_BACKOFF, false) == Ended(w, env, hasFailover, e)
  {
    assert AllFail(env, hasFailover, 0);
    hide Attempts, Ended, When;
    e := LoopEnds(w, env, hasFailover, 0);
    forall d | When(env, hasFailover, d) ensures d == e { OneEnding(env, hasFailover, d, e); }
    assert w.trace + [] == w.trace;
    assert After(w, hasFailover, 0) == w;
  }

  lemma FirstBackoffs()
    ensures BackoffAt(0) == 100 && BackoffAt(1) == 200 && BackoffAt(2) == 400 && BackoffAt(3) == 800
    ensures BackoffAt(4) == 1600
  {
    assert BackoffAt(2) == 400;
    assert BackoffAt(3) == 800;
  }

  /** Attempt number `k` fails and nothing is cancelled around it. */
  predicate PlainFailure(env: Env, k: nat) {
    !env.cancelBackoff(k) && !env.connectOk(k) && !env.cancelConnect(k)
  }

  /** Three attempts in vain, at 100, 200 and 400 milliseconds. */
  const THREE: seq<Event> := [Attempt(100, false, false), Attempt(200, false, false), Attempt(400, false, false)]

  lemma ThreeFailures(failsOver: bool)
    ensures Failures(2, false) + [Attempt(BackoffAt(2), false, false)] == THREE
    ensures Failures(BREAKER_THRESHOLD, failsOver) ==
      THREE + (if failsOver then [Failover(false, false)] else [])
      + [Attempt(800, false, false), Attempt(1600, false, false)]
  {
    FirstBackoffs();
    hide BackoffAt;
    assert Failures(1, failsOver) == [Attempt(100, false, false)];
    assert Failures(2, failsOver) == [Attempt(100, false, false), Attempt(200, false, false)] == Failures(2, false);
    assert Failures(3, failsOver) == THREE + if failsOver then [Failover(false, false)] else [];
    assert Failures(4, failsOver) == Failures(3, failsOver) + [Attempt(800, false, false)];
  }

  /** The whole history of a disconnect after which nothing works: five attempts, one failover, and the breaker. */
  lemma BreakerHistory(w: World, hasFailover: bool, env: Env)
    requires Inv(w) && !w.failed && !w.active && env.resolverOk1
    requires (forall k: nat :: k < 5 ==> PlainFailure(env, k)) && (hasFailover ==> !env.failoverOk)
    ensures Run(w, hasFailover, [Update(StateChannel.Disconnected, env)]) ==
      World(true, false, true,
            w.trace + [Torn, StoppedProxy] + THREE + (if hasFailover then [Failover(false, false)] else [])
            + [Attempt(800, false, false), Attempt(1600, false, false), Tripped])
  {
    RunOne(w, hasFailover, Update(StateChannel.Disconnected, env));
    ArmedStopsProxy(w, env);
    var a := Armed(w, env);
    assert a == World(true, false, false, w.trace + [Torn, StoppedProxy]);
    var e := AttemptsEnd(a, env, hasFailover);
    assert forall k: nat :: k < 5 ==> PlainFailure(env, k) ==> Fails(env, hasFailover, k);
    assert When(env, hasFailover, GaveUp);
    ThreeFailures(hasFailover);
    hide Attempts, Armed, Failures, When, Inv;
  }

  /** The whole history of a disconnect that a failover ends. */
  lemma FailoverHistory(w: World, env: Env)
    requires Inv(w) && !w.failed && !w.active && env.resolverOk1 && env.failoverOk && env.startOk1
    requires forall k: nat :: k < 3 ==> PlainFailure(env, k)
    ensures Run(w, true, [Update(StateChannel.Disconnected, env)]) ==
      World(false, true, false,
            w.trace + [Torn, StoppedProxy] + THREE + [Failover(false, true), StartedProxy(true)])
  {
    RunOne(w, true, Update(StateChannel.Disconnected, env));
    ArmedStopsProxy(w, env);
    var a := Armed(w, env);
    assert a == World(true, false, false, w.trace + [Torn, StoppedProxy]);
    var e := AttemptsEnd(a, env, true);
    assert forall k: nat :: k < 2 ==> PlainFailure(env, k) ==> Fails(env, true, k);
    assert PlainFailure(env, 2);
    assert When(env, true, FailedOver);
    ThreeFailures(true);
    hide Attempts, Armed, Failures, When, Inv, BackoffAt;
  }

  lemma EndedProxy(w: World, env: Env, hasFailover: bool, e: Ending)
    requires !w.proxy
    ensures var r := Ended(w, env, hasFailover, e);
      && (r.proxy <==>
            && (e.Reconnected? || e.FailedOver?) && w.active
            && (env.startOk1 || (!env.cancelRelease && env.startOk2)))
      && (r.active <==> w.active && !r.proxy)
  {
    hide Failures, BackoffAt;
  }

  /**
   * A cycle that ends in success restores DNS exactly when the switch was active at that moment and one of the two
   * start calls succeeds: if every activation call failed, Deactivate refuses and the proxy stays stopped.
   * A cycle that ends otherwise leaves the proxy stopped and the switch as activation left it.
   */
  lemma DnsRestoredIff(w: World, env: Env, hasFailover: bool) returns (e: Ending)
    requires Inv(w)
    requires !(ActivateFails(Log(w, Torn), env.resolverOk1) && env.cancelActivate)
    ensures forall d :: When(env, hasFailover, d) <==> d == e
    ensures var r := Cycle(w, env, hasFailover);
      && r == Ended(Armed(w, env), env, hasFailover, e)
      && (r.proxy <==>
            && (e.Reconnected? || e.FailedOver?)
            && (w.active || env.resolverOk1 || env.resolverOk2)
            && (env.startOk1 || (!env.cancelRelease && env.startOk2)))
      && (r.active <==> (w.active || env.resolverOk1 || env.resolverOk2) && !r.proxy)
  {
    ArmedStopsProxy(w, env);
    var armed := Armed(w, env);
    e := AttemptsEnd(armed, env, hasFailover);
    EndedProxy(armed, env, hasFailover, e);
    hide Armed, Attempts, Ended, Inv;
  }

  /** A successful reconnect after two failed activation calls: the switch is off and DNS is still down. */
  lemma DnsLostWitness()
    ensures var w := World(false, true, false, []);
      var env := Env(false, false, false, k => false, k => true, k => false, false, true, false, true);
      Inv(w) && Cycle(w, env, true) == World(false, false, false,
        [Torn, StoppedProxy, StoppedProxy, Attempt(INITIAL_BACKOFF, false, true)])
  {
    var w := World(false, true, false, []);
    var env := Env(false, false, false, k => false, k => true, k => false, false, true, false, true);
    assert Armed(w, env).trace == [Torn, StoppedProxy, StoppedProxy];
  }
}
