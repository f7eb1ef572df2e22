/** `withSignal` and `CancellationToken` of the Node binding: a token is made
    for one call, cancelled when the caller's signal aborts, and freed when the
    native worker has stopped. Calls, aborts and workers interleave freely, a
    signal may serve several calls, and the engine may hand out a freed handle
    again at once. */
module Cancellation {

  datatype Phase = Running | Stopped | Done

  /** One `withSignal` call after its synchronous opening part. `hits` counts
      native cancellations that reached the token of this call, `frees` how
      often its token was freed. */
  datatype Call = Call(
    signal: nat,
    token: nat,
    phase: Phase,
    listening: bool,
    closed: bool,
    hits: nat,
    frees: nat)

  /** `live` maps each handle the engine knows to the call it was made for.
      `misuse` is set when the engine is given a handle it does not know. */
  datatype State = State(
    calls: seq<Call>,
    live: map<nat, nat>,
    aborted: set<nat>,
    misuse: bool)

  const INITIAL := State([], map[], {}, false)

  datatype Step =
    | Begin(signal: nat, token: nat, queued: bool)
    | Abort(signal: nat)
    | Stop(i: nat)
    | Settle(i: nat)

  // ----- native calls

  /** The engine cancels whatever token it knows under this handle. */
  function NativeCancel(s: State, token: nat): State {
    if token !in s.live || s.live[token] >= |s.calls| then s.(misuse := true)
    else
      var owner := s.live[token];
      s.(calls := s.calls[owner := s.calls[owner].(hits := s.calls[owner].hits + 1)])
  }

  function NativeFree(s: State, token: nat): State {
    if token !in s.live || s.live[token] >= |s.calls| then s.(misuse := true)
    else
      var owner := s.live[token];
      s.(calls := s.calls[owner := s.calls[owner].(frees := s.calls[owner].frees + 1)], live := s.live - {token})
  }

  /** The engine looks the token up on behalf of a running worker. */
  function NativeUse(s: State, i: nat): State
    requires i < |s.calls|
  {
    if s.calls[i].token in s.live && s.live[s.calls[i].token] == i then s else s.(misuse := true)
  }

  // ----- the JavaScript side

  /** `token.cancel()`: refused once the token object is closed. */
  function Cancel(s: State, i: nat): State
    requires i < |s.calls|
  {
    if s.calls[i].closed then s else NativeCancel(s, s.calls[i].token)
  }

  /** `token.close()`: frees once, whatever happens later. */
  function Close(s: State, i: nat): State
    requires i < |s.calls|
  {
    if s.calls[i].closed then s
    else NativeFree(s.(calls := s.calls[i := s.calls[i].(closed := true)]), s.calls[i].token)
  }

  /** The `finally` block: stop listening, then free the token. */
  function Finally(s: State, i: nat): State
    requires i < |s.calls|
  {
    var s1 := s.(calls := s.calls[i := s.calls[i].(listening := false)]);
    var s2 := Close(s1, i);
    if i < |s2.calls| then s2.(calls := s2.calls[i := s2.calls[i].(phase := Done)]) else s2
  }

  /** Dispatches an abort to the listeners below `n`, each of which runs once. */
  function Dispatch(s: State, signal: nat, n: nat): State
    requires n <= |s.calls|
    ensures |Dispatch(s, signal, n).calls| == |s.calls|
    decreases n
  {
    if n == 0 then s
    else
      var s1 := Dispatch(s, signal, n - 1);
      var c := s1.calls[n - 1];
      if c.listening && c.signal == signal
      then Cancel(s1.(calls := s1.calls[n - 1 := c.(listening := false)]), n - 1)
      else s1
  }

  predicate Enabled(s: State, step: Step) {
    match step
    case Begin(_, token, _) => token !in s.live
    case Abort(signal) => signal !in s.aborted
    case Stop(i) => i < |s.calls| && s.calls[i].phase.Running?
    case Settle(i) => i < |s.calls| && s.calls[i].phase.Stopped?
  }

  /** Everything up to the first `await` happens in one turn: create the token,
      listen, cancel at once if already aborted, and start the worker. A worker
      that cannot be queued goes straight to the `finally` block. */
  function BeginCall(s: State, signal: nat, token: nat, queued: bool): State {
    var i := |s.calls|;
    var s1 := s.(calls := s.calls + [Call(signal, token, Running, true, false, 0, 0)], live := s.live[token := i]);
    var s2 := if signal in s.aborted then Cancel(s1, i) else s1;
    if i >= |s2.calls| then s2
    else if queued then NativeUse(s2, i) else Finally(s2, i)
  }

  function Next(s: State, step: Step): State
    requires Enabled(s, step)
  {
    match step
    case Begin(signal, token, queued) => BeginCall(s, signal, token, queued)
    case Abort(signal) => Dispatch(s, signal, |s.calls|).(aborted := s.aborted + {signal})
    case Stop(i) => NativeUse(s, i).(calls := s.calls[i := s.calls[i].(phase := Stopped)])
    case Settle(i) => Finally(s, i)
  }

  // ----- the invariant

  predicate CallOk(s: State, i: nat)
    requires i < |s.calls|
  {
    var c := s.calls[i];
    && (!c.phase.Done? ==> !c.closed && c.frees == 0 && c.token in s.live && s.live[c.token] == i)
    && (c.phase.Done? ==> c.closed && !c.listening && c.frees == 1)
    && c.hits <= 1
    && (c.hits == 1 ==> c.signal in s.aborted)
    && (!c.phase.Done? && c.signal in s.aborted ==> c.hits == 1)
    && (!c.phase.Done? && c.signal !in s.aborted ==> c.listening)
  }

  /** Each handle the engine knows belongs to an unfinished call. */
  predicate TokenOk(s: State, h: nat)
    requires h in s.live
  {
    s.live[h] < |s.calls| && s.calls[s.live[h]].token == h && !s.calls[s.live[h]].phase.Done?
  }

  predicate Inv(s: State) {
    && !s.misuse
    && (forall i :: 0 <= i < |s.calls| ==> CallOk(s, i))
    && (forall h :: h in s.live ==> TokenOk(s, h))
  }

  // ----- steps

  lemma BeginKeeps(s: State, signal: nat, token: nat, queued: bool)
    requires Inv(s) && Enabled(s, Begin(signal, token, queued))
    ensures Inv(Next(s, Begin(signal, token, queued)))
  {
    var s' := Next(s, Begin(signal, token, queued));
    var i := |s.calls|;
    assert |s'.calls| == i + 1;
    assert forall k :: 0 <= k < i ==> s'.calls[k] == s.calls[k] && CallOk(s, k);
    assert CallOk(s', i);
  }

  /** What dispatching to the first `n` calls does, stated call by call. */
  lemma {:induction false} DispatchHitsListeners(s: State, signal: nat, n: nat)
    requires Inv(s) && signal !in s.aborted && n <= |s.calls|
    ensures var d := Dispatch(s, signal, n);
            && d.live == s.live && d.aborted == s.aborted && !d.misuse && |d.calls| == |s.calls|
            && forall k :: 0 <= k < |s.calls| ==>
                 d.calls[k] == if k < n && s.calls[k].listening && s.calls[k].signal == signal
                               then s.calls[k].(listening := false, hits := s.calls[k].hits + 1) else s.calls[k]
    decreases n
  {
    if n > 0 {
      DispatchHitsListeners(s, signal, n - 1);
      assert CallOk(s, n - 1);
    }
  }

  lemma AbortKeeps(s: State, signal: nat)
    requires Inv(s) && Enabled(s, Abort(signal))
    ensures Inv(Next(s, Abort(signal)))
  {
    DispatchHitsListeners(s, signal, |s.calls|);
    var s' := Next(s, Abort(signal));
    forall k | 0 <= k < |s'.calls|
      ensures CallOk(s', k)
    {
      assert CallOk(s, k);
    }
    forall h | h in s'.live
      ensures TokenOk(s', h)
    {
      assert TokenOk(s, h);
    }
  }

  lemma StopKeeps(s: State, i: nat)
    requires Inv(s) && Enabled(s, Stop(i))
    ensures Inv(Next(s, Stop(i)))
  {
    var s' := Next(s, Stop(i));
    assert CallOk(s, i);
    forall k | 0 <= k < |s'.calls|
      ensures CallOk(s', k)
    {
      assert CallOk(s, k);
    }
    forall h | h in s'.live
      ensures TokenOk(s', h)
    {
      assert TokenOk(s, h);
    }
  }

  lemma SettleKeeps(s: State, i: nat)
    requires Inv(s) && Enabled(s, Settle(i))
    ensures Inv(Next(s, Settle(i)))
  {
    var s' := Next(s, Settle(i));
    assert CallOk(s, i);
    forall k | 0 <= k < |s'.calls|
      ensures CallOk(s', k)
    {
      assert CallOk(s, k);
    }
    forall h | h in s'.live
      ensures TokenOk(s', h)
    {
      assert TokenOk(s, h);
    }
  }

  lemma StepKeeps(s: State, step: Step)
    requires Inv(s) && Enabled(s, step)
    ensures Inv(Next(s, step))
  {
    match step {
      case Begin(signal, token, queued) => BeginKeeps(s, signal, token, queued);
      case Abort(signal) => AbortKeeps(s, signal);
      case Stop(i) => StopKeeps(s, i);
      case Settle(i) => SettleKeeps(s, i);
    }
  }

  // ----- whole runs

  ghost predicate IsRun(states: seq<State>, steps: seq<Step>) {
    && |states| == |steps| + 1 && states[0] == INITIAL
    && forall n :: 0 <= n < |steps| ==> Enabled(states[n], steps[n]) && states[n + 1] == Next(states[n], steps[n])
  }

  lemma {:induction false} RunKeeps(states: seq<State>, steps: seq<Step>, n: nat)
    requires IsRun(states, steps) && n < |states|
    ensures Inv(states[n])
    decreases n
  {
    if n > 0 {
      RunKeeps(states, steps, n - 1);
      StepKeeps(states[n - 1], steps[n - 1]);
    }
  }

  /** The engine is never given a handle it has freed. A token is open and its
      own for the whole native run, cancelled at most once, only by its own
      signal and always by it, and freed exactly once, after the run. */
  lemma TokensAreSafe(states: seq<State>, steps: seq<Step>, n: nat, i: nat)
    requires IsRun(states, steps) && n < |states| && i < |states[n].calls|
    ensures var s, c := states[n], states[n].calls[i];
            && !s.misuse
            && (c.phase.Running? || c.phase.Stopped? ==> c.token in s.live && s.live[c.token] == i && c.frees == 0)
            && c.hits <= 1 && (c.hits == 1 ==> c.signal in s.aborted)
            && (!c.phase.Done? && c.signal in s.aborted ==> c.hits == 1)
            && (c.phase.Done? ==> c.frees == 1)
  {
    RunKeeps(states, steps, n);
    assert CallOk(states[n], i);
  }

  /** A call once finished is never touched again. */
  lemma FinishedCallsStay(s: State, step: Step, i: nat)
    requires Inv(s) && Enabled(s, step) && i < |s.calls| && s.calls[i].phase.Done?
    ensures i < |Next(s, step).calls| && Next(s, step).calls[i] == s.calls[i]
  {
    assert CallOk(s, i);
    if step.Abort? {
      DispatchHitsListeners(s, step.signal, |s.calls|);
    }
    if step.Settle? {
      assert CallOk(s, step.i);
    }
  }

  /** A call whose worker is queued runs until the worker stops and is over once
      it settles; one that cannot be queued is over at once. */
  lemma CallsRunToTheirEnd(s: State, step: Step)
    requires Inv(s) && Enabled(s, step)
    ensures var s' := Next(s, step);
            match step
            case Begin(signal, token, queued) =>
              |s'.calls| == |s.calls| + 1 && s'.calls[|s.calls|].signal == signal && s'.calls[|s.calls|].token == token
              && (if queued then s'.calls[|s.calls|].phase.Running? else s'.calls[|s.calls|].phase.Done?)
            case Abort(signal) => signal in s'.aborted
            case Stop(i) => |s'.calls| == |s.calls| && s'.calls[i].phase.Stopped?
            case Settle(i) => |s'.calls| == |s.calls| && s'.calls[i].phase.Done? && s.calls[i].token !in s'.live
  {
    if step.Settle? {
      assert CallOk(s, step.i);
    }
  }
}
