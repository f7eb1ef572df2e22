/** What the steps of `Ownership` do to wrappers, flags and workers, stated over
    runs and without the functions that define the steps. */
module OwnershipLaws {
  import opened Prelude
  import opened Registry
  import opened Ownership

  // ----- a close empties its wrapper exactly when it succeeds

  /** The end of `close()` on wrapper `x`. */
  predicate EndsCloseOn(s: State, step: Step, x: nat) {
    step.FinishClose? && s.busy.Some? && s.busy.value.wrapper == Some(x)
  }

  lemma CloseEmptiesIffItSucceeds(states: seq<State>, steps: seq<Step>, n: nat, x: nat)
    requires IsRun(states, steps) && n < |steps| && EndsCloseOn(states[n], steps[n], x)
    ensures x in states[n].wrappers && x in states[n + 1].wrappers && states[n].wrappers[x].handle != 0
    ensures states[n + 1].wrappers[x].handle == if steps[n].outcome.Succeeds? then 0 else states[n].wrappers[x].handle
    ensures states[n].wrappers[x].handle in states[n + 1].table <==> steps[n].outcome.Panics?
  {
    RunKeeps(states, steps, n);
  }

  /** A `close()` on a poisoned handle empties the wrapper at once, one on a dead
      handle changes nothing, any other is admitted. */
  lemma CloseBegins(states: seq<State>, steps: seq<Step>, n: nat, x: nat)
    requires IsRun(states, steps) && n < |steps| && steps[n] == CloseStore(x)
    ensures var s, s', h := states[n], states[n + 1], states[n].wrappers[x].handle;
            && x in s'.wrappers
            && (h !in s.table ==> s' == s)
            && (h in s.table && s.table[h].poisoned ==> s'.wrappers[x].handle == 0 && h !in s'.table && s'.busy.None?)
            && (h in s.table && !s.table[h].poisoned ==>
                  s'.wrappers[x].handle == h && s'.table == s.table[h := Flags(false, true)] && s'.busy == Some(Closing(h, Some(x))))
  {
    RunKeeps(states, steps, n);
    NeverRefused(states[n], states[n].wrappers[x].handle);
  }

  /** The wrapper holds a handle that is no longer live. */
  predicate Stale(s: State, x: nat) {
    x in s.wrappers && s.wrappers[x].handle != 0 && s.wrappers[x].handle !in s.table
  }

  /** The store's own close fails under `close()` on wrapper `x`. */
  predicate FailsOn(s: State, step: Step, x: nat) {
    EndsCloseOn(s, step, x) && step.outcome.Fails?
  }

  /** The owner whose handle a step closes, if any. */
  function Closer(s: State, step: Step): Option<Owner>
    requires Enabled(s, step)
  {
    match step
    case CompleteOpen(w, _, _) => Some(ByWork(w))
    case CloseStore(y) => Some(ByWrapper(y))
    case Finalize(y) => Some(ByWrapper(y))
    case FinishClose(_) =>
      Some(if s.busy.value.wrapper.Some? then ByWrapper(s.busy.value.wrapper.value) else ByThread)
    case _ => None
  }

  lemma DiscardKeepsLive(s: State, h: nat, g: nat)
    requires g != h
    ensures g in Discard(s, h).table <==> g in s.table
  {
  }

  /** The handle being closed has an owner: the wrapper, or the thread. */
  lemma BusyIsOwned(s: State)
    requires Inv(s) && s.busy.Some?
    ensures HandleOf(s, Closer(s, FinishClose(Fails)).value) == s.busy.value.handle != 0
  {
    assert s.busy.value.handle in s.table;
  }

  /** Only the closer's own handle leaves the table. */
  lemma HandleStays(s: State, step: Step, o: Owner)
    requires Inv(s) && Enabled(s, step) && HandleOf(s, o) != 0 && Closer(s, step) != Some(o)
    ensures HandleOf(s, o) in Next(s, step).table <==> HandleOf(s, o) in s.table
  {
    var g := HandleOf(s, o);
    match step {
      case Open(_) => DiscardKeepsLive(Allocate(s), s.nextHandle, g);
      case CompleteOpen(w, _, _) =>
        assert HandleOf(s, ByWork(w)) == s.works[w].data;
        DiscardKeepsLive(SettleWork(s, w), s.works[w].data, g);
      case CloseStore(y) => assert HandleOf(s, ByWrapper(y)) == s.wrappers[y].handle;
      case Finalize(y) =>
        assert HandleOf(s, ByWrapper(y)) == s.wrappers[y].handle;
        DiscardKeepsLive(s.(wrappers := s.wrappers - {y}), s.wrappers[y].handle, g);
      case FinishClose(_) => BusyIsOwned(s);
      case _ =>
    }
  }

  /** A handle that an open worker has not handed over is live. */
  predicate DataIsLive(s: State) {
    forall w :: w in s.works && s.works[w].data != 0 ==> s.works[w].data in s.table
  }

  lemma StepKeepsData(s: State, step: Step)
    requires Inv(s) && DataIsLive(s) && Enabled(s, step)
    ensures DataIsLive(Next(s, step))
  {
    var s' := Next(s, step);
    forall w | w in s'.works && s'.works[w].data != 0
      ensures s'.works[w].data in s'.table
    {
      if w in s.works && s.works[w].data != 0 {
        assert HandleOf(s, ByWork(w)) == s.works[w].data == s'.works[w].data;
        HandleStays(s, step, ByWork(w));
      }
    }
  }

  lemma {:induction false} RunKeepsData(states: seq<State>, steps: seq<Step>, n: nat)
    requires IsRun(states, steps) && n < |states|
    ensures Inv(states[n]) && DataIsLive(states[n])
    decreases n
  {
    RunKeeps(states, steps, n);
    if n > 0 {
      RunKeepsData(states, steps, n - 1);
      StepKeepsData(states[n - 1], steps[n - 1]);
    }
  }

  lemma NewWrapperIsFresh(s: State, step: Step, x: nat)
    requires Inv(s) && DataIsLive(s) && Enabled(s, step) && x in Next(s, step).wrappers && x !in s.wrappers
    ensures x == s.nextId && !Stale(Next(s, step), x)
  {
    if step.CompleteOpen? {
      assert WorkOk(s.works[step.w]);
    }
  }

  lemma OtherWrappersStay(s: State, step: Step, x: nat)
    requires Inv(s) && Enabled(s, step) && x in s.wrappers && Closer(s, step) != Some(ByWrapper(x))
    ensures x in Next(s, step).wrappers && Next(s, step).wrappers[x].handle == s.wrappers[x].handle
    ensures Stale(Next(s, step), x) <==> Stale(s, x)
  {
    assert HandleOf(s, ByWrapper(x)) == s.wrappers[x].handle;
    if s.wrappers[x].handle != 0 {
      HandleStays(s, step, ByWrapper(x));
    }
  }

  lemma StaleByStep(s: State, step: Step, x: nat)
    requires Inv(s) && DataIsLive(s) && Enabled(s, step) && x in Next(s, step).wrappers
    ensures x in s.wrappers || x == s.nextId
    ensures Stale(Next(s, step), x) <==> Stale(s, x) || FailsOn(s, step, x)
  {
    if x !in s.wrappers {
      NewWrapperIsFresh(s, step, x);
    } else if Closer(s, step) != Some(ByWrapper(x)) {
      OtherWrappersStay(s, step, x);
    } else if step.CloseStore? {
      NeverRefused(s, s.wrappers[x].handle);
    }
  }

  /** The failing close of wrapper `x` came before state `n`. */
  ghost predicate FailedBefore(states: seq<State>, steps: seq<Step>, n: nat, x: nat)
    requires IsRun(states, steps) && n < |states|
  {
    exists k :: 0 <= k < n && FailsOn(states[k], steps[k], x)
  }

  lemma {:induction false} IdsGrow(states: seq<State>, steps: seq<Step>, k: nat, n: nat)
    requires IsRun(states, steps) && k <= n < |states|
    ensures states[k].nextId <= states[n].nextId
    decreases n
  {
    if k < n {
      IdsGrow(states, steps, k, n - 1);
    }
  }

  /** A wrapper's handle is live unless the store's own close has failed under
      `close()` on that wrapper, and then it is dead for good. */
  lemma HandlesAreLiveUnlessCloseFailed(states: seq<State>, steps: seq<Step>, n: nat, x: nat)
    requires IsRun(states, steps) && n < |states| && x in states[n].wrappers && states[n].wrappers[x].handle != 0
    ensures states[n].wrappers[x].handle in states[n].table <==> !FailedBefore(states, steps, n, x)
  {
    StaleIffFailed(states, steps, n, x);
  }

  /** A failing close of `x` needs the wrapper, so it comes after its creation. */
  lemma NewWrapperNeverFailed(states: seq<State>, steps: seq<Step>, n: nat, x: nat)
    requires IsRun(states, steps) && n < |states| && x >= states[n].nextId
    ensures forall k :: 0 <= k <= n && k < |steps| ==> !FailsOn(states[k], steps[k], x)
  {
    forall k | 0 <= k <= n && k < |steps|
      ensures !FailsOn(states[k], steps[k], x)
    {
      RunKeeps(states, steps, k);
      IdsGrow(states, steps, k, n);
    }
  }

  lemma StaleSoFar(states: seq<State>, steps: seq<Step>, n: nat, x: nat)
    requires IsRun(states, steps) && n < |steps| && x in states[n + 1].wrappers
    ensures x in states[n].wrappers || x == states[n].nextId
    ensures Stale(states[n + 1], x) <==> Stale(states[n], x) || FailsOn(states[n], steps[n], x)
  {
    RunKeepsData(states, steps, n);
    StaleByStep(states[n], steps[n], x);
  }

  lemma {:induction false} StaleIffFailed(states: seq<State>, steps: seq<Step>, n: nat, x: nat)
    requires IsRun(states, steps) && n < |states| && x in states[n].wrappers
    ensures Stale(states[n], x) <==> FailedBefore(states, steps, n, x)
    decreases n
  {
    if n > 0 {
      StaleSoFar(states, steps, n - 1, x);
      if x in states[n - 1].wrappers {
        StaleIffFailed(states, steps, n - 1, x);
      } else {
        NewWrapperNeverFailed(states, steps, n - 1, x);
      }
    }
  }

  // ----- flags

  /** A panic of the engine on behalf of handle `h`. */
  predicate PanicsOn(s: State, step: Step, h: nat)
    requires Enabled(s, step)
  {
    match step
    case CallStore(x, end) => end.Panicked? && s.wrappers[x].handle == h
    case ExecuteCall(w, end) => end.Panicked? && s.works[w].target == h
    case FinishClose(o) => o.Panics? && s.busy.value.handle == h
    case _ => false
  }

  lemma DiscardKeepsFlags(s: State, h: nat, g: nat)
    requires g in Discard(s, h).table
    ensures g in s.table && Discard(s, h).table[g].poisoned == s.table[g].poisoned
  {
  }

  /** A live handle becomes poisoned by a panic on its own behalf and by nothing
      else, and stays poisoned. */
  lemma PoisonedByItsOwnPanic(s: State, step: Step, h: nat)
    requires Inv(s) && Enabled(s, step) && h in Next(s, step).table
    ensures h in s.table || h == s.nextHandle
    ensures Next(s, step).table[h].poisoned <==> h in s.table && (s.table[h].poisoned || PanicsOn(s, step, h))
  {
    match step {
      case Open(wraps) =>
        if !wraps {
          DiscardKeepsFlags(Allocate(s), s.nextHandle, h);
        }
      case CompleteOpen(w, ran, wraps) =>
        if !(ran && s.works[w].phase.end.Succeeded? && wraps) {
          DiscardKeepsFlags(SettleWork(s, w), s.works[w].data, h);
        }
      case Finalize(x) => DiscardKeepsFlags(s.(wrappers := s.wrappers - {x}), s.wrappers[x].handle, h);
      case _ =>
    }
  }

  ghost predicate PanickedBefore(states: seq<State>, steps: seq<Step>, n: nat, h: nat)
    requires IsRun(states, steps) && n < |states|
  {
    exists k :: 0 <= k < n && h in states[k].table && PanicsOn(states[k], steps[k], h)
  }

  /** In every run a live handle is poisoned if and only if some call on it, or
      its close, has panicked. */
  lemma {:induction false} PoisonedIffPanicked(states: seq<State>, steps: seq<Step>, n: nat, h: nat)
    requires IsRun(states, steps) && n < |states| && h in states[n].table
    ensures states[n].table[h].poisoned <==> PanickedBefore(states, steps, n, h)
    decreases n
  {
    if n > 0 {
      RunKeeps(states, steps, n - 1);
      PoisonedByItsOwnPanic(states[n - 1], steps[n - 1], h);
      if h in states[n - 1].table {
        PoisonedIffPanicked(states, steps, n - 1, h);
      } else {
        forall k | 0 <= k < n
          ensures h !in states[k].table
        {
          RunKeeps(states, steps, k);
          HandlesGrow(states, steps, k, n - 1);
        }
      }
    }
  }

  lemma {:induction false} HandlesGrow(states: seq<State>, steps: seq<Step>, k: nat, n: nat)
    requires IsRun(states, steps) && k <= n < |states|
    ensures states[k].nextHandle <= states[n].nextHandle
    decreases n
  {
    if k < n {
      HandlesGrow(states, steps, k, n - 1);
    }
  }

  // ----- conservation

  /** Every handle ever opened is live or has been released. */
  predicate AllAccounted(s: State) {
    forall h :: 0 < h < s.nextHandle ==> Kept(s, h)
  }

  predicate Kept(s: State, g: nat) {
    g in s.table || g in s.released
  }

  lemma DiscardKeeps(s: State, h: nat, g: nat)
    requires Kept(s, g)
    ensures Kept(Discard(s, h), g)
  {
  }

  lemma HandleIsKept(s: State, step: Step, g: nat)
    requires Inv(s) && Enabled(s, step) && Kept(s, g)
    ensures Kept(Next(s, step), g)
  {
    match step {
      case Open(_) => DiscardKeeps(Allocate(s), s.nextHandle, g);
      case CompleteOpen(w, _, _) => DiscardKeeps(SettleWork(s, w), s.works[w].data, g);
      case Finalize(x) => DiscardKeeps(s.(wrappers := s.wrappers - {x}), s.wrappers[x].handle, g);
      case _ =>
    }
  }

  lemma NewHandleIsKept(s: State, step: Step)
    requires Inv(s) && Enabled(s, step) && Next(s, step).nextHandle > s.nextHandle
    ensures Next(s, step).nextHandle == s.nextHandle + 1 && Kept(Next(s, step), s.nextHandle)
  {
    if step.Open? {
      DiscardKeeps(Allocate(s), s.nextHandle, s.nextHandle);
    }
  }

  lemma StepConserves(s: State, step: Step)
    requires Inv(s) && AllAccounted(s) && Enabled(s, step)
    ensures AllAccounted(Next(s, step))
  {
    var s' := Next(s, step);
    forall h | 0 < h < s'.nextHandle
      ensures Kept(s', h)
    {
      if h < s.nextHandle {
        HandleIsKept(s, step, h);
      } else {
        NewHandleIsKept(s, step);
      }
    }
  }

  /** In every run each handle is opened once and is then live, or released once. */
  lemma LiveOrReleased(states: seq<State>, steps: seq<Step>, n: nat, h: nat)
    requires IsRun(states, steps) && n < |states| && 0 < h < states[n].nextHandle
    ensures h in states[n].table <==> h !in states[n].released
    ensures Distinct(states[n].released)
  {
    RunKeeps(states, steps, n);
    RunConserves(states, steps, n);
    assert Kept(states[n], h);
  }

  lemma {:induction false} RunConserves(states: seq<State>, steps: seq<Step>, n: nat)
    requires IsRun(states, steps) && n < |states|
    ensures AllAccounted(states[n])
    decreases n
  {
    if n > 0 {
      RunKeeps(states, steps, n - 1);
      RunConserves(states, steps, n - 1);
      StepConserves(states[n - 1], steps[n - 1]);
    }
  }

  // ----- workers act on their receiver's store

  /** A pending call carries the handle of its receiver, unless that was closed. */
  predicate TargetOk(s: State, w: nat, x: nat)
    requires Awaits(s.works, w, x) && x in s.wrappers
  {
    s.wrappers[x].handle == 0 || s.works[w].target == s.wrappers[x].handle
  }

  ghost predicate TargetsFollow(s: State) {
    forall w, x :: Awaits(s.works, w, x) ==> x in s.wrappers && TargetOk(s, w, x)
  }

  lemma StepKeepsTargets(s: State, step: Step)
    requires Inv(s) && TargetsFollow(s) && Enabled(s, step) && Inv(Next(s, step))
    ensures TargetsFollow(Next(s, step))
  {
    var s' := Next(s, step);
    forall w, x | Awaits(s'.works, w, x)
      ensures x in s'.wrappers && TargetOk(s', w, x)
    {
      assert Refers(s'.wrappers, x, w);
      if Awaits(s.works, w, x) {
        assert s'.works[w].target == s.works[w].target;
        WrapperHandleStays(s, step, x);
      }
    }
  }

  /** A wrapper's handle only ever becomes 0. */
  lemma WrapperHandleStays(s: State, step: Step, x: nat)
    requires Inv(s) && Enabled(s, step) && x in s.wrappers && x in Next(s, step).wrappers
    ensures Next(s, step).wrappers[x].handle == s.wrappers[x].handle || Next(s, step).wrappers[x].handle == 0
  {
  }

  /** In every run a pending worker acts on the store of its receiver, and its
      receiver has not been finalized. */
  lemma {:induction false} WorkersActOnTheirReceiver(states: seq<State>, steps: seq<Step>, n: nat)
    requires IsRun(states, steps) && n < |states|
    ensures TargetsFollow(states[n])
    decreases n
  {
    if n > 0 {
      RunKeeps(states, steps, n - 1);
      RunKeeps(states, steps, n);
      WorkersActOnTheirReceiver(states, steps, n - 1);
      StepKeepsTargets(states[n - 1], steps[n - 1]);
    }
  }

  // ----- every step does its work

  /** A store just opened can be called and closed, under a live handle with
      clear flags. */
  lemma OpenedStoreIsUsable(s: State, step: Step)
    requires Inv(s) && DataIsLive(s) && Enabled(s, step)
    requires step == Open(true) || (step.CompleteOpen? && step.ran && s.works[step.w].phase.end.Succeeded? && step.wraps)
    ensures var s', x := Next(s, step), s.nextId;
            && x in s'.wrappers && s'.wrappers[x].handle in s'.table
            && (step.Open? ==> s'.wrappers[x].handle == s.nextHandle && s'.table[s.nextHandle] == OPEN)
            && (step.CompleteOpen? ==> s'.wrappers[x].handle == s.works[step.w].data && s'.table == s.table)
            && Enabled(s', CallStore(x, Succeeded)) && Enabled(s', CloseStore(x)) && Enabled(s', Drop(x))
  {
    if step.CompleteOpen? {
      assert WorkOk(s.works[step.w]);
    }
  }

  /** Workers are queued, run and completed, wrappers are dropped and finalized. */
  lemma StepsAdvance(s: State, step: Step)
    requires Inv(s) && Enabled(s, step)
    ensures var s' := Next(s, step);
            match step
            case QueueOpen => s.nextId in s'.works && s'.works[s.nextId].opening && s'.works[s.nextId].phase.Queued?
            case ExecuteOpen(w, ok) =>
              w in s'.works && s'.works[w].phase == Executed(if ok then Succeeded else Failed)
              && (ok ==> s'.works[w].data == s.nextHandle && s.nextHandle in s'.table)
            case CompleteOpen(w, _, _) => w in s'.works && s'.works[w].phase.Completed?
            case QueueCall(x) => Awaits(s'.works, s.nextId, x) && s'.works[s.nextId].target == s.wrappers[x].handle
            case ExecuteCall(w, end) => w in s'.works && s'.works[w].phase == Executed(end)
            case CompleteCall(w) => w in s'.works && s'.works[w].phase.Completed?
            case Drop(x) => x in s'.wrappers && !s'.wrappers[x].reachable
            case Finalize(x) => x !in s'.wrappers
            case FinishClose(_) => s'.busy.None?
            case _ => true
  {
  }
}
