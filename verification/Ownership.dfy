/** Who owns an open store handle in the Node addon. A handle is owned by a
    JavaScript wrapper, by the data of an asynchronous open until its
    completion hands it to a wrapper, or by the JavaScript thread itself while
    it closes a handle that nobody else holds any more. Workers carry a copied
    handle and keep their receiver alive; wrappers are finalized when nothing
    refers to them. A close is two steps of the engine with the store's own
    close in between, during which the JavaScript thread waits and workers go
    on. All steps interleave freely and every native or N-API call may fail or,
    in the engine, panic. */
module Ownership {
  import opened Prelude
  import opened Registry

  /** `handle == 0` is a closed wrapper; `refs` are the N-API references held
      by pending workers; `reachable` says whether JavaScript still holds it. */
  datatype Wrapper = Wrapper(handle: nat, refs: set<nat>, reachable: bool)

  datatype CallEnd = Succeeded | Failed | Panicked

  datatype WorkPhase = Queued | Executed(end: CallEnd) | Completed

  /** A queued worker. `target` is the copied handle of a call, `data` the
      handle an asynchronous open has obtained and not yet handed over;
      `settled` counts settlements of its promise. */
  datatype Work = Work(opening: bool, receiver: Option<nat>, target: nat, data: nat, phase: WorkPhase, settled: nat)

  /** An admitted close that the JavaScript thread is waiting for: `close()` on a
      wrapper, or a close whose result is thrown away. */
  datatype Closing = Closing(handle: nat, wrapper: Option<nat>)

  /** `table` is the engine's registry. `released` and `lost` are histories:
      handles the registry let go, and live handles somebody let go. */
  datatype State = State(
    wrappers: map<nat, Wrapper>,
    works: map<nat, Work>,
    table: map<nat, Flags>,
    busy: Option<Closing>,
    released: seq<nat>,
    lost: set<nat>,
    nextHandle: nat,
    nextId: nat)

  const INITIAL := State(map[], map[], map[], None, [], {}, 1, 0)

  datatype Step =
    | Open(wraps: bool)
    | QueueOpen
    | ExecuteOpen(w: nat, ok: bool)
    | CompleteOpen(w: nat, ran: bool, wraps: bool)
    | CallStore(wrapper: nat, end: CallEnd)
    | QueueCall(receiver: nat)
    | ExecuteCall(w: nat, end: CallEnd)
    | CompleteCall(w: nat)
    | CloseStore(wrapper: nat)
    | Drop(wrapper: nat)
    | Finalize(wrapper: nat)
    | FinishClose(outcome: StoreClose)

  predicate Holding(s: State, x: nat) {
    x in s.wrappers && s.wrappers[x].reachable && s.wrappers[x].handle != 0
  }

  /** Workers run at any time; the rest needs the JavaScript thread. */
  predicate ThreadReady(s: State, step: Step) {
    s.busy.None? || step.ExecuteOpen? || step.ExecuteCall? || step.FinishClose?
  }

  predicate Enabled(s: State, step: Step) {
    && ThreadReady(s, step)
    && match step
       case Open(_) => true
       case QueueOpen => true
       case ExecuteOpen(w, _) => w in s.works && s.works[w].opening && s.works[w].phase.Queued?
       // `ran == false` is a worker that was cancelled before it executed.
       case CompleteOpen(w, ran, _) =>
         w in s.works && s.works[w].opening && (if ran then s.works[w].phase.Executed? else s.works[w].phase.Queued?)
       case CallStore(x, _) => Holding(s, x)
       case QueueCall(x) => Holding(s, x)
       case ExecuteCall(w, _) => w in s.works && !s.works[w].opening && s.works[w].phase.Queued?
       case CompleteCall(w) => w in s.works && !s.works[w].opening && !s.works[w].phase.Completed?
       case CloseStore(x) => Holding(s, x)
       case Drop(x) => x in s.wrappers && s.wrappers[x].reachable
       case Finalize(x) => x in s.wrappers && !s.wrappers[x].reachable && s.wrappers[x].refs == {}
       case FinishClose(_) => s.busy.Some?
  }

  /** `ze_close` up to the store's own close. */
  function BeginClose(s: State, h: nat, wrapper: Option<nat>): State {
    s.(table := Begin(s.table, h),
       released := if Admit(s.table, h).WasPoisoned? then s.released + [h] else s.released,
       busy := if Admit(s.table, h).Admitted? then Some(Closing(h, wrapper)) else s.busy)
  }

  /** A close whose result nobody looks at: the caller forgets the handle, so a
      refusal loses it. */
  function Discard(s: State, h: nat): State {
    if h == 0 then s
    else BeginClose(s, h, None).(lost := if Admit(s.table, h).Refused? then s.lost + {h} else s.lost)
  }

  function ClearWrapper(s: State, x: nat): State {
    if x in s.wrappers then s.(wrappers := s.wrappers[x := s.wrappers[x].(handle := 0)]) else s
  }

  /** The rest of `ze_close` and of its caller: a wrapper forgets its handle on
      success only, a discarding caller whatever happened. */
  function EndClose(s: State, o: StoreClose): State
    requires s.busy.Some?
  {
    var h, x := s.busy.value.handle, s.busy.value.wrapper;
    var s1 := s.(table := Finish(s.table, h, o), busy := None,
                 released := if o.Panics? then s.released else s.released + [h],
                 lost := if o.Panics? && x.None? then s.lost + {h} else s.lost);
    if x.Some? && o.Succeeds? then ClearWrapper(s1, x.value) else s1
  }

  /** The engine opens a store under a handle never used before. */
  function Allocate(s: State): State {
    s.(table := s.table[s.nextHandle := OPEN], nextHandle := s.nextHandle + 1)
  }

  function AddWrapper(s: State, h: nat): State {
    s.(wrappers := s.wrappers[s.nextId := Wrapper(h, {}, true)], nextId := s.nextId + 1)
  }

  function AddWork(s: State, work: Work): State {
    s.(works := s.works[s.nextId := work], nextId := s.nextId + 1)
  }

  function SetPhase(s: State, w: nat, phase: WorkPhase): State
    requires w in s.works
  {
    s.(works := s.works[w := s.works[w].(phase := phase)])
  }

  function SettleWork(s: State, w: nat): State
    requires w in s.works
  {
    s.(works := s.works[w := s.works[w].(phase := Completed, data := 0, settled := s.works[w].settled + 1)])
  }

  function Pin(s: State, x: nat, refs: set<nat>): State
    requires x in s.wrappers
  {
    s.(wrappers := s.wrappers[x := s.wrappers[x].(refs := refs)])
  }

  function Unpin(s: State, w: nat): State
    requires w in s.works
  {
    match s.works[w].receiver
    case None => s
    case Some(r) => if r in s.wrappers then Pin(s, r, s.wrappers[r].refs - {w}) else s
  }

  function AfterCall(s: State, h: nat, end: CallEnd): State {
    if end.Panicked? then s.(table := Poison(s.table, h)) else s
  }

  function Next(s: State, step: Step): State
    requires Enabled(s, step)
  {
    match step
    case Open(wraps) =>
      if wraps then AddWrapper(Allocate(s), s.nextHandle) else Discard(Allocate(s), s.nextHandle)
    case QueueOpen => AddWork(s, Work(true, None, 0, 0, Queued, 0))
    case ExecuteOpen(w, ok) =>
      if ok then Allocate(s).(works := s.works[w := s.works[w].(phase := Executed(Succeeded), data := s.nextHandle)])
      else SetPhase(s, w, Executed(Failed))
    case CompleteOpen(w, ran, wraps) =>
      var h := s.works[w].data;
      var done := SettleWork(s, w);
      if ran && s.works[w].phase.end.Succeeded? && wraps then AddWrapper(done, h) else Discard(done, h)
    case CallStore(x, end) => AfterCall(s, s.wrappers[x].handle, end)
    case QueueCall(r) =>
      AddWork(Pin(s, r, s.wrappers[r].refs + {s.nextId}), Work(false, Some(r), s.wrappers[r].handle, 0, Queued, 0))
    case ExecuteCall(w, end) => AfterCall(SetPhase(s, w, Executed(end)), s.works[w].target, end)
    case CompleteCall(w) => Unpin(SettleWork(s, w), w)
    case CloseStore(x) =>
      var h := s.wrappers[x].handle;
      var begun := BeginClose(s, h, Some(x));
      if Admit(s.table, h).WasPoisoned? then ClearWrapper(begun, x) else begun
    case Drop(x) => s.(wrappers := s.wrappers[x := s.wrappers[x].(reachable := false)])
    case Finalize(x) => Discard(s.(wrappers := s.wrappers - {x}), s.wrappers[x].handle)
    case FinishClose(o) => EndClose(s, o)
  }

  // ----- owners

  datatype Owner = ByWrapper(id: nat) | ByWork(id: nat) | ByThread

  function HandleOf(s: State, o: Owner): nat {
    match o
    case ByWrapper(x) => if x in s.wrappers then s.wrappers[x].handle else 0
    case ByWork(w) => if w in s.works then s.works[w].data else 0
    case ByThread => if s.busy.Some? && s.busy.value.wrapper.None? then s.busy.value.handle else 0
  }

  ghost predicate Owned(s: State, h: nat) {
    exists o :: HandleOf(s, o) == h
  }

  /** No two owners hold the same handle. */
  ghost predicate SingleOwners(s: State) {
    forall o, p :: HandleOf(s, o) == HandleOf(s, p) != 0 ==> o == p
  }

  /** Live handles are owned, or are on record as lost; only `floating` is
      between owners (0 when nothing is). */
  ghost predicate Accounted(s: State, floating: nat) {
    && floating < s.nextHandle
    && (forall h :: h in s.table ==> 0 < h < s.nextHandle)
    && (forall o :: HandleOf(s, o) < s.nextHandle)
    && (forall h :: h in s.table && h !in s.lost && h != floating ==> Owned(s, h))
    && (forall h :: h in s.lost ==> h in s.table && !Owned(s, h))
    && floating !in s.lost && (floating != 0 ==> !Owned(s, floating))
  }

  ghost predicate Owners(s: State, floating: nat) {
    SingleOwners(s) && Accounted(s, floating)
  }

  /** A handle that would be refused is the one whose close is under way. */
  predicate OnlyBusyCloses(table: map<nat, Flags>, busy: Option<Closing>) {
    && (forall h :: h in table && table[h].closing && !table[h].poisoned ==> busy.Some? && busy.value.handle == h)
    && (busy.Some? ==> busy.value.handle in table)
  }

  /** The wrapper being closed still holds the handle. */
  predicate BusyHolds(wrappers: map<nat, Wrapper>, busy: Option<Closing>) {
    busy.Some? && busy.value.wrapper.Some? ==>
      var x := busy.value.wrapper.value;
      x in wrappers && wrappers[x].handle == busy.value.handle
  }

  /** A handle is released at most once, and then it is not live. */
  predicate ReleasedOnce(s: State) {
    && Distinct(s.released)
    && (forall i :: 0 <= i < |s.released| ==> s.released[i] < s.nextHandle && s.released[i] !in s.table)
  }

  predicate Engine(s: State) {
    OnlyBusyCloses(s.table, s.busy) && BusyHolds(s.wrappers, s.busy) && ReleasedOnce(s)
  }

  type Wrappers = map<nat, Wrapper>
  type Works = map<nat, Work>

  predicate Pending(k: Work) {
    !k.phase.Completed?
  }

  predicate WorkOk(k: Work) {
    && k.settled == (if Pending(k) then 0 else 1)
    && (k.data != 0 <==> k.opening && k.phase == Executed(Succeeded))
    && (k.opening ==> k.receiver.None?)
  }

  predicate Refers(wrappers: Wrappers, x: nat, w: nat) {
    x in wrappers && w in wrappers[x].refs
  }

  predicate Awaits(works: Works, w: nat, x: nat) {
    w in works && Pending(works[w]) && works[w].receiver == Some(x)
  }

  /** A wrapper is referenced by exactly the workers that are pending on it, and
      so exists. */
  ghost predicate Pinned(wrappers: Wrappers, works: Works) {
    forall x, w :: Refers(wrappers, x, w) <==> Awaits(works, w, x)
  }

  ghost predicate Links(wrappers: Wrappers, works: Works, nextId: nat) {
    && (forall x :: x in wrappers ==> x < nextId)
    && (forall w :: w in works ==> w < nextId && WorkOk(works[w]))
    && Pinned(wrappers, works)
  }

  ghost predicate InvBut(s: State, floating: nat) {
    Owners(s, floating) && Engine(s) && Links(s.wrappers, s.works, s.nextId)
  }

  ghost predicate Inv(s: State) {
    InvBut(s, 0)
  }

  // ----- frames

  lemma SameHandlesSameOwned(s: State, s': State)
    requires forall o :: HandleOf(s', o) == HandleOf(s, o)
    ensures forall g :: Owned(s', g) <==> Owned(s, g)
  {
    forall g
      ensures Owned(s', g) <==> Owned(s, g)
    {
      if Owned(s, g) {
        var o :| HandleOf(s, o) == g;
        assert HandleOf(s', o) == g;
      }
      if Owned(s', g) {
        var o :| HandleOf(s', o) == g;
        assert HandleOf(s, o) == g;
      }
    }
  }

  lemma SameOwners(s: State, s': State, floating: nat)
    requires Owners(s, floating) && s'.table.Keys == s.table.Keys && s'.lost == s.lost && s'.nextHandle == s.nextHandle
    requires forall p :: HandleOf(s', p) == HandleOf(s, p)
    ensures Owners(s', floating)
  {
    SameHandlesSameOwned(s, s');
  }

  /** Taking a handle away from its only owner leaves it floating. */
  lemma TakeFrom(s: State, s': State, o: Owner)
    requires Owners(s, 0) && s'.table == s.table && s'.lost == s.lost && s'.nextHandle == s.nextHandle
    requires HandleOf(s', o) == 0 && forall p :: p != o ==> HandleOf(s', p) == HandleOf(s, p)
    ensures Owners(s', HandleOf(s, o))
  {
    var h := HandleOf(s, o);
    forall g | g in s'.table && g !in s'.lost && g != h
      ensures Owned(s', g)
    {
      assert Owned(s, g);
      var p :| HandleOf(s, p) == g;
      assert HandleOf(s', p) == g;
    }
    assert forall p :: HandleOf(s', p) == h != 0 ==> p == o;
    assert h in s.lost ==> Owned(s, h);
    forall g | g in s'.lost
      ensures !Owned(s', g)
    {
      assert !Owned(s, g);
    }
  }

  /** Giving the floating handle to an owner that held nothing. */
  lemma GiveTo(s: State, s': State, o: Owner, h: nat)
    requires Owners(s, h) && h != 0 && s'.table.Keys == s.table.Keys && s'.lost == s.lost && s'.nextHandle == s.nextHandle
    requires HandleOf(s, o) == 0 && HandleOf(s', o) == h && forall p :: p != o ==> HandleOf(s', p) == HandleOf(s, p)
    ensures Owners(s', 0)
  {
    forall g | g in s'.table && g !in s'.lost
      ensures Owned(s', g)
    {
      if g != h {
        assert Owned(s, g);
        var p :| HandleOf(s, p) == g;
        assert HandleOf(s', p) == g;
      }
    }
    assert forall p :: HandleOf(s, p) != h;
    forall g | g in s'.lost
      ensures !Owned(s', g)
    {
      assert !Owned(s, g);
    }
  }

  /** A floating handle that is released, or put on record as lost. */
  lemma FloatingGoes(s: State, s': State, h: nat)
    requires Owners(s, h) && s'.nextHandle == s.nextHandle && forall p :: HandleOf(s', p) == HandleOf(s, p)
    requires || (h !in s.table && s'.table.Keys == s.table.Keys && s'.lost == s.lost)
             || (s'.table.Keys == s.table.Keys - {h} && s'.lost == s.lost)
             || (h in s.table && s'.table.Keys == s.table.Keys && s'.lost == s.lost + {h})
    ensures Owners(s', 0)
  {
    SameHandlesSameOwned(s, s');
  }

  /** A handle that is released while its owner goes on holding it. */
  lemma OwnedGoes(s: State, s': State, h: nat)
    requires Owners(s, 0) && s'.nextHandle == s.nextHandle && forall p :: HandleOf(s', p) == HandleOf(s, p)
    requires Owned(s, h) && s'.table.Keys == s.table.Keys - {h} && s'.lost == s.lost
    ensures Owners(s', 0)
  {
    SameHandlesSameOwned(s, s');
  }

  lemma SamePins(wrappers: Wrappers, works: Works, wrappers': Wrappers, works': Works)
    requires Pinned(wrappers, works)
    requires forall x, w :: Refers(wrappers', x, w) <==> Refers(wrappers, x, w)
    requires forall x, w :: Awaits(works', w, x) <==> Awaits(works, w, x)
    ensures Pinned(wrappers', works')
  {
  }

  // ----- the building blocks of the steps

  lemma AllocateKeeps(s: State)
    requires Inv(s)
    ensures InvBut(Allocate(s), s.nextHandle)
  {
    SameHandlesSameOwned(s, Allocate(s));
  }

  lemma AddWrapperKeeps(s: State, h: nat)
    requires InvBut(s, h) && h != 0
    ensures Inv(AddWrapper(s, h))
  {
    GiveTo(s, AddWrapper(s, h), ByWrapper(s.nextId), h);
    SamePins(s.wrappers, s.works, AddWrapper(s, h).wrappers, AddWrapper(s, h).works);
  }

  /** Nobody else is closing, so a live handle is not refused. */
  lemma NeverRefused(s: State, h: nat)
    requires OnlyBusyCloses(s.table, s.busy) && s.busy.None?
    ensures !Admit(s.table, h).Refused?
  {
  }

  lemma DiscardKeepsOwners(s: State, h: nat)
    requires Owners(s, h) && h != 0 && s.busy.None? && OnlyBusyCloses(s.table, s.busy)
    ensures Owners(Discard(s, h), 0)
  {
    NeverRefused(s, h);
    var s' := Discard(s, h);
    if Admit(s.table, h).Admitted? {
      GiveTo(s, s', ByThread, h);
    } else {
      FloatingGoes(s, s', h);
    }
  }

  lemma DiscardKeeps(s: State, h: nat)
    requires InvBut(s, h) && s.busy.None?
    ensures Inv(Discard(s, h)) && Discard(s, h).lost == s.lost
  {
    if h != 0 {
      DiscardKeepsOwners(s, h);
      NeverRefused(s, h);
    }
  }

  // ----- every step keeps the invariant

  lemma OpenKeeps(s: State, wraps: bool)
    requires Inv(s) && Enabled(s, Open(wraps))
    ensures Inv(Next(s, Open(wraps)))
  {
    AllocateKeeps(s);
    if wraps {
      AddWrapperKeeps(Allocate(s), s.nextHandle);
    } else {
      DiscardKeeps(Allocate(s), s.nextHandle);
    }
  }

  lemma QueueOpenKeeps(s: State)
    requires Inv(s) && Enabled(s, QueueOpen)
    ensures Inv(Next(s, QueueOpen))
  {
    SameOwners(s, Next(s, QueueOpen), 0);
    SamePins(s.wrappers, s.works, Next(s, QueueOpen).wrappers, Next(s, QueueOpen).works);
  }

  lemma ExecuteOpenKeeps(s: State, w: nat, ok: bool)
    requires Inv(s) && Enabled(s, ExecuteOpen(w, ok))
    ensures Inv(Next(s, ExecuteOpen(w, ok)))
  {
    var s' := Next(s, ExecuteOpen(w, ok));
    assert WorkOk(s.works[w]);
    SamePins(s.wrappers, s.works, s'.wrappers, s'.works);
    if ok {
      AllocateKeeps(s);
      GiveTo(Allocate(s), s', ByWork(w), s.nextHandle);
    } else {
      SameOwners(s, s', 0);
    }
  }

  lemma CompleteOpenKeeps(s: State, step: Step)
    requires Inv(s) && step.CompleteOpen? && Enabled(s, step)
    ensures Inv(Next(s, step))
  {
    var w := step.w;
    var done := SettleWork(s, w);
    assert WorkOk(s.works[w]);
    TakeFrom(s, done, ByWork(w));
    SamePins(s.wrappers, s.works, done.wrappers, done.works);
    if step.ran && s.works[w].phase.end.Succeeded? && step.wraps {
      AddWrapperKeeps(done, s.works[w].data);
    } else {
      DiscardKeeps(done, s.works[w].data);
    }
  }

  /** A panic marks a handle and does nothing else. */
  lemma AfterCallKeeps(s: State, h: nat, end: CallEnd)
    requires Inv(s)
    ensures Inv(AfterCall(s, h, end))
  {
    SameOwners(s, AfterCall(s, h, end), 0);
  }

  lemma QueueCallKeepsPins(s: State, r: nat)
    requires Links(s.wrappers, s.works, s.nextId) && Enabled(s, QueueCall(r))
    ensures var s' := Next(s, QueueCall(r)); Pinned(s'.wrappers, s'.works)
  {
    var s' := Next(s, QueueCall(r));
    forall x, w
      ensures Refers(s'.wrappers, x, w) <==> Awaits(s'.works, w, x)
    {
      assert !Refers(s.wrappers, x, s.nextId) by {
        assert !Awaits(s.works, s.nextId, x);
      }
      assert Refers(s.wrappers, x, w) <==> Awaits(s.works, w, x);
    }
  }

  lemma QueueCallKeeps(s: State, r: nat)
    requires Inv(s) && Enabled(s, QueueCall(r))
    ensures Inv(Next(s, QueueCall(r)))
  {
    SameOwners(s, Next(s, QueueCall(r)), 0);
    QueueCallKeepsPins(s, r);
  }

  lemma ExecuteCallKeeps(s: State, w: nat, end: CallEnd)
    requires Inv(s) && Enabled(s, ExecuteCall(w, end))
    ensures Inv(Next(s, ExecuteCall(w, end)))
  {
    var s1 := SetPhase(s, w, Executed(end));
    SameOwners(s, s1, 0);
    SamePins(s.wrappers, s.works, s1.wrappers, s1.works);
    AfterCallKeeps(s1, s.works[w].target, end);
  }

  lemma CompleteCallKeepsPins(s: State, w: nat)
    requires Links(s.wrappers, s.works, s.nextId) && Enabled(s, CompleteCall(w))
    ensures var s' := Next(s, CompleteCall(w)); Pinned(s'.wrappers, s'.works)
  {
    var s' := Next(s, CompleteCall(w));
    forall x, v
      ensures Refers(s'.wrappers, x, v) <==> Awaits(s'.works, v, x)
    {
      assert Refers(s.wrappers, x, v) <==> Awaits(s.works, v, x);
    }
  }

  lemma CompleteCallKeeps(s: State, w: nat)
    requires Inv(s) && Enabled(s, CompleteCall(w))
    ensures Inv(Next(s, CompleteCall(w)))
  {
    assert WorkOk(s.works[w]);
    SameOwners(s, Next(s, CompleteCall(w)), 0);
    CompleteCallKeepsPins(s, w);
  }

  /** Emptying a wrapper whose handle is poisoned, as one step. */
  lemma ClosePoisonedKeeps(s: State, x: nat)
    requires Inv(s) && Enabled(s, CloseStore(x)) && Admit(s.table, s.wrappers[x].handle).WasPoisoned?
    ensures Inv(Next(s, CloseStore(x)))
  {
    var mid, h := ClearWrapper(s, x), s.wrappers[x].handle;
    assert HandleOf(s, ByWrapper(x)) == h;
    TakeFrom(s, mid, ByWrapper(x));
    FloatingGoes(mid, Next(s, CloseStore(x)), h);
    SamePins(s.wrappers, s.works, Next(s, CloseStore(x)).wrappers, Next(s, CloseStore(x)).works);
  }

  lemma CloseStoreKeeps(s: State, x: nat)
    requires Inv(s) && Enabled(s, CloseStore(x))
    ensures Inv(Next(s, CloseStore(x)))
  {
    var h := s.wrappers[x].handle;
    NeverRefused(s, h);
    if Admit(s.table, h).WasPoisoned? {
      ClosePoisonedKeeps(s, x);
    } else {
      SameOwners(s, Next(s, CloseStore(x)), 0);
    }
  }

  lemma DropKeeps(s: State, x: nat)
    requires Inv(s) && Enabled(s, Drop(x))
    ensures Inv(Next(s, Drop(x)))
  {
    SameOwners(s, Next(s, Drop(x)), 0);
    SamePins(s.wrappers, s.works, Next(s, Drop(x)).wrappers, Next(s, Drop(x)).works);
  }

  lemma FinalizeKeeps(s: State, x: nat)
    requires Inv(s) && Enabled(s, Finalize(x))
    ensures Inv(Next(s, Finalize(x)))
  {
    var mid := s.(wrappers := s.wrappers - {x});
    assert HandleOf(s, ByWrapper(x)) == s.wrappers[x].handle;
    TakeFrom(s, mid, ByWrapper(x));
    SamePins(s.wrappers, s.works, mid.wrappers, mid.works);
    DiscardKeeps(mid, s.wrappers[x].handle);
  }

  lemma EndCloseKeepsEngine(s: State, o: StoreClose)
    requires Engine(s) && s.busy.Some? && forall h :: h in s.table ==> h < s.nextHandle
    ensures Engine(EndClose(s, o))
  {
  }

  /** The end of a close whose result is thrown away. */
  lemma EndDiscardKeepsOwners(s: State, o: StoreClose)
    requires Owners(s, 0) && Engine(s) && s.busy.Some? && s.busy.value.wrapper.None?
    ensures Owners(EndClose(s, o), 0)
  {
    var h, mid := s.busy.value.handle, s.(busy := None);
    assert HandleOf(s, ByThread) == h;
    TakeFrom(s, mid, ByThread);
    FloatingGoes(mid, EndClose(s, o), h);
  }

  /** The end of `close()` on a wrapper. */
  lemma EndCloseKeepsOwners(s: State, o: StoreClose)
    requires Owners(s, 0) && Engine(s) && s.busy.Some? && s.busy.value.wrapper.Some?
    ensures Owners(EndClose(s, o), 0)
  {
    var h, x := s.busy.value.handle, s.busy.value.wrapper.value;
    var s' := EndClose(s, o);
    assert HandleOf(s, ByWrapper(x)) == h;
    if o.Succeeds? {
      var mid := ClearWrapper(s, x).(busy := None);
      TakeFrom(s, mid, ByWrapper(x));
      FloatingGoes(mid, s', h);
    } else if o.Fails? {
      OwnedGoes(s, s', h);
    } else {
      SameOwners(s, s', 0);
    }
  }

  lemma FinishCloseKeeps(s: State, o: StoreClose)
    requires Inv(s) && s.busy.Some?
    ensures Inv(EndClose(s, o))
  {
    EndCloseKeepsEngine(s, o);
    SamePins(s.wrappers, s.works, EndClose(s, o).wrappers, EndClose(s, o).works);
    if s.busy.value.wrapper.None? {
      EndDiscardKeepsOwners(s, o);
    } else {
      EndCloseKeepsOwners(s, o);
    }
  }

  lemma StepKeeps(s: State, step: Step)
    requires Inv(s) && Enabled(s, step)
    ensures Inv(Next(s, step))
  {
    match step {
      case Open(wraps) => OpenKeeps(s, wraps);
      case QueueOpen => QueueOpenKeeps(s);
      case ExecuteOpen(w, ok) => ExecuteOpenKeeps(s, w, ok);
      case CompleteOpen(_, _, _) => CompleteOpenKeeps(s, step);
      case CallStore(x, end) => AfterCallKeeps(s, s.wrappers[x].handle, end);
      case QueueCall(r) => QueueCallKeeps(s, r);
      case ExecuteCall(w, end) => ExecuteCallKeeps(s, w, end);
      case CompleteCall(w) => CompleteCallKeeps(s, w);
      case CloseStore(x) => CloseStoreKeeps(s, x);
      case Drop(x) => DropKeeps(s, x);
      case Finalize(x) => FinalizeKeeps(s, x);
      case FinishClose(o) => FinishCloseKeeps(s, o);
    }
  }

  // ----- whole runs

  ghost predicate IsRun(states: seq<State>, steps: seq<Step>) {
    && |states| == |steps| + 1 && states[0] == INITIAL
    && forall n :: 0 <= n < |steps| ==> Enabled(states[n], steps[n]) && states[n + 1] == Next(states[n], steps[n])
  }

  lemma {:induction false} RunKeeps(states: seq<State>, steps: seq<Step>, n: nat)
    requires IsRun(states, steps) && n < |states|
    ensures Inv(states[n])
    decreases n
  {
    if n == 0 {
      assert forall o :: HandleOf(INITIAL, o) == 0;
    } else {
      RunKeeps(states, steps, n - 1);
      StepKeeps(states[n - 1], steps[n - 1]);
    }
  }

  /** No handle ever has two owners, none is released twice or after that still
      live, a pending worker's receiver is never finalized, and a promise is
      settled once when its worker completes and not before. */
  lemma OwnershipIsSafe(states: seq<State>, steps: seq<Step>, n: nat)
    requires IsRun(states, steps) && n < |states|
    ensures var s := states[n];
            && SingleOwners(s)
            && ReleasedOnce(s)
            && (forall w :: w in s.works && Pending(s.works[w]) && s.works[w].receiver.Some? ==>
                              s.works[w].receiver.value in s.wrappers)
            && (forall w :: w in s.works ==> s.works[w].settled == if Pending(s.works[w]) then 0 else 1)
  {
    RunKeeps(states, steps, n);
    var s := states[n];
    forall w | w in s.works && Pending(s.works[w]) && s.works[w].receiver.Some?
      ensures s.works[w].receiver.value in s.wrappers
    {
      assert Awaits(s.works, w, s.works[w].receiver.value);
    }
  }

  /** The handle a step asks the engine to close; 0 if none. */
  function Asks(s: State, step: Step): nat
    requires Enabled(s, step)
  {
    match step
    case Open(wraps) => if wraps then 0 else s.nextHandle
    case CompleteOpen(w, ran, wraps) => if ran && s.works[w].phase.end.Succeeded? && wraps then 0 else s.works[w].data
    case CloseStore(x) => s.wrappers[x].handle
    case Finalize(x) => s.wrappers[x].handle
    case _ => 0
  }

  /** In every run, panics included, no close is ever refused: the handle is
      live and admitted, live and released as poisoned, or already released. */
  lemma NoCloseIsRefused(states: seq<State>, steps: seq<Step>, n: nat)
    requires IsRun(states, steps) && n < |steps|
    ensures !Admit(states[n].table, Asks(states[n], steps[n])).Refused?
    ensures Asks(states[n], steps[n]) in states[n].table && states[n].table[Asks(states[n], steps[n])].poisoned ==>
              Asks(states[n], steps[n]) !in states[n + 1].table
  {
    RunKeeps(states, steps, n);
    if Asks(states[n], steps[n]) != 0 {
      NeverRefused(states[n], Asks(states[n], steps[n]));
    }
  }

  /** Exactly one owner holds the handle. */
  ghost predicate HasOneOwner(s: State, h: nat) {
    exists o :: HandleOf(s, o) == h && forall p :: HandleOf(s, p) == h ==> p == o
  }

  /** A close whose result is thrown away ends in a panic. */
  predicate DiscardPanics(s: State, step: Step) {
    step == FinishClose(Panics) && s.busy.Some? && s.busy.value.wrapper.None?
  }

  lemma LossIsDiscardPanic(s: State, step: Step)
    requires Inv(s) && Enabled(s, step)
    ensures Next(s, step).lost == if DiscardPanics(s, step) then s.lost + {s.busy.value.handle} else s.lost
    ensures DiscardPanics(s, step) ==> s.busy.value.handle !in s.lost
  {
    match step {
      case Open(wraps) =>
        AllocateKeeps(s);
        if !wraps {
          DiscardKeeps(Allocate(s), s.nextHandle);
        }
      case CompleteOpen(w, _, _) =>
        NeverRefused(s, s.works[w].data);
      case Finalize(x) =>
        NeverRefused(s, s.wrappers[x].handle);
      case FinishClose(o) =>
        if s.busy.value.wrapper.None? {
          assert HandleOf(s, ByThread) == s.busy.value.handle;
          assert Owned(s, s.busy.value.handle);
        }
      case _ =>
    }
  }

  lemma {:induction false} LostIffDiscardPanicked(states: seq<State>, steps: seq<Step>, n: nat)
    requires IsRun(states, steps) && n < |states|
    ensures states[n].lost == {} <==> forall k :: 0 <= k < n ==> !DiscardPanics(states[k], steps[k])
    decreases n
  {
    if n > 0 {
      LostIffDiscardPanicked(states, steps, n - 1);
      RunKeeps(states, steps, n - 1);
      LossIsDiscardPanic(states[n - 1], steps[n - 1]);
    }
  }

  /** Every live handle has exactly one owner, if and only if no close whose
      result is thrown away has panicked so far. */
  lemma ExactlyOneOwnerIffNoDiscardPanicked(states: seq<State>, steps: seq<Step>, n: nat)
    requires IsRun(states, steps) && n < |states|
    ensures (forall h :: h in states[n].table ==> HasOneOwner(states[n], h))
            <==> forall k :: 0 <= k < n ==> !DiscardPanics(states[k], steps[k])
  {
    RunKeeps(states, steps, n);
    LostIffDiscardPanicked(states, steps, n);
    var s := states[n];
    if s.lost == {} {
      forall h | h in s.table
        ensures HasOneOwner(s, h)
      {
        assert Owned(s, h);
        var o :| HandleOf(s, o) == h;
        assert forall p :: HandleOf(s, p) == h ==> p == o;
      }
    } else {
      var h :| h in s.lost;
      assert h in s.table && !Owned(s, h);
      assert !HasOneOwner(s, h);
    }
  }

  predicate Panic(step: Step) {
    match step
    case CallStore(_, end) => end.Panicked?
    case ExecuteCall(_, end) => end.Panicked?
    case FinishClose(o) => o.Panics?
    case _ => false
  }

  /** In a run without panics every live handle has exactly one owner. */
  lemma PanicFreeRunsKeepOwners(states: seq<State>, steps: seq<Step>, n: nat, h: nat)
    requires IsRun(states, steps) && n < |states| && forall k :: 0 <= k < n ==> !Panic(steps[k])
    requires h in states[n].table
    ensures HasOneOwner(states[n], h)
  {
    forall k | 0 <= k < n
      ensures !DiscardPanics(states[k], steps[k])
    {
      assert !Panic(steps[k]);
    }
    ExactlyOneOwnerIffNoDiscardPanicked(states, steps, n);
  }

  /** A `close()` that panicked can be repeated: the wrapper still owns the
      handle, and the next close releases it and clears the wrapper. */
  lemma PanickedCloseCanBeRepeated(s: State, x: nat)
    requires Inv(s) && s.busy.Some? && s.busy.value.wrapper == Some(x) && s.wrappers[x].reachable
    ensures var h := s.busy.value.handle; var s1 := EndClose(s, Panics);
            && h in s1.table && Enabled(s1, CloseStore(x))
            && var s2 := Next(s1, CloseStore(x));
            h !in s2.table && s2.wrappers[x].handle == 0 && s2.busy.None?
  {
  }

  /** The states of a run that loses a store. */
  function Losing(): seq<State> {
    var s1 := State(map[0 := Wrapper(1, {}, true)], map[], map[1 := OPEN], None, [], {}, 2, 1);
    [INITIAL, s1, s1.(wrappers := map[0 := Wrapper(1, {}, false)]),
     s1.(wrappers := map[], table := map[1 := Flags(false, true)], busy := Some(Closing(1, None))),
     s1.(wrappers := map[], table := map[1 := Flags(true, true)], lost := {1})]
  }

  lemma LosingOpens()
    ensures var t := Losing();
            && Enabled(t[0], Open(true)) && t[1] == Next(t[0], Open(true))
            && Enabled(t[1], Drop(0)) && t[2] == Next(t[1], Drop(0))
  {
  }

  lemma LosingCloses()
    ensures var t := Losing();
            && Enabled(t[2], Finalize(0)) && t[3] == Next(t[2], Finalize(0))
            && Enabled(t[3], FinishClose(Panics)) && t[4] == Next(t[3], FinishClose(Panics))
  {
    assert Losing()[2].wrappers - {0} == map[];
  }

  /** A store can be lost: opened, dropped, and finalized by a close in which
      the store panics. The engine still has it, poisoned, and nobody owns it. */
  lemma FinalizerCanLoseAHandle()
    ensures IsRun(Losing(), [Open(true), Drop(0), Finalize(0), FinishClose(Panics)])
    ensures Losing()[4].table == map[1 := Flags(true, true)] && !Owned(Losing()[4], 1)
  {
    LosingOpens();
    LosingCloses();
    assert forall o :: HandleOf(Losing()[4], o) == 0;
  }
}
