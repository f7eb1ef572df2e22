/** The engine's registry of open stores: a handle is a slot index tagged with
    the slot's generation. Slots are reused, generations are not: a slot whose
    32-bit generation is exhausted is retired. */
module SlotTable {
  import opened Prelude
  import opened Registry

  const TWO32: nat := 0x1_0000_0000

  datatype Error = InvalidHandle | OutOfMemory | Closed | Poisoned | Closing

  datatype Result<+T> = Ok(value: T) | Err(error: Error)

  /** What a close finds: a poisoned slot, released on the spot, or a store
      that the caller must close and then release. */
  datatype CloseAccess<+S> = WasPoisoned | Store(store: S)

  datatype Slot<+S> = Slot(generation: nat, payload: Option<S>, poisoned: bool, closing: bool)

  /** A handle taken apart. */
  datatype Tag = Tag(index: nat, generation: nat)

  function Encode(t: Tag): nat {
    t.generation * TWO32 + t.index
  }

  function Bump(generation: nat): nat {
    if generation + 1 < TWO32 then generation + 1 else 0
  }

  function Decode(handle: nat): (r: Result<Tag>)
    ensures r.Ok? ==> r.value.index < TWO32 && r.value.generation > 0 && Encode(r.value) == handle
    ensures r.Err? <==> handle < TWO32
  {
    if handle == 0 || handle / TWO32 == 0 then Err(InvalidHandle)
    else Ok(Tag(handle % TWO32, handle / TWO32))
  }

  /** Handles and tags are in bijection, except for the reserved low handles. */
  lemma DecodeInverts(t: Tag)
    requires t.index < TWO32 && t.generation > 0
    ensures Decode(Encode(t)) == Ok(t)
  {
    assert Encode(t) >= TWO32;
    assert Encode(t) / TWO32 == t.generation;
    assert Encode(t) % TWO32 == t.index;
  }

  ghost predicate SlotOk<S>(i: nat, s: Slot<S>, issued: map<Tag, S>) {
    && s.generation < TWO32
    && (s.payload.None? ==> !s.poisoned && !s.closing)
    && (s.payload.Some? ==>
          s.generation > 0 && Tag(i, s.generation) in issued && issued[Tag(i, s.generation)] == s.payload.value)
  }

  /** An issued tag is its slot's present tenant or an earlier one. */
  ghost predicate TagOk<S>(t: Tag, slots: seq<Slot<S>>) {
    && t.index < |slots| && t.generation > 0
    && var s := slots[t.index];
       s.generation == 0 || t.generation < s.generation || (t.generation == s.generation && s.payload.Some?)
  }

  ghost predicate Consistent<S>(slots: seq<Slot<S>>, issued: map<Tag, S>) {
    && |slots| <= TWO32
    && (forall i :: 0 <= i < |slots| ==> SlotOk(i, slots[i], issued))
    && forall t :: t in issued ==> TagOk(t, slots)
  }

  /** A slot without tenant whose generations are not used up. */
  predicate Reusable<S>(s: Slot<S>) {
    s.payload.None? && !s.closing && s.generation != 0
  }

  ghost predicate LiveIn<S>(t: Tag, slots: seq<Slot<S>>) {
    t.index < |slots| && slots[t.index].generation == t.generation && slots[t.index].payload.Some?
  }

  ghost function EntriesIn<S>(slots: seq<Slot<S>>, issued: map<Tag, S>): map<Tag, Flags> {
    map t | t in issued && LiveIn(t, slots) :: Flags(slots[t.index].poisoned, slots[t.index].closing)
  }

  /** Giving a free or new slot a tenant. */
  lemma Occupied<S>(slots: seq<Slot<S>>, issued: map<Tag, S>, slots': seq<Slot<S>>, t: Tag, store: S)
    requires Consistent(slots, issued) && t.index <= |slots| && t.index < TWO32 && 0 < t.generation < TWO32
    requires if t.index < |slots| then slots[t.index].payload.None? && slots[t.index].generation == t.generation else t.generation == 1
    requires var slot := Slot(t.generation, Some(store), false, false);
             slots' == if t.index < |slots| then slots[t.index := slot] else slots + [slot]
    ensures t !in issued && !LiveIn(t, slots)
    ensures Consistent(slots', issued[t := store])
    ensures forall u :: LiveIn(u, slots') <==> u == t || LiveIn(u, slots)
    ensures EntriesIn(slots', issued[t := store]) == EntriesIn(slots, issued)[t := OPEN]
  {
    assert t in issued ==> TagOk(t, slots);
    forall i | 0 <= i < |slots'|
      ensures SlotOk(i, slots'[i], issued[t := store])
    {
      if i != t.index {
        assert SlotOk(i, slots[i], issued);
      }
    }
    forall u | u in issued
      ensures TagOk(u, slots')
    {
      assert TagOk(u, slots);
    }
  }

  class Table<S> {
    var slots: seq<Slot<S>>

    /** Every tag ever handed out, with the store it was handed out for. */
    ghost var issued: map<Tag, S>

    ghost predicate Valid()
      reads this
    {
      Consistent(slots, issued)
    }

    /** The tag names its slot's present tenant. */
    ghost predicate Live(t: Tag)
      reads this
    {
      LiveIn(t, slots)
    }

    /** The live handles with their flags. */
    ghost function Entries(): map<Tag, Flags>
      reads this
    {
      EntriesIn(slots, issued)
    }

    constructor ()
      ensures Valid() && issued == map[] && slots == []
    {
      slots, issued := [], map[];
    }

    method FindFree() returns (index: nat)
      ensures index <= |slots|
      ensures index < |slots| ==> Reusable(slots[index])
      ensures forall i :: 0 <= i < index ==> !Reusable(slots[i])
    {
      index := 0;
      while index < |slots| && !(slots[index].payload.None? && !slots[index].closing && slots[index].generation != 0)
        invariant index <= |slots| && forall i :: 0 <= i < index ==> !Reusable(slots[i])
      {
        index := index + 1;
      }
    }

    /** The new handle has never been issued before, whatever was closed since. */
    method Insert(store: S) returns (r: Result<nat>)
      requires Valid()
      modifies this
      ensures Valid()
      ensures r.Ok? ==> Decode(r.value).Ok? && var t := Decode(r.value).value;
                          && t !in old(issued) && issued == old(issued)[t := store]
                          && t !in old(Entries()) && Entries() == old(Entries())[t := OPEN]
                          && forall u :: Live(u) <==> u == t || old(Live(u))
      ensures r.Err? ==> r.error.OutOfMemory? && slots == old(slots) && issued == old(issued)
      ensures r.Ok? <==> old(|slots|) < TWO32 || exists i :: 0 <= i < |old(slots)| && Reusable(old(slots)[i])
    {
      var index := FindFree();
      if index == |slots| && index >= TWO32 {
        return Err(OutOfMemory);
      }
      var t := Tag(index, if index == |slots| then 1 else slots[index].generation);
      var slot := Slot(t.generation, Some(store), false, false);
      var grown := if index == |slots| then slots + [slot] else slots[index := slot];
      assert index < |slots| ==> SlotOk(index, slots[index], issued);
      Occupied(slots, issued, grown, t, store);
      DecodeInverts(t);
      slots, issued := grown, issued[t := store];
      return Ok(Encode(t));
    }

    /** The checks every use of a handle starts with. */
    function Resolve(handle: nat): (r: Result<nat>)
      reads this
      ensures r.Ok? ==> Decode(handle).Ok? && r.value == Decode(handle).value.index && Live(Decode(handle).value)
      ensures r.Err? ==> Decode(handle).Ok? ==> !Live(Decode(handle).value)
    {
      match Decode(handle)
      case Err(e) => Err(e)
      case Ok(t) =>
        if t.index >= |slots| then Err(InvalidHandle)
        else if slots[t.index].generation != t.generation || slots[t.index].payload.None? then Err(Closed)
        else Ok(t.index)
    }

    /** Never yields a store other than the one the handle was issued for. */
    method Lookup(handle: nat) returns (r: Result<S>)
      requires Valid()
      ensures r.Ok? ==> Decode(handle).Ok? && Decode(handle).value in issued && issued[Decode(handle).value] == r.value
      ensures r.Ok? <==> Decode(handle).Ok? && var t := Decode(handle).value;
                           Live(t) && !slots[t.index].poisoned && !slots[t.index].closing
    {
      var index := Resolve(handle);
      if index.Err? {
        return Err(index.error);
      }
      var slot := slots[index.value];
      if slot.poisoned {
        return Err(Poisoned);
      }
      if slot.closing {
        return Err(Closing);
      }
      return Ok(slot.payload.value);
    }

    /** Empties a slot and moves it to its next generation. */
    method Release(index: nat)
      requires Valid() && index < |slots| && slots[index].generation > 0
      modifies this
      ensures Valid() && issued == old(issued)
      ensures forall u :: Live(u) <==> old(Live(u)) && u.index != index
      ensures slots == old(slots)[index := Slot(Bump(old(slots)[index].generation), None, false, false)]
      ensures Entries() == old(Entries()) - {Tag(index, old(slots)[index].generation)}
    {
      slots := slots[index := Slot(Bump(slots[index].generation), None, false, false)];
    }

    /** A poisoned store is released at once; a live handle is refused only
        while it is already closing. */
    method BeginClose(handle: nat) returns (r: Result<CloseAccess<S>>)
      requires Valid()
      modifies this
      ensures Valid() && issued == old(issued)
      ensures r.Ok? ==> Decode(handle).Ok? && old(Live(Decode(handle).value))
      ensures r.Ok? && r.value.Store? ==> Decode(handle).value in issued && issued[Decode(handle).value] == r.value.store
      ensures r.Err? ==> slots == old(slots)
      ensures Decode(handle).Ok? ==> var t := Decode(handle).value;
                && Entries() == Begin(old(Entries()), t)
                && match Admit(old(Entries()), t)
                   case Unknown => r.Err? && !r.error.Closing?
                   case Refused => r == Err(Closing)
                   case WasPoisoned => r == Ok(CloseAccess.WasPoisoned)
                   case Admitted => r.Ok? && r.value.Store?
    {
      var index := Resolve(handle);
      if index.Err? {
        return Err(index.error);
      }
      var slot := slots[index.value];
      if slot.poisoned {
        Release(index.value);
        return Ok(CloseAccess.WasPoisoned);
      }
      if slot.closing {
        return Err(Closing);
      }
      slots := slots[index.value := slot.(closing := true)];
      return Ok(Store(slot.payload.value));
    }

    /** Releases the slot if the handle still names its generation. */
    method FinishClose(handle: nat) returns (r: Result<()>)
      requires Valid()
      modifies this
      ensures Valid() && issued == old(issued)
      ensures r.Ok? ==> Decode(handle).Ok? && forall u :: Live(u) <==> old(Live(u)) && u != Decode(handle).value
      ensures r.Err? ==> slots == old(slots) && (Decode(handle).Ok? ==> !Live(Decode(handle).value))
      ensures Decode(handle).Ok? ==> Entries() == old(Entries()) - {Decode(handle).value}
    {
      match Decode(handle) {
        case Err(e) => return Err(e);
        case Ok(t) =>
          if t.index >= |slots| {
            return Err(InvalidHandle);
          }
          if slots[t.index].generation != t.generation {
            return Err(Closed);
          }
          Release(t.index);
          return Ok(());
      }
    }

    /** Marks a live store; a dead handle poisons nothing. */
    method Poison(handle: nat)
      requires Valid()
      modifies this
      ensures Valid() && issued == old(issued) && |slots| == |old(slots)|
      ensures forall u :: Live(u) <==> old(Live(u))
      ensures forall i :: 0 <= i < |slots| ==>
                            slots[i] == if Decode(handle).Ok? && Decode(handle).value.index == i && Live(Decode(handle).value)
                                        then old(slots)[i].(poisoned := true) else old(slots)[i]
      ensures Entries() == if Decode(handle).Ok? then Registry.Poison(old(Entries()), Decode(handle).value) else old(Entries())
    {
      var index := Resolve(handle);
      if index.Ok? {
        slots := slots[index.value := slots[index.value].(poisoned := true)];
      }
    }
  }

  datatype Status = Done | ClosedPoisoned | Failed(error: Error) | StoreError | Panicked

  /** `ze_close`. A live handle is refused exactly when it is closing and not
      poisoned; an admitted close leaves the handle dead even if the store's
      own close fails, and alive but poisoned exactly if that close panics. */
  method Close<S>(table: Table<S>, handle: nat, o: StoreClose) returns (r: Status)
    requires table.Valid()
    modifies table
    ensures table.Valid() && table.issued == old(table.issued)
    ensures Decode(handle).Err? ==> r.Failed? && table.slots == old(table.slots)
    ensures Decode(handle).Ok? ==> var t := Decode(handle).value; var m := old(table.Entries());
              match Admit(m, t)
              case Unknown => r.Failed? && table.Entries() == m
              case Refused => r == Failed(Closing) && table.Entries() == m
              case WasPoisoned => r == ClosedPoisoned && table.Entries() == m - {t}
              case Admitted =>
                && table.Entries() == Finish(Begin(m, t), t, o)
                && r == (match o case Succeeds => Done case Fails => StoreError case Panics => Panicked)
  {
    var access := table.BeginClose(handle);
    if access.Err? {
      return Failed(access.error);
    }
    if access.value.WasPoisoned? {
      return ClosedPoisoned;
    }
    if o.Panics? {
      table.Poison(handle);
      return Panicked;
    }
    assert Decode(handle).value in table.Entries();
    var released := table.FinishClose(handle);
    assert released.Ok?;
    r := if o.Fails? then StoreError else Done;
  }
}
