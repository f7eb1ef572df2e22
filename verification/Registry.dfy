/** What the engine's handle registry remembers of a live handle, and how a
    close moves through it: `ze_close` begins a close, closes the store and
    then finishes. The key is a handle in any representation. */
module Registry {
  datatype Flags = Flags(poisoned: bool, closing: bool)

  const OPEN := Flags(false, false)

  /** How a close is received. A poisoned handle is released on the spot and a
      handle that is already closing is refused. */
  datatype Admission = Unknown | WasPoisoned | Refused | Admitted

  /** What becomes of the store's own close between begin and finish. */
  datatype StoreClose = Succeeds | Fails | Panics

  function Admit<K(==)>(m: map<K, Flags>, k: K): Admission {
    if k !in m then Unknown
    else if m[k].poisoned then WasPoisoned
    else if m[k].closing then Refused
    else Admitted
  }

  function Begin<K(==)>(m: map<K, Flags>, k: K): map<K, Flags> {
    match Admit(m, k)
    case WasPoisoned => m - {k}
    case Admitted => m[k := m[k].(closing := true)]
    case _ => m
  }

  /** A caught panic marks a live handle. */
  function Poison<K(==)>(m: map<K, Flags>, k: K): map<K, Flags> {
    if k in m then m[k := m[k].(poisoned := true)] else m
  }

  /** A panic in the store's close skips the finish. */
  function Finish<K(==)>(m: map<K, Flags>, k: K, o: StoreClose): map<K, Flags> {
    if o.Panics? then Poison(m, k) else m - {k}
  }

  /** An open handle is admitted once: a second close is refused while the first
      is under way, finds nothing after it, and releases the handle on the
      spot if the first one panicked. No other handle is touched. */
  lemma ClosedOnce<K>(m: map<K, Flags>, k: K, o: StoreClose)
    requires k in m && m[k] == OPEN
    ensures Admit(m, k).Admitted? && Admit(Begin(m, k), k).Refused? && Begin(Begin(m, k), k) == Begin(m, k)
    ensures var after := Finish(Begin(m, k), k, o);
            if o.Panics? then Admit(after, k).WasPoisoned? && Begin(after, k) == m - {k}
            else Admit(after, k).Unknown? && after == m - {k}
    ensures forall j :: j in m && j != k ==> Begin(m, k)[j] == m[j]
  {
    var after := Finish(Begin(m, k), k, o);
    if o.Panics? {
      assert Begin(after, k) == m - {k};
    } else {
      assert after == m - {k};
    }
  }
}
