/** Writes of the Node binding's Store. Asynchronous mutations are chained on a
    promise; every write keeps a count of unsealed documents and seals the
    store before a write once the count has reached the threshold.

    The engine is nondeterministic: each native call may fail, and a failed
    call changes nothing. */
module WriteQueue {
  import opened Prelude

  /** `rows == 0` means auto-seal is off. */
  datatype Config = Config(rows: nat, merge: bool)

  /** The JavaScript counter beside the engine's true number of unsealed
      documents. */
  datatype Counts = Counts(counter: nat, unsealed: nat)

  datatype Outcome = Ok(report: nat) | Err(error: nat)

  // ----- synchronous operations

  /** What the engine answers during one synchronous call. A write counted as
      `count` leaves at most `count` more documents unsealed. */
  datatype Answers = Answers(seal: Outcome, merge: Outcome, write: Outcome, added: nat)

  /** `seal()`: the counter is reset only once seal and merge have succeeded. */
  function SealNow(cfg: Config, c: Counts, a: Answers): (Counts, Outcome) {
    if a.seal.Err? then (c, a.seal)
    else if !cfg.merge then (Counts(0, 0), a.seal)
    else if a.merge.Err? then (c.(unsealed := 0), a.merge)
    else (Counts(0, 0), a.merge)
  }

  predicate Due(cfg: Config, counter: nat) {
    cfg.rows > 0 && counter >= cfg.rows
  }

  /** `_write(count, write)`. */
  function WriteNow(cfg: Config, c: Counts, count: nat, a: Answers): (Counts, Outcome) {
    var (c1, sealed) := if Due(cfg, c.counter) then SealNow(cfg, c, a) else (c, Ok(0));
    if sealed.Err? then (c1, sealed)
    else if a.write.Err? then (c1, a.write)
    else (Counts(c1.counter + count, c1.unsealed + a.added), a.write)
  }

  /** `reindexText()`: the engine seals before it reindexes, and may still fail
      after that. */
  function ReindexNow(c: Counts, a: Answers): (Counts, Outcome) {
    if a.seal.Err? then (c, a.seal)
    else if a.write.Err? then (c.(unsealed := 0), a.write)
    else (Counts(0, 0), a.write)
  }

  /** Opening reads the migration report; with a policy it then seals once,
      otherwise the tail of `leftover` documents stays unsealed and uncounted. */
  function Attach(cfg: Config, leftover: nat, migrations: Outcome, a: Answers): Option<Counts> {
    if migrations.Err? then None
    else if cfg.rows == 0 && !cfg.merge then Some(Counts(0, leftover))
    else if a.seal.Err? || (cfg.merge && a.merge.Err?) then None
    else Some(Counts(0, 0))
  }

  /** The store object, with the methods that update its counter. */
  class Store {
    const cfg: Config
    var unsealedWrites: nat
    ghost var unsealed: nat

    ghost function Now(): Counts
      reads this
    {
      Counts(unsealedWrites, unsealed)
    }

    constructor (cfg: Config, ghost tail: nat)
      ensures this.cfg == cfg && Now() == Counts(0, tail)
    {
      this.cfg := cfg;
      unsealedWrites, unsealed := 0, tail;
    }

    /** `seal()`. */
    method Seal(a: Answers) returns (r: Outcome)
      modifies this
      // Success takes both calls, and only success resets the counter.
      ensures r.Ok? <==> a.seal.Ok? && (cfg.merge ==> a.merge.Ok?)
      ensures r.Ok? ==> unsealedWrites == 0 && unsealed == 0
      ensures r.Err? ==> unsealedWrites == old(unsealedWrites) && unsealed <= old(unsealed)
      ensures r == if cfg.merge && a.seal.Ok? then a.merge else a.seal
      ensures old(unsealed <= unsealedWrites) ==> unsealed <= unsealedWrites
      ensures (Now(), r) == SealNow(cfg, old(Now()), a)
    {
      if a.seal.Err? {
        return a.seal;
      }
      unsealed := 0;
      r := a.seal;
      if cfg.merge {
        if a.merge.Err? {
          return a.merge;
        }
        r := a.merge;
      }
      unsealedWrites := 0;
    }

    /** `_write(count, write)`. */
    method Write(count: nat, a: Answers) returns (r: Outcome)
      modifies this
      // A write at the threshold happens only behind a seal, and merge, that succeeded.
      ensures r.Ok? && old(Due(cfg, unsealedWrites)) ==>
                a.seal.Ok? && (cfg.merge ==> a.merge.Ok?) && Now() == Counts(count, a.added)
      ensures r.Ok? && !old(Due(cfg, unsealedWrites)) ==>
                unsealedWrites == old(unsealedWrites) + count && unsealed == old(unsealed) + a.added
      // The write's own outcome is reported whenever the engine was asked to write.
      ensures !old(Due(cfg, unsealedWrites)) || (a.seal.Ok? && (cfg.merge ==> a.merge.Ok?)) ==> r == a.write
      // An error reports a write that did not happen.
      ensures r.Err? ==> unsealed <= old(unsealed) && (unsealedWrites == old(unsealedWrites) || Now() == Counts(0, 0))
      ensures old(unsealed <= unsealedWrites) && a.added <= count ==> unsealed <= unsealedWrites
      ensures (Now(), r) == WriteNow(cfg, old(Now()), count, a)
    {
      if cfg.rows > 0 && unsealedWrites >= cfg.rows {
        var sealed := Seal(a);
        if sealed.Err? {
          return sealed;
        }
      }
      if a.write.Err? {
        return a.write;
      }
      unsealed := unsealed + a.added;
      unsealedWrites := unsealedWrites + count;
      r := a.write;
    }

    /** `deleteWhere(filter)`: the number deleted is known, and counted, only
        after the call. */
    method DeleteWhere(deleted: nat, a: Answers) returns (r: Outcome)
      modifies this
      ensures old(unsealed <= unsealedWrites) && a.added <= deleted ==> unsealed <= unsealedWrites
      ensures (Now(), r) == WriteNow(cfg, old(Now()), if r.Ok? then deleted else 0, a)
    {
      r := Write(0, a);
      if r.Ok? {
        unsealedWrites := unsealedWrites + deleted;
      }
    }

    /** `reindexText()`: the engine's own seal comes first, `a.seal`. */
    method ReindexText(a: Answers) returns (r: Outcome)
      modifies this
      ensures r.Ok? ==> unsealedWrites == 0 && unsealed == 0
      ensures r.Err? ==> unsealedWrites == old(unsealedWrites) && unsealed <= old(unsealed)
      ensures old(unsealed <= unsealedWrites) ==> unsealed <= unsealedWrites
      ensures (Now(), r) == ReindexNow(old(Now()), a)
    {
      if a.seal.Err? {
        return a.seal;
      }
      unsealed := 0;
      if a.write.Err? {
        return a.write;
      }
      unsealedWrites := 0;
      r := a.write;
    }
  }

  /** `attach`: a migration report, seal or merge that fails at open leaves no
      store. */
  method Open(cfg: Config, ghost leftover: nat, migrations: Outcome, a: Answers) returns (r: Option<Store>)
    ensures r.Some? <==> migrations.Ok? && (cfg.rows > 0 || cfg.merge ==> a.seal.Ok?) && (cfg.merge ==> a.merge.Ok?)
    ensures r.Some? ==> fresh(r.value) && r.value.cfg == cfg && Attach(cfg, leftover, migrations, a) == Some(r.value.Now())
    ensures r.Some? && cfg.rows > 0 ==> r.value.Now() == Counts(0, 0)
    ensures r.None? ==> Attach(cfg, leftover, migrations, a) == None
  {
    if migrations.Err? || ((cfg.rows > 0 || cfg.merge) && a.seal.Err?) || (cfg.merge && a.merge.Err?) {
      return None;
    }
    var store := new Store(cfg, if cfg.rows > 0 || cfg.merge then 0 else leftover);
    r := Some(store);
  }

  /** The counter is an upper bound, and a write that reports an error has left
      the engine without its documents. */
  lemma SyncWriteKeepsBound(cfg: Config, c: Counts, count: nat, a: Answers)
    requires c.unsealed <= c.counter && a.added <= count
    ensures var (c', r) := WriteNow(cfg, c, count, a);
            && c'.unsealed <= c'.counter
            && (r.Err? ==> c'.unsealed <= c.unsealed)
            && (r.Ok? && cfg.rows > 0 ==> c'.unsealed < cfg.rows + count)
  {
  }

  // ----- asynchronous mutations

  datatype Kind = Upsert(count: nat) | Seal | Merge | Other

  datatype Call = SealCall | MergeCall | WriteCall | OtherCall

  /** How far the function passed to `_queueWrite` has come. */
  datatype Phase =
    | Waiting
    | Calling(call: Call)
    | Answered(call: Call, outcome: Outcome)
    | Finished

  datatype Promise = Pending | Settled(outcome: Outcome)

  /** One `_queueWrite`. `after` is the promise found in `_asyncWrites`:
      another job's swallowed result, or nothing on a fresh store. `asked` and
      `replies` are the native calls it has made and their answers. */
  datatype Job = Job(
    kind: Kind,
    after: Option<nat>,
    phase: Phase,
    result: Promise,
    tail: Promise,
    caller: Promise,
    asked: seq<Call>,
    replies: seq<Outcome>,
    wrote: bool)

  datatype State = State(
    counts: Counts,
    asyncWrites: Option<nat>,
    jobs: seq<Job>,
    starts: seq<nat>)

  function FirstCall(cfg: Config, kind: Kind, counter: nat): Call {
    match kind
    case Upsert(_) => if Due(cfg, counter) then SealCall else WriteCall
    case Seal => SealCall
    case Merge => MergeCall
    case Other => OtherCall
  }

  function Ask(j: Job, call: Call): Job {
    j.(phase := Calling(call), asked := j.asked + [call])
  }

  function Finish(j: Job, o: Outcome): Job {
    j.(phase := Finished, result := Settled(o))
  }

  /** The continuation after an `await`: the job and the counter it leaves. */
  function Resume(cfg: Config, j: Job, counter: nat): (Job, nat)
    requires j.phase.Answered?
  {
    var o := j.phase.outcome;
    if o.Err? || j.kind.Merge? || j.kind.Other? then (Finish(j, o), counter)
    else
      match j.phase.call
      case WriteCall => (Finish(j, o), counter + if j.kind.Upsert? then j.kind.count else 0)
      case SealCall =>
        if cfg.merge then (Ask(j, MergeCall), counter)
        else if j.kind.Upsert? then (Ask(j, WriteCall), 0)
        else (Finish(j, o), 0)
      case MergeCall => if j.kind.Upsert? then (Ask(j, WriteCall), 0) else (Finish(j, o), 0)
      case OtherCall => (Finish(j, o), counter)
  }

  datatype Step =
    | Submit(kind: Kind)
    | Start(i: nat)
    | Answer(i: nat, outcome: Outcome, added: nat)
    | Continue(i: nat)
    | SettleTail(i: nat)
    | SettleCaller(i: nat)
    | SyncWrite(count: nat, answers: Answers)
    | SyncSeal(answers: Answers)
    | SyncReindex(answers: Answers)

  /** A job between its seal and the reset of the counter that follows. */
  predicate HasSealed(j: Job) {
    (j.kind.Upsert? || j.kind.Seal?) &&
    match j.phase
    case Answered(SealCall, o) => o.Ok?
    case Calling(MergeCall) => true
    case Answered(MergeCall, o) => o.Ok?
    case _ => false
  }

  /** No job is in that window. */
  predicate Quiet(s: State) {
    forall i :: 0 <= i < |s.jobs| ==> !HasSealed(s.jobs[i])
  }

  /** What a caller can see of it: every asynchronous mutation was awaited. */
  predicate Idle(s: State) {
    forall i :: 0 <= i < |s.jobs| ==> s.jobs[i].result.Settled?
  }

  predicate Enabled(s: State, step: Step) {
    match step
    case Submit(_) => true
    case Start(i) =>
      i < |s.jobs| && s.jobs[i].phase.Waiting?
      && (s.jobs[i].after.None? || (s.jobs[i].after.value < |s.jobs| && s.jobs[s.jobs[i].after.value].tail.Settled?))
    case Answer(i, _, added) =>
      i < |s.jobs| && s.jobs[i].phase.Calling? && (s.jobs[i].kind.Upsert? ==> added <= s.jobs[i].kind.count)
    case Continue(i) => i < |s.jobs| && s.jobs[i].phase.Answered?
    case SettleTail(i) => i < |s.jobs| && s.jobs[i].result.Settled? && s.jobs[i].tail.Pending?
    case SettleCaller(i) => i < |s.jobs| && s.jobs[i].result.Settled? && s.jobs[i].caller.Pending?
    case SyncWrite(count, a) => Quiet(s) && a.added <= count
    case SyncSeal(_) => true
    case SyncReindex(_) => true
  }

  /** `.then(run)`: a fulfilled predecessor calls `run`; a rejected one would
      hand its own error on without calling it. */
  function StartJob(cfg: Config, s: State, i: nat): State
    requires Enabled(s, Start(i))
  {
    var j := s.jobs[i];
    if j.after.Some? && s.jobs[j.after.value].tail.outcome.Err?
    then s.(jobs := s.jobs[i := Finish(j, s.jobs[j.after.value].tail.outcome)])
    else s.(jobs := s.jobs[i := Ask(j, FirstCall(cfg, j.kind, s.counts.counter))], starts := s.starts + [i])
  }

  function AnswerJob(s: State, i: nat, o: Outcome, added: nat): State
    requires Enabled(s, Answer(i, o, added))
  {
    var j := s.jobs[i];
    var call := j.phase.call;
    var wrote := call.WriteCall? && o.Ok?;
    var unsealed :=
      if o.Err? then s.counts.unsealed
      else if call.SealCall? then 0
      else if call.WriteCall? then s.counts.unsealed + added
      else s.counts.unsealed;
    s.(jobs := s.jobs[i := j.(phase := Answered(call, o), replies := j.replies + [o], wrote := j.wrote || wrote)],
       counts := s.counts.(unsealed := unsealed))
  }

  function Next(cfg: Config, s: State, step: Step): State
    requires Enabled(s, step)
  {
    match step
    case Submit(kind) =>
      s.(jobs := s.jobs + [Job(kind, s.asyncWrites, Waiting, Pending, Pending, Pending, [], [], false)],
         asyncWrites := Some(|s.jobs|))
    case Start(i) => StartJob(cfg, s, i)
    case Answer(i, o, added) => AnswerJob(s, i, o, added)
    case Continue(i) =>
      var (j, counter) := Resume(cfg, s.jobs[i], s.counts.counter);
      s.(jobs := s.jobs[i := j], counts := s.counts.(counter := counter))
    // `result.catch(() => {})` fulfils whatever happened.
    case SettleTail(i) => s.(jobs := s.jobs[i := s.jobs[i].(tail := Settled(Ok(0)))])
    case SettleCaller(i) => s.(jobs := s.jobs[i := s.jobs[i].(caller := s.jobs[i].result)])
    case SyncWrite(count, a) => s.(counts := WriteNow(cfg, s.counts, count, a).0)
    case SyncSeal(a) => s.(counts := SealNow(cfg, s.counts, a).0)
    case SyncReindex(a) => s.(counts := ReindexNow(s.counts, a).0)
  }

  // ----- the invariant

  /** A job's own bookkeeping. */
  predicate JobOk(cfg: Config, j: Job) {
    && (j.result.Settled? <==> j.phase.Finished?)
    && (j.tail.Settled? ==> j.tail.outcome.Ok? && j.phase.Finished?)
    && (j.caller.Settled? ==> j.phase.Finished? && j.caller == j.result)
    && (j.phase.Waiting? ==> j.replies == [])
    && (j.phase.Calling? ==> forall k :: 0 <= k < |j.replies| ==> j.replies[k].Ok?)
    && (!j.phase.Calling? && !j.phase.Waiting? ==>
          |j.replies| > 0 && forall k :: 0 <= k < |j.replies| - 1 ==> j.replies[k].Ok?)
    && (j.phase.Answered? ==> j.replies[|j.replies| - 1] == j.phase.outcome)
    && (j.phase.Finished? ==> j.result == Settled(j.replies[|j.replies| - 1]))
    && (j.kind.Upsert? && j.phase.Finished? ==> (j.wrote <==> j.result.outcome.Ok?))
    && (j.wrote ==> (j.phase.Finished? && j.result.outcome.Ok?) || (j.phase.Answered? && j.phase.call.WriteCall? && j.phase.outcome.Ok?))
    && (j.phase.Answered? && j.phase.call.WriteCall? && j.phase.outcome.Ok? ==> j.wrote)
    && CallFits(cfg, j)
  }

  /** Which native call a job of each kind can be making. */
  predicate CallFits(cfg: Config, j: Job) {
    (j.phase.Calling? || j.phase.Answered?) ==>
      match j.kind
      case Upsert(_) => j.phase.call.SealCall? || j.phase.call.WriteCall? || (j.phase.call.MergeCall? && cfg.merge)
      case Seal => j.phase.call.SealCall? || (j.phase.call.MergeCall? && cfg.merge)
      case Merge => j.phase.call.MergeCall?
      case Other => j.phase.call.OtherCall?
  }

  predicate Chained(s: State, i: nat)
    requires i < |s.jobs|
  {
    s.jobs[i].after == if i == 0 then None else Some(i - 1)
  }

  /** Jobs finish in order, at most one runs, and the rest wait. */
  predicate Ordered(s: State) {
    && s.asyncWrites == (if s.jobs == [] then None else Some(|s.jobs| - 1))
    && (forall i :: 0 <= i < |s.jobs| ==> Chained(s, i))
    && (forall i, j :: 0 <= i < j < |s.jobs| && !s.jobs[j].phase.Waiting? ==> s.jobs[i].phase.Finished?)
    && |s.starts| <= |s.jobs|
    && (forall i :: 0 <= i < |s.starts| ==> s.starts[i] == i)
    && (forall i :: 0 <= i < |s.jobs| ==> (i < |s.starts| <==> !s.jobs[i].phase.Waiting?))
  }

  /** Documents written by the engine whose count has not been added yet. */
  function Uncounted(j: Job): nat {
    if j.phase.Answered? && j.phase.call.WriteCall? && j.phase.outcome.Ok? && j.kind.Upsert? then j.kind.count else 0
  }

  /** The counter bounds what is unsealed, up to the documents of a write whose
      reply is on its way. */
  predicate Bounded(s: State) {
    s.counts.unsealed <= s.counts.counter
    || exists i :: 0 <= i < |s.jobs| && s.counts.unsealed <= s.counts.counter + Uncounted(s.jobs[i])
  }

  predicate Counted(cfg: Config, s: State) {
    && (forall i :: 0 <= i < |s.jobs| && HasSealed(s.jobs[i]) ==> s.counts.unsealed == 0)
    && (cfg.rows > 0 ==> Bounded(s))
  }

  predicate Inv(cfg: Config, s: State) {
    Ordered(s) && (forall i :: 0 <= i < |s.jobs| ==> JobOk(cfg, s.jobs[i])) && Counted(cfg, s)
  }

  predicate Initial(cfg: Config, s: State, leftover: nat, a: Answers) {
    && Attach(cfg, leftover, Ok(0), a).Some?
    && s == State(Attach(cfg, leftover, Ok(0), a).value, None, [], [])
  }

  /** While one job runs, every earlier one has finished and every later one
      is waiting. */
  lemma OneRunsAtATime(cfg: Config, s: State, i: nat, j: nat)
    requires Inv(cfg, s) && i < |s.jobs| && j < |s.jobs| && i != j
    requires s.jobs[i].phase.Calling? || s.jobs[i].phase.Answered?
    ensures if j < i then s.jobs[j].phase.Finished? else s.jobs[j].phase.Waiting?
  {
  }

  // ----- every step keeps the invariant

  lemma InitialKeeps(cfg: Config, s: State, leftover: nat, a: Answers)
    requires Initial(cfg, s, leftover, a)
    ensures Inv(cfg, s)
  {
  }

  lemma SubmitKeeps(cfg: Config, s: State, kind: Kind)
    requires Inv(cfg, s)
    ensures Inv(cfg, Next(cfg, s, Submit(kind)))
  {
    var s' := Next(cfg, s, Submit(kind));
    forall i | 0 <= i < |s'.jobs|
      ensures Chained(s', i) && JobOk(cfg, s'.jobs[i])
    {
      if i < |s.jobs| {
        assert s'.jobs[i] == s.jobs[i] && Chained(s, i);
      }
    }
    if cfg.rows > 0 && s.counts.unsealed > s.counts.counter {
      var i :| 0 <= i < |s.jobs| && s.counts.unsealed <= s.counts.counter + Uncounted(s.jobs[i]);
      assert s'.jobs[i] == s.jobs[i];
    }
  }

  /** A started job may move on without upsetting the order. */
  lemma MoveKeepsOrder(s: State, s': State, i: nat, j: Job)
    requires Ordered(s) && i < |s.jobs| && s'.jobs == s.jobs[i := j]
    requires s'.asyncWrites == s.asyncWrites && s'.starts == s.starts && j.after == s.jobs[i].after
    requires !s.jobs[i].phase.Waiting? && !j.phase.Waiting?
    requires s.jobs[i].phase.Finished? ==> j.phase.Finished?
    ensures Ordered(s')
  {
    forall k | 0 <= k < |s'.jobs|
      ensures Chained(s', k)
    {
      assert Chained(s, k);
    }
  }

  lemma PredecessorsFinished(cfg: Config, s: State, i: nat)
    requires Inv(cfg, s) && Enabled(s, Start(i))
    ensures forall k :: 0 <= k < i ==> s.jobs[k].phase.Finished?
    ensures s.jobs[i].after.Some? ==> s.jobs[s.jobs[i].after.value].tail.outcome.Ok?
    ensures |s.starts| == i
  {
    assert Chained(s, i);
    if i > 0 {
      assert JobOk(cfg, s.jobs[i - 1]);
      assert s.jobs[i - 1].phase.Finished?;
    }
    if i > 0 {
      assert i - 1 < |s.starts|;
    }
  }

  lemma StartKeeps(cfg: Config, s: State, i: nat)
    requires Inv(cfg, s) && Enabled(s, Start(i))
    ensures Inv(cfg, Next(cfg, s, Start(i)))
    ensures Next(cfg, s, Start(i)).starts == s.starts + [i]
  {
    PredecessorsFinished(cfg, s, i);
    var s' := Next(cfg, s, Start(i));
    assert JobOk(cfg, s.jobs[i]);
    assert JobOk(cfg, s'.jobs[i]);
    forall k | 0 <= k < |s'.jobs|
      ensures Chained(s', k)
    {
      assert Chained(s, k);
    }
    assert forall k :: i < k < |s.jobs| ==> s.jobs[k].phase.Waiting?;
    assert forall k :: 0 <= k < |s.jobs| ==> Uncounted(s.jobs[k]) == 0;
  }

  lemma OnlyRunnerIsUncounted(cfg: Config, s: State, i: nat)
    requires Inv(cfg, s) && i < |s.jobs| && (s.jobs[i].phase.Calling? || s.jobs[i].phase.Answered?)
    ensures forall k :: 0 <= k < |s.jobs| && k != i ==> Uncounted(s.jobs[k]) == 0 && !HasSealed(s.jobs[k])
  {
    forall k | 0 <= k < |s.jobs| && k != i
      ensures Uncounted(s.jobs[k]) == 0 && !HasSealed(s.jobs[k])
    {
      OneRunsAtATime(cfg, s, i, k);
    }
  }

  lemma AnswerKeeps(cfg: Config, s: State, i: nat, o: Outcome, added: nat)
    requires Inv(cfg, s) && Enabled(s, Answer(i, o, added))
    ensures Inv(cfg, Next(cfg, s, Answer(i, o, added)))
  {
    var s' := Next(cfg, s, Answer(i, o, added));
    assert JobOk(cfg, s.jobs[i]);
    MoveKeepsOrder(s, s', i, s'.jobs[i]);
    OnlyRunnerIsUncounted(cfg, s, i);
    assert JobOk(cfg, s'.jobs[i]);
    assert cfg.rows > 0 ==> s.counts.unsealed <= s.counts.counter;
    assert cfg.rows > 0 ==> s'.counts.unsealed <= s'.counts.counter + Uncounted(s'.jobs[i]);
  }

  lemma ContinueKeepsJob(cfg: Config, j: Job, counter: nat)
    requires JobOk(cfg, j) && j.phase.Answered?
    ensures JobOk(cfg, Resume(cfg, j, counter).0)
  {
  }

  lemma ContinueKeeps(cfg: Config, s: State, i: nat)
    requires Inv(cfg, s) && Enabled(s, Continue(i))
    ensures Inv(cfg, Next(cfg, s, Continue(i)))
  {
    var s' := Next(cfg, s, Continue(i));
    assert JobOk(cfg, s.jobs[i]);
    ContinueKeepsJob(cfg, s.jobs[i], s.counts.counter);
    MoveKeepsOrder(s, s', i, s'.jobs[i]);
    OnlyRunnerIsUncounted(cfg, s, i);
    ContinueCounts(cfg, s, i);
  }

  lemma ContinueCounts(cfg: Config, s: State, i: nat)
    requires Inv(cfg, s) && Enabled(s, Continue(i))
    requires forall k :: 0 <= k < |s.jobs| && k != i ==> Uncounted(s.jobs[k]) == 0 && !HasSealed(s.jobs[k])
    ensures Counted(cfg, Next(cfg, s, Continue(i)))
  {
    var s' := Next(cfg, s, Continue(i));
    var j, j' := s.jobs[i], s'.jobs[i];
    assert JobOk(cfg, j) && CallFits(cfg, j);
    assert HasSealed(j') ==> HasSealed(j);
    if cfg.rows > 0 {
      assert s.counts.unsealed <= s.counts.counter + Uncounted(j);
      assert s'.counts.unsealed <= s'.counts.counter;
    }
  }

  lemma SettleKeeps(cfg: Config, s: State, step: Step)
    requires Inv(cfg, s) && Enabled(s, step) && (step.SettleTail? || step.SettleCaller?)
    ensures Inv(cfg, Next(cfg, s, step))
  {
    var s' := Next(cfg, s, step);
    assert JobOk(cfg, s.jobs[step.i]);
    assert JobOk(cfg, s'.jobs[step.i]);
    MoveKeepsOrder(s, s', step.i, s'.jobs[step.i]);
    if cfg.rows > 0 && s.counts.unsealed > s.counts.counter {
      var k :| 0 <= k < |s.jobs| && s.counts.unsealed <= s.counts.counter + Uncounted(s.jobs[k]);
      assert Uncounted(s'.jobs[k]) == Uncounted(s.jobs[k]);
    }
  }

  /** A synchronous write, seal or reindexing between the steps of the queue. */
  lemma SyncKeeps(cfg: Config, s: State, step: Step)
    requires Inv(cfg, s) && Enabled(s, step) && (step.SyncWrite? || step.SyncSeal? || step.SyncReindex?)
    ensures Inv(cfg, Next(cfg, s, step))
  {
    var s' := Next(cfg, s, step);
    assert s'.jobs == s.jobs;
    forall k | 0 <= k < |s.jobs|
      ensures Chained(s', k)
    {
      assert Chained(s, k);
    }
    assert cfg.rows > 0 ==> Bounded(s') by {
      if s.counts.unsealed > s.counts.counter && cfg.rows > 0 {
        var i :| 0 <= i < |s.jobs| && s.counts.unsealed <= s.counts.counter + Uncounted(s.jobs[i]);
        assert s'.counts.unsealed <= s'.counts.counter + Uncounted(s'.jobs[i]);
      }
    }
  }

  /** Awaiting every mutation is enough. */
  lemma IdleIsQuiet(cfg: Config, s: State)
    requires Inv(cfg, s) && Idle(s)
    ensures Quiet(s)
  {
    forall i | 0 <= i < |s.jobs|
      ensures !HasSealed(s.jobs[i])
    {
      assert JobOk(cfg, s.jobs[i]);
    }
  }

  lemma StepKeeps(cfg: Config, s: State, step: Step)
    requires Inv(cfg, s) && Enabled(s, step)
    ensures Inv(cfg, Next(cfg, s, step))
  {
    match step {
      case Submit(kind) => SubmitKeeps(cfg, s, kind);
      case Start(i) => StartKeeps(cfg, s, i);
      case Answer(i, o, added) => AnswerKeeps(cfg, s, i, o, added);
      case Continue(i) => ContinueKeeps(cfg, s, i);
      case SettleTail(_) => SettleKeeps(cfg, s, step);
      case SettleCaller(_) => SettleKeeps(cfg, s, step);
      case SyncWrite(_, _) => SyncKeeps(cfg, s, step);
      case SyncSeal(_) => SyncKeeps(cfg, s, step);
      case SyncReindex(_) => SyncKeeps(cfg, s, step);
    }
  }

  // ----- whole runs

  ghost predicate IsRun(cfg: Config, states: seq<State>, steps: seq<Step>) {
    && |states| == |steps| + 1
    && forall n :: 0 <= n < |steps| ==> Enabled(states[n], steps[n]) && states[n + 1] == Next(cfg, states[n], steps[n])
  }

  /** Every state of every run from an opened store satisfies the invariant. */
  lemma {:induction false} RunKeeps(cfg: Config, states: seq<State>, steps: seq<Step>, leftover: nat, a: Answers, n: nat)
    requires IsRun(cfg, states, steps) && Initial(cfg, states[0], leftover, a) && n < |states|
    ensures Inv(cfg, states[n])
    decreases n
  {
    if n == 0 {
      InitialKeeps(cfg, states[0], leftover, a);
    } else {
      RunKeeps(cfg, states, steps, leftover, a, n - 1);
      StepKeeps(cfg, states[n - 1], steps[n - 1]);
    }
  }

  /** Mutations run one at a time in submission order: the runs started so far
      are those of the first jobs, in order, and a job starts only when all
      earlier ones have settled. */
  lemma RunsInSubmissionOrder(cfg: Config, states: seq<State>, steps: seq<Step>, leftover: nat, a: Answers, n: nat)
    requires IsRun(cfg, states, steps) && Initial(cfg, states[0], leftover, a) && n < |steps| && steps[n].Start?
    ensures steps[n].i == |states[n].starts| && states[n + 1].starts == states[n].starts + [steps[n].i]
    ensures forall k :: 0 <= k < steps[n].i ==> states[n].jobs[k].result.Settled?
    ensures forall k :: 0 <= k < |states[n].jobs| ==> !states[n].jobs[k].phase.Calling? && !states[n].jobs[k].phase.Answered?
  {
    RunKeeps(cfg, states, steps, leftover, a, n);
    var s, i := states[n], steps[n].i;
    PredecessorsFinished(cfg, s, i);
    StartKeeps(cfg, s, i);
    forall k | 0 <= k < |s.jobs|
      ensures k < i ==> s.jobs[k].result.Settled?
      ensures !s.jobs[k].phase.Calling? && !s.jobs[k].phase.Answered?
    {
      assert JobOk(cfg, s.jobs[k]);
    }
  }

  /** No failure skips or fails a later job, and each caller gets the outcome
      of its own native calls; an upsert reports success exactly when its
      documents were written. */
  lemma CallersGetTheirOwnOutcome(cfg: Config, states: seq<State>, steps: seq<Step>, leftover: nat, a: Answers, n: nat, i: nat)
    requires IsRun(cfg, states, steps) && Initial(cfg, states[0], leftover, a) && n < |states|
    requires i < |states[n].jobs| && states[n].jobs[i].result.Settled?
    ensures var j := states[n].jobs[i];
            && i in states[n].starts
            && j.replies != [] && j.result == Settled(j.replies[|j.replies| - 1])
            && (forall k :: 0 <= k < |j.replies| - 1 ==> j.replies[k].Ok?)
            && (j.caller.Settled? ==> j.caller == j.result)
            && (j.kind.Upsert? ==> (j.result.outcome.Ok? <==> j.wrote))
  {
    RunKeeps(cfg, states, steps, leftover, a, n);
    var s := states[n];
    assert JobOk(cfg, s.jobs[i]);
    assert i < |s.starts| && s.starts[i] == i;
  }

  /** With auto-seal on, the counter is never below the unsealed documents, but
      for a write whose reply is still on its way. */
  lemma CounterNeverBelow(cfg: Config, states: seq<State>, steps: seq<Step>, leftover: nat, a: Answers, n: nat)
    requires IsRun(cfg, states, steps) && Initial(cfg, states[0], leftover, a) && n < |states| && cfg.rows > 0
    ensures var s := states[n];
            && ((forall i :: 0 <= i < |s.jobs| ==> Uncounted(s.jobs[i]) == 0) ==> s.counts.unsealed <= s.counts.counter)
            && (forall i :: 0 <= i < |s.jobs| ==> s.counts.unsealed <= s.counts.counter + Uncounted(s.jobs[i])
                                                  || Uncounted(s.jobs[i]) == 0)
  {
    RunKeeps(cfg, states, steps, leftover, a, n);
    var s := states[n];
    forall i | 0 <= i < |s.jobs| && (s.jobs[i].phase.Calling? || s.jobs[i].phase.Answered?)
      ensures s.counts.unsealed <= s.counts.counter + Uncounted(s.jobs[i])
    {
      OnlyRunnerIsUncounted(cfg, s, i);
    }
  }

  /** When a job asks the engine to write, counter and unsealed documents are
      below the threshold. */
  lemma WritesStartBelowThreshold(cfg: Config, states: seq<State>, steps: seq<Step>, leftover: nat, a: Answers, n: nat, i: nat)
    requires IsRun(cfg, states, steps) && Initial(cfg, states[0], leftover, a) && n < |steps| && cfg.rows > 0
    requires i < |states[n + 1].jobs| && states[n + 1].jobs[i].phase == Calling(WriteCall)
    requires i < |states[n].jobs| ==> states[n].jobs[i].phase != Calling(WriteCall)
    ensures states[n + 1].counts.unsealed <= states[n + 1].counts.counter < cfg.rows
  {
    RunKeeps(cfg, states, steps, leftover, a, n);
    RunKeeps(cfg, states, steps, leftover, a, n + 1);
    var s, s' := states[n], states[n + 1];
    assert steps[n] == Start(i) || steps[n] == Continue(i);
    assert JobOk(cfg, s.jobs[i]) && CallFits(cfg, s.jobs[i]);
    OnlyRunnerIsUncounted(cfg, s', i);
  }

  // ----- progress

  function Rank(p: Phase): nat {
    match p
    case Waiting => 7
    case Calling(SealCall) => 6
    case Answered(SealCall, _) => 5
    case Calling(MergeCall) => 4
    case Answered(MergeCall, _) => 3
    case Calling(_) => 2
    case Answered(_, _) => 1
    case Finished => 0
  }

  function Left(j: Job): nat {
    Rank(j.phase) + (if j.tail.Pending? then 1 else 0) + (if j.caller.Pending? then 1 else 0)
  }

  function Work(jobs: seq<Job>): nat {
    if jobs == [] then 0 else Work(jobs[..|jobs| - 1]) + Left(jobs[|jobs| - 1])
  }

  lemma {:induction false} WorkUpdate(jobs: seq<Job>, i: nat, j: Job)
    requires i < |jobs|
    ensures Work(jobs[i := j]) == Work(jobs) - Left(jobs[i]) + Left(j)
    decreases |jobs|
  {
    var init := jobs[..|jobs| - 1];
    if i < |init| {
      WorkUpdate(init, i, j);
      assert jobs[i := j][..|jobs| - 1] == init[i := j];
    } else {
      assert jobs[i := j][..|jobs| - 1] == init;
    }
  }

  predicate OwnStep(step: Step) {
    step.Start? || step.Answer? || step.Continue? || step.SettleTail? || step.SettleCaller?
  }

  lemma ResumeUsesUpWork(cfg: Config, j: Job, counter: nat)
    requires JobOk(cfg, j) && j.phase.Answered?
    ensures Left(Resume(cfg, j, counter).0) < Left(j)
  {
  }

  lemma JobUsesUpWork(cfg: Config, s: State, step: Step)
    requires Inv(cfg, s) && Enabled(s, step) && OwnStep(step)
    ensures var s' := Next(cfg, s, step);
            s'.jobs == s.jobs[step.i := s'.jobs[step.i]] && Left(s'.jobs[step.i]) < Left(s.jobs[step.i])
  {
    assert JobOk(cfg, s.jobs[step.i]);
    if step.Continue? {
      ResumeUsesUpWork(cfg, s.jobs[step.i], s.counts.counter);
    }
  }

  /** Every step of the queue itself uses up work, so finitely many suffice. */
  lemma QueueStepsUseUpWork(cfg: Config, s: State, step: Step)
    requires Inv(cfg, s) && Enabled(s, step) && OwnStep(step)
    ensures Work(Next(cfg, s, step).jobs) < Work(s.jobs)
  {
    JobUsesUpWork(cfg, s, step);
    WorkUpdate(s.jobs, step.i, Next(cfg, s, step).jobs[step.i]);
  }

  /** As long as a caller is waiting, some step of the queue can be taken. */
  lemma NeverStuck(cfg: Config, s: State, i: nat) returns (step: Step)
    requires Inv(cfg, s) && i < |s.jobs| && s.jobs[i].caller.Pending?
    ensures OwnStep(step) && Enabled(s, step)
    decreases i
  {
    var j := s.jobs[i];
    assert JobOk(cfg, j) && Chained(s, i);
    match j.phase {
      case Calling(_) => step := Answer(i, Ok(0), 0);
      case Answered(_, _) => step := Continue(i);
      case Finished => step := SettleCaller(i);
      case Waiting =>
        if i == 0 || s.jobs[i - 1].tail.Settled? {
          step := Start(i);
        } else if s.jobs[i - 1].result.Settled? {
          step := SettleTail(i - 1);
        } else {
          assert JobOk(cfg, s.jobs[i - 1]);
          step := NeverStuck(cfg, s, i - 1);
        }
    }
  }

  // ----- when a synchronous write is safe

  function SyncWritten(cfg: Config, s: State, count: nat, a: Answers): State {
    s.(counts := WriteNow(cfg, s.counts, count, a).0)
  }

  /** The bound holds whatever happens from here on. */
  ghost predicate StaysBounded(cfg: Config, s: State) {
    forall states, steps :: IsRun(cfg, states, steps) && states[0] == s ==> Bounded(states[|states| - 1])
  }

  lemma {:induction false} RunFromKeeps(cfg: Config, states: seq<State>, steps: seq<Step>, n: nat)
    requires IsRun(cfg, states, steps) && Inv(cfg, states[0]) && n < |states|
    ensures Inv(cfg, states[n])
    decreases n
  {
    if n > 0 {
      RunFromKeeps(cfg, states, steps, n - 1);
      StepKeeps(cfg, states[n - 1], steps[n - 1]);
    }
  }

  /** A write of `count` documents made in the window is lost to the counter: the
      job goes on to reset it while all of them are unsealed. */
  lemma WriteInWindowIsLost(cfg: Config, s: State, i: nat, count: nat)
    returns (states: seq<State>, steps: seq<Step>)
    requires Inv(cfg, s) && i < |s.jobs| && HasSealed(s.jobs[i]) && cfg.rows > 0
    ensures IsRun(cfg, states, steps) && (forall k :: 0 <= k < |steps| ==> OwnStep(steps[k]))
    ensures states[0] == SyncWritten(cfg, s, count, Answers(Ok(0), Ok(0), Ok(0), count))
    ensures var last := states[|states| - 1];
            last.counts == Counts(0, count) && forall k :: 0 <= k < |last.jobs| ==> Uncounted(last.jobs[k]) == 0
  {
    var s0 := SyncWritten(cfg, s, count, Answers(Ok(0), Ok(0), Ok(0), count));
    assert s0.counts.unsealed == count;
    OnlyRunnerIsUncounted(cfg, s, i);
    assert JobOk(cfg, s.jobs[i]) && CallFits(cfg, s.jobs[i]);
    states, steps := ResetRun(cfg, s0, i);
  }

  lemma ResetRun(cfg: Config, s: State, i: nat) returns (states: seq<State>, steps: seq<Step>)
    requires i < |s.jobs| && HasSealed(s.jobs[i]) && (s.jobs[i].phase.call.MergeCall? ==> cfg.merge)
    ensures IsRun(cfg, states, steps) && states[0] == s && forall k :: 0 <= k < |steps| ==> OwnStep(steps[k])
    ensures var last := states[|states| - 1];
            && last.counts == Counts(0, s.counts.unsealed) && |last.jobs| == |s.jobs|
            && (forall k :: 0 <= k < |s.jobs| && k != i ==> last.jobs[k] == s.jobs[k])
            && Uncounted(last.jobs[i]) == 0
    decreases if s.jobs[i].phase.call.SealCall? then 2 else if s.jobs[i].phase.Calling? then 1 else 0
  {
    var j := s.jobs[i];
    var step := if j.phase.Calling? then Answer(i, Ok(0), 0) else Continue(i);
    var s1 := Next(cfg, s, step);
    if j.phase.Calling? || (j.phase.call.SealCall? && cfg.merge) {
      assert HasSealed(s1.jobs[i]);
      var rest, more := ResetRun(cfg, s1, i);
      states, steps := [s] + rest, [step] + more;
    } else {
      states, steps := [s, s1], [step];
    }
  }

  /** A synchronous write of some documents leaves the counter an upper bound for
      good, whatever the engine answers, if and only if no job is between its
      seal and the reset of the counter. */
  lemma SyncWriteSafeIffQuiet(cfg: Config, s: State, count: nat)
    requires Inv(cfg, s) && cfg.rows > 0 && count > 0
    ensures (forall a: Answers :: a.added <= count ==> StaysBounded(cfg, SyncWritten(cfg, s, count, a))) <==> Quiet(s)
  {
    if Quiet(s) {
      forall a: Answers | a.added <= count
        ensures StaysBounded(cfg, SyncWritten(cfg, s, count, a))
      {
        SyncKeeps(cfg, s, SyncWrite(count, a));
        forall states, steps | IsRun(cfg, states, steps) && states[0] == SyncWritten(cfg, s, count, a)
          ensures Bounded(states[|states| - 1])
        {
          RunFromKeeps(cfg, states, steps, |states| - 1);
        }
      }
    } else {
      var i :| 0 <= i < |s.jobs| && HasSealed(s.jobs[i]);
      var states, steps := WriteInWindowIsLost(cfg, s, i, count);
      assert !Bounded(states[|states| - 1]);
      assert !StaysBounded(cfg, SyncWritten(cfg, s, count, Answers(Ok(0), Ok(0), Ok(0), count)));
    }
  }

  /** The window is entered, with or without auto-merge: ten documents are
      written, an upsert is queued and starts, and its seal succeeds. */
  lemma WindowArises(merge: bool) returns (states: seq<State>)
    ensures var a := Answers(Ok(0), Ok(0), Ok(0), 10);
            && IsRun(Config(10, merge), states, [SyncWrite(10, a), Submit(Upsert(1)), Start(0), Answer(0, Ok(0), 0)])
            && Initial(Config(10, merge), states[0], 0, a)
    ensures !Quiet(states[4])
  {
    var cfg, a := Config(10, merge), Answers(Ok(0), Ok(0), Ok(0), 10);
    var s0 := State(Counts(0, 0), None, [], []);
    var s1 := Next(cfg, s0, SyncWrite(10, a));
    var s2 := Next(cfg, s1, Submit(Upsert(1)));
    var s3 := Next(cfg, s2, Start(0));
    var s4 := Next(cfg, s3, Answer(0, Ok(0), 0));
    states := [s0, s1, s2, s3, s4];
    assert HasSealed(s4.jobs[0]);
  }
}
