/** What a run of `WriteQueue` asks the engine for and what it counts, stated
    over runs and without the functions that define the steps. */
module WriteQueueLaws {
  import opened Prelude
  import opened WriteQueue

  // ----- the native calls of a job

  /** The calls of an upsert that seals first. */
  function SealThenWrite(cfg: Config): seq<Call> {
    if cfg.merge then [SealCall, MergeCall, WriteCall] else [SealCall, WriteCall]
  }

  /** The calls a job makes when all of them succeed; `full` says whether an
      upsert found the counter at the threshold. */
  function Script(cfg: Config, kind: Kind, full: bool): seq<Call> {
    match kind
    case Upsert(_) => if full then SealThenWrite(cfg) else [WriteCall]
    case Seal => if cfg.merge then [SealCall, MergeCall] else [SealCall]
    case Merge => [MergeCall]
    case Other => [OtherCall]
  }

  /** A job follows its script: one reply per call but for the one in flight, and
      success only at the end. */
  predicate Follows(j: Job, script: seq<Call>) {
    && j.asked <= script
    && (j.phase.Waiting? <==> j.asked == [])
    && |j.replies| == |j.asked| - (if j.phase.Calling? then 1 else 0)
    && (j.phase.Calling? || j.phase.Answered? ==> j.phase.call == j.asked[|j.asked| - 1])
    && (j.phase.Finished? && j.result.Settled? && j.result.outcome.Ok? ==> j.asked == script)
  }

  lemma ResumeFollows(cfg: Config, j: Job, counter: nat, full: bool)
    requires JobOk(cfg, j) && j.phase.Answered? && Follows(j, Script(cfg, j.kind, full))
    ensures Follows(Resume(cfg, j, counter).0, Script(cfg, j.kind, full))
  {
    var script, n := Script(cfg, j.kind, full), |j.asked|;
    assert j.asked == script[..n];
    assert n < |script| ==> j.asked + [script[n]] == script[..n + 1];
  }

  /** The step leaves the job alone, or moves it. */
  lemma StepFollows(cfg: Config, s: State, step: Step, i: nat, full: bool)
    requires Inv(cfg, s) && Enabled(s, step) && i < |s.jobs| && !s.jobs[i].phase.Waiting?
    requires Follows(s.jobs[i], Script(cfg, s.jobs[i].kind, full))
    ensures i < |Next(cfg, s, step).jobs| && Next(cfg, s, step).jobs[i].kind == s.jobs[i].kind
    ensures !Next(cfg, s, step).jobs[i].phase.Waiting?
    ensures Follows(Next(cfg, s, step).jobs[i], Script(cfg, s.jobs[i].kind, full))
  {
    assert JobOk(cfg, s.jobs[i]);
    if step == Continue(i) {
      ResumeFollows(cfg, s.jobs[i], s.counts.counter, full);
    }
  }

  /** An upsert that starts below the threshold, or without auto-seal, asks for
      its write only; one that starts at or above it seals, merges if so
      configured, and then writes. */
  lemma StartFollows(cfg: Config, s: State, i: nat)
    requires Inv(cfg, s) && Enabled(s, Start(i)) && Untouched(s.jobs[i])
    ensures Next(cfg, s, Start(i)).jobs[i].kind == s.jobs[i].kind && Next(cfg, s, Start(i)).jobs[i].phase.Calling?
    ensures Follows(Next(cfg, s, Start(i)).jobs[i], Script(cfg, s.jobs[i].kind, cfg.rows > 0 && s.counts.counter >= cfg.rows))
  {
    PredecessorsFinished(cfg, s, i);
  }

  predicate Untouched(j: Job) {
    j.asked == [] && j.replies == []
  }

  lemma WaitingStep(cfg: Config, s: State, step: Step, i: nat)
    requires Inv(cfg, s) && Enabled(s, step) && i < |Next(cfg, s, step).jobs| && Next(cfg, s, step).jobs[i].phase.Waiting?
    ensures if i < |s.jobs| then s.jobs[i].phase.Waiting? && Next(cfg, s, step).jobs[i] == s.jobs[i]
            else Untouched(Next(cfg, s, step).jobs[i])
  {
    if i < |s.jobs| {
      assert JobOk(cfg, s.jobs[i]);
    }
  }

  lemma {:induction false} WaitingIsUntouched(cfg: Config, states: seq<State>, steps: seq<Step>, leftover: nat, a: Answers, n: nat, i: nat)
    requires IsRun(cfg, states, steps) && Initial(cfg, states[0], leftover, a) && n < |states|
    requires i < |states[n].jobs| && states[n].jobs[i].phase.Waiting?
    ensures Untouched(states[n].jobs[i])
    decreases n
  {
    if n > 0 {
      RunKeeps(cfg, states, steps, leftover, a, n - 1);
      WaitingStep(cfg, states[n - 1], steps[n - 1], i);
      if i < |states[n - 1].jobs| {
        WaitingIsUntouched(cfg, states, steps, leftover, a, n - 1, i);
      }
    }
  }

  /** In every run, from its start on, a job follows the script that the counter
      at its start selects, and once settled it has one reply per call. */
  lemma {:induction false} JobsFollowTheirScript(cfg: Config, states: seq<State>, steps: seq<Step>, leftover: nat, a: Answers, n: nat, m: nat, i: nat)
    requires IsRun(cfg, states, steps) && Initial(cfg, states[0], leftover, a)
    requires n < m < |states| && steps[n] == Start(i)
    ensures i < |states[n].jobs| && i < |states[m].jobs| && states[m].jobs[i].kind == states[n].jobs[i].kind
    ensures !states[m].jobs[i].phase.Waiting?
    ensures Follows(states[m].jobs[i], Script(cfg, states[n].jobs[i].kind, cfg.rows > 0 && states[n].counts.counter >= cfg.rows))
    decreases m
  {
    RunKeeps(cfg, states, steps, leftover, a, m - 1);
    if m == n + 1 {
      WaitingIsUntouched(cfg, states, steps, leftover, a, n, i);
      StartFollows(cfg, states[n], i);
    } else {
      JobsFollowTheirScript(cfg, states, steps, leftover, a, n, m - 1, i);
      StepFollows(cfg, states[m - 1], steps[m - 1], i, cfg.rows > 0 && states[n].counts.counter >= cfg.rows);
    }
  }

  /** Below the threshold a queued upsert makes one native call, the write, and its
      caller gets that call's answer. */
  lemma UpsertBelowThresholdOnlyWrites(cfg: Config, states: seq<State>, steps: seq<Step>, leftover: nat, a: Answers, n: nat, m: nat, i: nat)
    requires IsRun(cfg, states, steps) && Initial(cfg, states[0], leftover, a)
    requires n < m < |states| && steps[n] == Start(i) && i < |states[n].jobs| && states[n].jobs[i].kind.Upsert?
    requires cfg.rows == 0 || states[n].counts.counter < cfg.rows
    ensures i < |states[m].jobs| && states[m].jobs[i].asked == [WriteCall]
    ensures states[m].jobs[i].caller.Settled? ==> [states[m].jobs[i].caller.outcome] == states[m].jobs[i].replies
  {
    JobsFollowTheirScript(cfg, states, steps, leftover, a, n, m, i);
    RunKeeps(cfg, states, steps, leftover, a, m);
    assert JobOk(cfg, states[m].jobs[i]);
  }

  /** At the threshold it seals first, and writes only behind a seal, and merge,
      that succeeded. */
  lemma UpsertAtThresholdSealsFirst(cfg: Config, states: seq<State>, steps: seq<Step>, leftover: nat, a: Answers, n: nat, m: nat, i: nat)
    requires IsRun(cfg, states, steps) && Initial(cfg, states[0], leftover, a)
    requires n < m < |states| && steps[n] == Start(i) && i < |states[n].jobs| && states[n].jobs[i].kind.Upsert?
    requires cfg.rows > 0 && states[n].counts.counter >= cfg.rows
    ensures i < |states[m].jobs| && var j := states[m].jobs[i];
              && j.asked != [] && j.asked <= SealThenWrite(cfg)
              && (forall k :: 0 <= k < |j.asked| - 1 ==> k < |j.replies| && j.replies[k].Ok?)
              && (j.wrote ==> j.asked == SealThenWrite(cfg))
              && (j.result.Settled? && j.result.outcome.Ok? ==> j.asked == SealThenWrite(cfg))
  {
    JobsFollowTheirScript(cfg, states, steps, leftover, a, n, m, i);
    RunKeeps(cfg, states, steps, leftover, a, m);
    var j := states[m].jobs[i];
    assert JobOk(cfg, j);
  }

  // ----- the counter is exact

  predicate SealsFully(cfg: Config, a: Answers) {
    a.seal.Ok? && (cfg.merge ==> a.merge.Ok?)
  }

  /** Everything counted so far was sealed, and merged if so configured. */
  predicate ResetAt(cfg: Config, s: State, step: Step)
    requires Enabled(s, step)
  {
    match step
    case Continue(i) =>
      var j := s.jobs[i];
      && (j.kind.Upsert? || j.kind.Seal?) && j.phase.outcome.Ok?
      && (if cfg.merge then j.phase.call.MergeCall? else j.phase.call.SealCall?)
    case SyncWrite(_, a) => cfg.rows > 0 && s.counts.counter >= cfg.rows && SealsFully(cfg, a)
    case SyncSeal(a) => SealsFully(cfg, a)
    case SyncReindex(a) => a.seal.Ok? && a.write.Ok?
    case _ => false
  }

  /** Documents of a write that succeeded and whose reply has been seen. */
  function CountedAt(cfg: Config, s: State, step: Step): nat
    requires Enabled(s, step)
  {
    match step
    case Continue(i) =>
      var j := s.jobs[i];
      if j.kind.Upsert? && j.phase.call.WriteCall? && j.phase.outcome.Ok? then j.kind.count else 0
    case SyncWrite(count, a) =>
      if a.write.Ok? && (cfg.rows > 0 && s.counts.counter >= cfg.rows ==> SealsFully(cfg, a)) then count else 0
    case _ => 0
  }

  /** The documents counted since the last reset. */
  function CountSince(cfg: Config, states: seq<State>, steps: seq<Step>, n: nat): nat
    requires IsRun(cfg, states, steps) && n < |states|
  {
    if n == 0 then 0
    else
      (if ResetAt(cfg, states[n - 1], steps[n - 1]) then 0 else CountSince(cfg, states, steps, n - 1))
      + CountedAt(cfg, states[n - 1], steps[n - 1])
  }

  lemma CounterStep(cfg: Config, s: State, step: Step)
    requires Inv(cfg, s) && Enabled(s, step)
    ensures Next(cfg, s, step).counts.counter
            == (if ResetAt(cfg, s, step) then 0 else s.counts.counter) + CountedAt(cfg, s, step)
  {
    if step.Continue? {
      assert JobOk(cfg, s.jobs[step.i]);
    }
  }

  /** In every run the counter is exactly the number of documents written since
      the last full seal. */
  lemma {:induction false} CounterIsExact(cfg: Config, states: seq<State>, steps: seq<Step>, leftover: nat, a: Answers, n: nat)
    requires IsRun(cfg, states, steps) && Initial(cfg, states[0], leftover, a) && n < |states|
    ensures states[n].counts.counter == CountSince(cfg, states, steps, n)
    decreases n
  {
    if n > 0 {
      CounterIsExact(cfg, states, steps, leftover, a, n - 1);
      RunKeeps(cfg, states, steps, leftover, a, n - 1);
      CounterStep(cfg, states[n - 1], steps[n - 1]);
    }
  }

  // ----- submissions and answers

  /** A submitted job is the last one and waits. */
  lemma SubmittedJobIsLast(cfg: Config, s: State, kind: Kind)
    ensures var s' := Next(cfg, s, Submit(kind));
            && |s'.jobs| == |s.jobs| + 1 && s'.jobs[..|s.jobs|] == s.jobs
            && s'.jobs[|s.jobs|].kind == kind && s'.jobs[|s.jobs|].phase.Waiting? && s'.jobs[|s.jobs|].caller.Pending?
  {
  }

  /** The engine's answers to job `i` among the first `n` steps, in order. */
  function AnswersTo(steps: seq<Step>, n: nat, i: nat): seq<Outcome>
    requires n <= |steps|
  {
    if n == 0 then []
    else
      AnswersTo(steps, n - 1, i)
      + (if steps[n - 1].Answer? && steps[n - 1].i == i then [steps[n - 1].outcome] else [])
  }

  lemma AnswerIsRecorded(cfg: Config, s: State, step: Step, i: nat)
    requires Inv(cfg, s) && Enabled(s, step) && i < |s.jobs|
    ensures i < |Next(cfg, s, step).jobs|
    ensures Next(cfg, s, step).jobs[i].replies
            == s.jobs[i].replies + (if step.Answer? && step.i == i then [step.outcome] else [])
  {
    assert s.jobs[i].replies + [] == s.jobs[i].replies;
  }

  /** In every run the replies of a job are the engine's answers to it. */
  lemma {:induction false} RepliesAreTheAnswers(cfg: Config, states: seq<State>, steps: seq<Step>, leftover: nat, a: Answers, n: nat, i: nat)
    requires IsRun(cfg, states, steps) && Initial(cfg, states[0], leftover, a) && n < |states|
    ensures if i < |states[n].jobs| then states[n].jobs[i].replies == AnswersTo(steps, n, i) else AnswersTo(steps, n, i) == []
    decreases n
  {
    if n > 0 {
      var s, step := states[n - 1], steps[n - 1];
      RunKeeps(cfg, states, steps, leftover, a, n - 1);
      RepliesAreTheAnswers(cfg, states, steps, leftover, a, n - 1, i);
      if i < |s.jobs| {
        AnswerIsRecorded(cfg, s, step, i);
      } else if i < |states[n].jobs| {
        assert step.Submit?;
      }
    }
  }
}
