/** Over runs: what a check saw lasts until the rest of its call, what a commit installs is exactly what one
    prepare built, and an identity once consumed is refused ever after. */
module PoolBanks {
  import opened Common
  import opened PoolSpec
  import opened PoolSystem
  import opened PoolSafety

  /** The step is a prepare that every allocation went well for, and `b` is what it built. */
  predicate Builds(step: Step, b: Bank) {
    && step.DoPrepare? && step.fork.Forked? && GoodAnswers(step.answers) && step.directive.count <= MAX_SLOTS
    && (forall i :: 0 <= i < step.directive.count ==> step.answers[i].Granted?)
    && b == Build(step.fork.backend, step.directive, step.extent, step.answers, step.directive.count, step.directive.count)
  }

  // ---------------------------------------------------------------- between check and rest

  /** What the check of the call under way established still holds, the session apart. */
  predicate StillPasses(s: Sys) { s.world.job.Some? ==> Passes(Calm(s.pool), s.world.job.value) }

  lemma MoveStillPasses(s: Sys, step: Step, k: nat)
    requires Inv(s, k) && Guard(s, step) && StillPasses(s)
    ensures StillPasses(Move(s, step))
  {
    hide Apply, Prepare, Commit, ApplyRefusal, PrepareRefusal, TryAcquire, Republish;
    QuietWhilePassing(s);
    match step
    case Check(job) => PassesCalm(s.pool, job);
    case Lose => assert Calm(Move(s, step).pool) == Calm(s.pool);
    case _ =>
  }

  lemma QuietWhilePassing(s: Sys)
    requires Shape(s) && Pending(s) && StillPasses(s)
    ensures s.world.job.Some? ==> s.world.call.Idle? && s.pool.rel.acquire.None? && s.pool.rel.submit.None?
  {
  }

  lemma PassesCalm(p: Pool, job: Job)
    requires Passes(p, job)
    ensures Passes(Calm(p), job)
  {
  }

  lemma {:induction false} RunStillPasses(states: seq<Sys>, steps: seq<Step>, i: nat)
    requires Run(states, steps) && i <= |steps| < U64_LIMIT - 2
    ensures StillPasses(states[i])
  {
    hide Inv, Guard, Move, Honest, PerformAll, Effects, Passes;
    if i > 0 {
      RunStillPasses(states, steps, i - 1);
      RunInv(states, steps, i - 1);
      assert StepAt(states, steps, i - 1);
      MoveStillPasses(states[i - 1], steps[i - 1], i - 1);
    }
  }

  predicate Finishes(step: Step) { step.DoApply? || step.DoPrepare? || step.DoCommit? }

  /** In every run, whatever comes between the check of an apply, prepare or commit and the rest of it, all that
      the check saw is still so when the rest is done, but for the session, which may have been lost. */
  lemma CheckStillHolds(states: seq<Sys>, steps: seq<Step>, i: nat)
    requires Run(states, steps) && i < |steps| < U64_LIMIT - 2 && Finishes(steps[i])
    ensures states[i].world.job.Some? && Passes(Calm(states[i].pool), states[i].world.job.value)
  {
    hide Inv, Move, Honest, PerformAll, Effects, Passes;
    RunStillPasses(states, steps, i);
    assert StepAt(states, steps, i);
  }

  /** In every run an apply that got past its check is answered once: by an announcement of the bank now in place,
      or by a failure when no slot is left; only a bank with mixed planes goes unannounced. */
  lemma AppliedIsAnswered(states: seq<Sys>, steps: seq<Step>, i: nat)
    requires Run(states, steps) && i < |steps| < U64_LIMIT - 2 && steps[i].DoApply?
    ensures BankShape(states[i].pool.bank) && GoodAnswers(steps[i].answers)
    ensures
      var p, q, step := states[i].pool, states[i + 1].pool, steps[i];
      var msg := Apply(p, step.directive, step.answers, step.sendRc).2;
      var report := ApplyReport(p, step.directive, step.answers);
      && (msg.Some? ==> report.None? && q.generation == p.generation + 1 && q.bank.count == step.directive.count)
      && (msg.Some? ==> BankShape(q.bank) && UniformPlanes(q.bank) && msg.value == Describe(q.bank, q.generation))
      && (report.Some? ==> msg.None? && q.generation == p.generation && q.bank.count == 0 && report.value.kind != Unsupported)
      && (msg.None? && report.None? ==> BankShape(q.bank) && q.bank.count > 0 && !UniformPlanes(q.bank))
  {
    hide Inv, Honest, PerformAll, Apply, ApplyReport, UniformPlanes, Describe;
    var s, step := states[i], steps[i];
    CheckStillHolds(states, steps, i);
    assert StepAt(states, steps, i);
    CalmRefusal(s.pool, step.directive);
    ApplyOutcome(s.pool, step.directive, step.answers, step.sendRc);
    ApplyAnswers(s.pool, step.directive, step.answers, step.sendRc);
  }

  lemma CalmRefusal(p: Pool, d: Directive)
    requires ApplyRefusal(Calm(p), d) == 0
    ensures ApplyRefusal(p, d) == 0 && p.caps.advertised && p.candidate.None? && !Transacting(p.rel)
    ensures ValidateDirective(p.caps, d) == 0
  {
  }

  // ---------------------------------------------------------------- whole banks

  /** Where the two banks come from: the active one changes by apply and by commit alone, the candidate appears
      by prepare alone. */
  lemma BankSource(s: Sys, step: Step)
    requires Shape(s) && Guard(s, step) && StillPasses(s)
    requires s.pool.candidate.Some? ==> s.pool.candidate.value.count > 0
    ensures
      var p, q := s.pool, Move(s, step).pool;
      && (step.DoCommit? ==>
            p.candidate.Some? && q.bank == p.candidate.value && q.candidate.None? && q.generation == p.generation + 1)
      && (step.DoApply? ==> p.candidate.None?)
      && (!step.DoCommit? && !step.DoApply? ==> q.bank == p.bank && q.generation == p.generation)
      && (q.candidate == p.candidate || q.candidate.None? || Builds(step, q.candidate.value))
  {
    hide Apply, Commit;
    match step
    case DoApply(d, answers, sendRc) => ApplyOutcome(s.pool, d, answers, sendRc);
    case DoCommit(sendRc) => CommitOutcome(Calm(s.pool), sendRc);
    case DoPrepare(d, extent, fork, answers) => CandidateOutcome(Calm(s.pool), d, extent, fork, answers);
    case _ =>
  }

  lemma CandidateCounted(s: Sys, k: nat)
    requires Inv(s, k)
    ensures s.pool.candidate.Some? ==> s.pool.candidate.value.count > 0
  {
  }

  lemma SourceAt(states: seq<Sys>, steps: seq<Step>, i: nat)
    requires Run(states, steps) && i < |steps| < U64_LIMIT - 2
    ensures
      var p, q, step := states[i].pool, states[i + 1].pool, steps[i];
      && (step.DoCommit? ==>
            p.candidate.Some? && q.bank == p.candidate.value && q.candidate.None? && q.generation == p.generation + 1)
      && (step.DoApply? ==> p.candidate.None?)
      && (!step.DoCommit? && !step.DoApply? ==> q.bank == p.bank && q.generation == p.generation)
      && (q.candidate == p.candidate || q.candidate.None? || Builds(step, q.candidate.value))
  {
    hide Inv, Guard, Move, Honest, Builds, PerformAll, Effects, Init, Passes;
    RunInv(states, steps, i);
    RunStillPasses(states, steps, i);
    assert StepAt(states, steps, i);
    CandidateCounted(states[i], i);
    BankSource(states[i], steps[i]);
  }

  lemma NoCandidateAtFirst(s: Sys)
    requires Init(s)
    ensures s.pool.candidate.None?
  {
  }

  /** In every run a candidate is what an earlier prepare built, untouched since. */
  lemma {:induction false} CandidateWasPrepared(states: seq<Sys>, steps: seq<Step>, i: nat)
    requires Run(states, steps) && i <= |steps| < U64_LIMIT - 2 && states[i].pool.candidate.Some?
    ensures exists j :: 0 <= j < i && Builds(steps[j], states[i].pool.candidate.value)
    decreases i
  {
    hide Builds, Init, StepAt;
    NoCandidateAtFirst(states[0]);
    if i > 0 {
      SourceAt(states, steps, i - 1);
      if states[i].pool.candidate == states[i - 1].pool.candidate { CandidateWasPrepared(states, steps, i - 1); }
    }
  }

  /** In every run a commit that got past its check replaces the whole active bank (backend, directive, extent,
      count and slots) by exactly what one earlier prepare built, under a new generation. No other step but an
      apply touches the active bank, and none while a candidate is waiting. */
  lemma CommitInstallsPrepared(states: seq<Sys>, steps: seq<Step>, i: nat)
    requires Run(states, steps) && i < |steps| < U64_LIMIT - 2
    ensures
      var p, q := states[i].pool, states[i + 1].pool;
      && (steps[i].DoCommit? ==>
            && q.generation == p.generation + 1 && q.candidate.None?
            && exists j :: 0 <= j < i && Builds(steps[j], q.bank))
      && (!steps[i].DoCommit? && (!steps[i].DoApply? || p.candidate.Some?) ==> q.bank == p.bank && q.generation == p.generation)
  {
    hide Builds, Init, StepAt;
    SourceAt(states, steps, i);
    if states[i].pool.candidate.Some? { CandidateWasPrepared(states, steps, i); }
  }

  /** In every run an identity that was handed out and is no longer the open transaction is refused ever after,
      by abort and by submit, without any change of the pool; submit closes the fence it was given. */
  lemma ConsumedAlwaysRefused(states: seq<Sys>, steps: seq<Step>, i: nat, j: nat, id: Identity, fence: int, dup: int)
    requires Run(states, steps) && i <= j <= |steps| < U64_LIMIT - 2
    requires id in states[i].world.granted && states[i].pool.rel.acquire != Some(id)
    ensures
      var p := states[j].pool;
      && Abort(p, id).0 == p && Abort(p, id).1 != 0
      && Reserve(p, id, fence, dup).0 == p && !Reserve(p, id, fence, dup).1.Reserved?
      && Reserve(p, id, fence, dup).2 == CloseIfOpen(fence)
  {
    ConsumedIdentityStaysDead(states, steps, i, j, id);
    StaleIdentityRefused(states[j].pool, id, fence, dup);
  }
}
