/** Exactly once: the calls a run makes into the kernel's descriptor table and the backend, in order. Every
    release hits something alive, and every slot and every descriptor is released as often as it was handed
    out, but for what is alive still. */
module PoolTrace {
  import opened Common
  import opened PoolSpec
  import opened PoolSystem
  import opened PoolResources

  /** The calls of the first `n` steps of a run. */
  function Trace(states: seq<Sys>, steps: seq<Step>, n: nat): seq<Effect>
    requires Run(states, steps) && n <= |steps|
  {
    if n == 0 then []
    else
      assert StepAt(states, steps, n - 1);
      Trace(states, steps, n - 1) + Effects(states[n - 1], steps[n - 1])
  }

  function Bit(b: bool): nat { if b then 1 else 0 }

  /** How often a slot was handed to the backend: allocations, and refusals the pool will free. */
  function Taken(effects: seq<Effect>, slot: (nat, nat)): nat {
    if effects == [] then 0
    else
      var last := effects[|effects| - 1];
      Taken(effects[..|effects| - 1], slot)
      + Bit((last.Alloc? || last.Refuse?) && (last.backend, last.slot) == slot)
  }

  function Freed(effects: seq<Effect>, slot: (nat, nat)): nat {
    if effects == [] then 0
    else Freed(effects[..|effects| - 1], slot) + Bit(effects[|effects| - 1] == Free(slot.0, slot.1))
  }

  predicate Opens(e: Effect, fd: int) {
    e == Dup(fd) || (e.Alloc? && fd in SlotFds(e.layout.plane))
  }

  /** How often a descriptor number came into being. */
  function Opened(effects: seq<Effect>, fd: int): nat {
    if effects == [] then 0
    else Opened(effects[..|effects| - 1], fd) + Bit(Opens(effects[|effects| - 1], fd))
  }

  function Closed(effects: seq<Effect>, fd: int): nat {
    if effects == [] then 0
    else Closed(effects[..|effects| - 1], fd) + Bit(effects[|effects| - 1] == Close(fd))
  }

  // ---------------------------------------------------------------- the ledger counts

  lemma FaultStays(l: Ledger, e: Effect)
    requires l.fault
    ensures Perform(l, e).fault
  {
  }

  /** Without a fault, takes and releases of a slot balance. */
  lemma {:induction false} SlotConserved(l: Ledger, effects: seq<Effect>, slot: (nat, nat))
    requires !PerformAll(l, effects).fault && l.live !! l.refused
    ensures
      var r := PerformAll(l, effects);
      && !l.fault && r.live !! r.refused
      && Bit(slot in l.live + l.refused) + Taken(effects, slot) == Freed(effects, slot) + Bit(slot in r.live + r.refused)
    decreases |effects|
  {
    if effects != [] {
      var init, last := effects[..|effects| - 1], effects[|effects| - 1];
      if PerformAll(l, init).fault { FaultStays(PerformAll(l, init), last); }
      SlotConserved(l, init, slot);
    }
  }

  /** Without a fault, the opens and closes of a descriptor balance. */
  lemma {:induction false} FdConserved(l: Ledger, effects: seq<Effect>, fd: int)
    requires !PerformAll(l, effects).fault && Honest(l, effects)
    ensures
      var r := PerformAll(l, effects);
      Bit(fd in l.open) + Opened(effects, fd) == Closed(effects, fd) + Bit(fd in r.open)
    decreases |effects|
  {
    if effects != [] {
      var init, last := effects[..|effects| - 1], effects[|effects| - 1];
      if PerformAll(l, init).fault { FaultStays(PerformAll(l, init), last); }
      FdConserved(l, init, fd);
    }
  }

  lemma {:induction false} HonestJoined(l: Ledger, a: seq<Effect>, b: seq<Effect>)
    requires Honest(l, a) && Honest(PerformAll(l, a), b)
    ensures Honest(l, a + b)
    decreases |b|
  {
    if b == [] {
      assert a + b == a;
    } else {
      var init := b[..|b| - 1];
      assert (a + b)[..|a + b| - 1] == a + init;
      HonestJoined(l, a, init);
      PerformAppend(l, a, init);
    }
  }

  lemma {:induction false} TraceLedger(states: seq<Sys>, steps: seq<Step>, n: nat)
    requires Run(states, steps) && n <= |steps|
    ensures
      var l, trace := states[0].world.ledger, Trace(states, steps, n);
      Honest(l, trace) && PerformAll(l, trace) == states[n].world.ledger
  {
    hide PerformAll, Honest, Effects, Guard, Shape, Move, Init;
    var l := states[0].world.ledger;
    if n == 0 {
      PerformNone(l);
      NothingHonest(l);
    } else {
      TraceLedger(states, steps, n - 1);
      assert StepAt(states, steps, n - 1);
      var before, more := Trace(states, steps, n - 1), Effects(states[n - 1], steps[n - 1]);
      assert Trace(states, steps, n) == before + more;
      PerformAppend(l, before, more);
      HonestJoined(l, before, more);
    }
  }

  lemma NothingHonest(l: Ledger)
    ensures Honest(l, [])
  {
  }

  // ---------------------------------------------------------------- what runs promise

  /** In every run every slot has been freed exactly as often as it was handed to the backend, less one if
      it is live now, and every descriptor closed as often as it was opened, less one if it is open now. */
  lemma ReleasedOnce(states: seq<Sys>, steps: seq<Step>, n: nat, slot: (nat, nat), fd: int)
    requires Run(states, steps) && n <= |steps| < U64_LIMIT - 2
    ensures
      var trace, l := Trace(states, steps, n), states[n].world.ledger;
      && Taken(trace, slot) == Freed(trace, slot) + Bit(slot in l.live)
      && Bit(fd == states[0].pool.drmFd) + Opened(trace, fd) == Closed(trace, fd) + Bit(fd in l.open)
  {
    NothingLeaksNothingDoubles(states, steps, n);
    TraceLedger(states, steps, n);
    SlotConserved(states[0].world.ledger, Trace(states, steps, n), slot);
    FdConserved(states[0].world.ledger, Trace(states, steps, n), fd);
  }

  /** When the pool is destroyed after a run, with no send in flight, every slot has been freed exactly as often
      as it was handed out, and every descriptor closed as often as opened unless the caller holds it. */
  lemma AllReleasedOnce(states: seq<Sys>, steps: seq<Step>, n: nat, slot: (nat, nat), fd: int)
    requires Run(states, steps) && n <= |steps| < U64_LIMIT - 2 && states[n].world.call.Idle?
    ensures Shape(states[n])
    ensures
      var trace := Trace(states, steps, n) + Destroy(states[n].pool);
      && Taken(trace, slot) == Freed(trace, slot)
      && Bit(fd == states[0].pool.drmFd) + Opened(trace, fd) == Closed(trace, fd) + Bit(fd in states[n].world.held)
  {
    DestroyReleasesEverything(states, steps, n);
    TraceLedger(states, steps, n);
    var l, end := states[0].world.ledger, Destroy(states[n].pool);
    NothingOpens(states[n].pool);
    OnlyClosesHonest(states[n].world.ledger, end);
    HonestJoined(l, Trace(states, steps, n), end);
    PerformAppend(l, Trace(states, steps, n), end);
    SlotConserved(l, Trace(states, steps, n) + end, slot);
    FdConserved(l, Trace(states, steps, n) + end, fd);
  }

  predicate Releasing(effects: seq<Effect>) {
    forall e :: e in effects ==> e.Close? || e.Free? || e.Drop?
  }

  lemma TeardownReleases(b: Bank)
    requires b.count <= |b.slots|
    ensures Releasing(Teardown(b))
  {
  }

  lemma NothingOpens(p: Pool)
    requires BankShape(p.bank) && (p.candidate.Some? ==> BankShape(p.candidate.value))
    ensures Releasing(Destroy(p))
  {
    TeardownReleases(p.bank);
    if p.candidate.Some? { TeardownReleases(p.candidate.value); }
  }

  lemma {:induction false} OnlyClosesHonest(l: Ledger, effects: seq<Effect>)
    requires Releasing(effects)
    ensures Honest(l, effects)
    decreases |effects|
  {
    if effects != [] {
      var last := effects[|effects| - 1];
      assert last in effects;
      OnlyClosesHonest(l, effects[..|effects| - 1]);
    }
  }

  // ---------------------------------------------------------------- every release hits

  /** A fault once recorded is there at the end. */
  lemma {:induction false} FaultlessPrefix(l: Ledger, effects: seq<Effect>, j: nat)
    requires !PerformAll(l, effects).fault && j <= |effects|
    ensures !PerformAll(l, effects[..j]).fault
    decreases |effects|
  {
    if j == |effects| {
      assert effects[..j] == effects;
    } else {
      var init := effects[..|effects| - 1];
      if PerformAll(l, init).fault { FaultStays(PerformAll(l, init), effects[|effects| - 1]); }
      FaultlessPrefix(l, init, j);
      assert init[..j] == effects[..j];
    }
  }

  lemma {:induction false} RefusedBefore(l: Ledger, effects: seq<Effect>, slot: (nat, nat))
    requires slot in PerformAll(l, effects).refused && l.refused == {}
    ensures Refuse(slot.0, slot.1) in effects
    decreases |effects|
  {
    if effects != [] {
      var init, last := effects[..|effects| - 1], effects[|effects| - 1];
      if last != Refuse(slot.0, slot.1) { RefusedBefore(l, init, slot); }
      assert effects == init + [last];
    }
  }

  predicate Unrefused(effects: seq<Effect>) { forall e :: e in effects ==> !e.Refuse? }

  lemma TransactionsRefuseNothing(s: Sys, step: Step)
    requires Shape(s) && Guard(s, step) && !step.DoApply? && !step.DoPrepare? && !step.DoAbortTarget? && !step.DoCommit?
    ensures Unrefused(Effects(s, step))
  {
  }

  lemma ApplyRefusesNothing(s: Sys, d: Directive, answers: seq<AllocAnswer>, sendRc: int)
    requires Shape(s) && GoodAnswers(answers)
    ensures Unrefused(Apply(s.pool, d, answers, sendRc).3)
  {
    hide Teardown;
    if ApplyRefusal(s.pool, d) == 0 {
      var n := GrantedPrefix(answers, d.count);
      TeardownReleases(s.pool.bank);
      TeardownReleases(Build(s.pool.bank.backend, d, s.pool.caps.probe, answers, n, n));
    }
  }

  /** A refusal is recorded by prepare alone, and only for the first slot the allocator refused. */
  lemma {:induction false} PrepareRefusesOne(s: Sys, d: Directive, extent: Extent, fork: ForkAnswer, answers: seq<AllocAnswer>, e: Effect)
    requires Shape(s) && GoodAnswers(answers) && e in Prepare(s.pool, d, extent, fork, answers).2
    ensures e.Refuse? ==>
      fork.Forked? && d.count <= |answers| && e == Refuse(fork.backend, GrantedPrefix(answers, d.count))
  {
    hide Teardown;
    if PrepareRefusal(s.pool, d, extent) == 0 && fork.Forked? {
      var n := GrantedPrefix(answers, d.count);
      if n < d.count { TeardownReleases(Build(fork.backend, d, extent, answers, n, n + 1)); }
    }
  }

  lemma OnlyPrepareRefuses(s: Sys, step: Step, e: Effect)
    requires Shape(s) && Guard(s, step) && e in Effects(s, step) && e.Refuse?
    ensures step.DoPrepare? && step.fork.Forked? && step.directive.count <= |step.answers|
    ensures e == Refuse(step.fork.backend, GrantedPrefix(step.answers, step.directive.count))
  {
    hide Apply, Prepare, Commit, AbortTarget, Teardown;
    match step
    case DoApply(d, answers, sendRc) => ApplyRefusesNothing(s, d, answers, sendRc);
    case DoPrepare(d, extent, fork, answers) => PrepareRefusesOne(Sys(Calm(s.pool), s.world), d, extent, fork, answers, e);
    case DoAbortTarget => TargetsRefuseNothing(s, 0);
    case DoCommit(sendRc) => TargetsRefuseNothing(Sys(Calm(s.pool), s.world), sendRc);
    case _ => TransactionsRefuseNothing(s, step);
  }

  lemma TargetsRefuseNothing(s: Sys, sendRc: int)
    requires Shape(s)
    ensures Unrefused(AbortTarget(s.pool).1) && Unrefused(Commit(s.pool, sendRc).4)
  {
    hide Teardown;
    TeardownReleases(s.pool.bank);
    if s.pool.candidate.Some? { TeardownReleases(s.pool.candidate.value); }
  }

  /** Every close of a run hits an open descriptor, every backend dropped is one with no slot left, and every
      slot freed is live, or the one slot whose allocation was refused before in the same prepare. */
  lemma EveryReleaseHits(states: seq<Sys>, steps: seq<Step>, i: nat, j: nat)
    requires Run(states, steps) && i < |steps| < U64_LIMIT - 2
    ensures StepAt(states, steps, i)
    ensures j < |Effects(states[i], steps[i])| ==>
      var step, effects := steps[i], Effects(states[i], steps[i]);
      var l := PerformAll(states[i].world.ledger, effects[..j]);
      match effects[j]
      case Close(fd) => fd in l.open
      case Free(b, k) =>
        (b, k) in l.live
        || (Refuse(b, k) in effects[..j] && step.DoPrepare? && step.directive.count <= |step.answers|
            && k == GrantedPrefix(step.answers, step.directive.count))
      case Drop(b) => b in l.backends && forall x :: x in l.live ==> x.0 != b
      case _ => true
  {
    hide Effects, Guard, Honest, Move, Shape, PerformAll;
    assert StepAt(states, steps, i);
    NothingLeaksNothingDoubles(states, steps, i);
    NothingLeaksNothingDoubles(states, steps, i + 1);
    if j < |Effects(states[i], steps[i])| { HitsAt(states[i], steps[i], j); }
  }

  lemma HitsAt(s: Sys, step: Step, j: nat)
    requires Shape(s) && Guard(s, step) && s.world.ledger.refused == {} && j < |Effects(s, step)|
    requires !PerformAll(s.world.ledger, Effects(s, step)).fault
    ensures
      var effects := Effects(s, step);
      var l := PerformAll(s.world.ledger, effects[..j]);
      match effects[j]
      case Close(fd) => fd in l.open
      case Free(b, k) =>
        (b, k) in l.live
        || (Refuse(b, k) in effects[..j] && step.DoPrepare? && step.directive.count <= |step.answers|
            && k == GrantedPrefix(step.answers, step.directive.count))
      case Drop(b) => b in l.backends && forall x :: x in l.live ==> x.0 != b
      case _ => true
  {
    hide Effects;
    var l, effects := s.world.ledger, Effects(s, step);
    var e := effects[j];
    FaultlessPrefix(l, effects, j + 1);
    assert effects[..j + 1][..j] == effects[..j];
    var mid := PerformAll(l, effects[..j]);
    if e.Free? && (e.backend, e.slot) !in mid.live {
      RefusedBefore(l, effects[..j], (e.backend, e.slot));
      OnlyPrepareRefuses(s, step, Refuse(e.backend, e.slot));
    }
  }
}
