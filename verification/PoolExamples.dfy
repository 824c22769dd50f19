/** A run of the pool: buffers are applied, a frame is rendered and submitted, released, and sent again. */
module PoolExamples {
  import opened Common
  import opened PoolSpec
  import opened PoolSystem

  ghost predicate Reached(s: Sys) {
    exists states, steps :: Run(states, steps) && states[|steps|] == s
  }

  lemma StartReached(s: Sys)
    requires Init(s)
    ensures Reached(s)
  {
    var none: seq<Step> := [];
    assert Run([s], none) && [s][|none|] == s;
  }

  lemma StepReached(s: Sys, step: Step)
    requires Reached(s) && Enabled(s, step)
    ensures Reached(Next(s, step))
  {
    hide Next, Enabled, Init;
    var states, steps :| Run(states, steps) && states[|steps|] == s;
    var more, taken := states + [Next(s, step)], steps + [step];
    forall i | 0 <= i < |taken| ensures StepAt(more, taken, i) {
      if i < |steps| { assert StepAt(states, steps, i); }
    }
    assert Run(more, taken) && more[|taken|] == Next(s, step);
  }

  // ---------------------------------------------------------------- a pool with one slot

  const DRM_FD := 3
  const PLANE_FD := 4
  const FENCE := 5

  const ONE_PLANE := Layout(1, [Plane(PLANE_FD, 4, 0, 4), UNSET, UNSET, UNSET], 0)
  const ONE_BUFFER := Directive(Format(1, 0, 1), SYNCOBJ_TIMELINE, 0, 0, 1, CompatLinear, GpuNative)
  const CAPS := Caps(true, true, [], Extent(1, 1), Extent(1, 1))

  function Answers(): seq<AllocAnswer> { seq(MAX_SLOTS, i => Granted(ONE_PLANE)) }

  function Created(): Sys {
    Sys(Pool(NewRelease(), Bank(0, NO_DIRECTIVE, Extent(1, 1), 0, EmptySlots()), false, 0, None, CAPS, DRM_FD),
        World([], 0, seq(MAX_SLOTS, i => 0), {}, false, Idle, None, {}, Ledger({DRM_FD}, {}, {}, {0}, false)))
  }

  /** One slot applied, nothing acquired. */
  ghost predicate Ready(s: Sys) {
    && Shape(s) && s.pool.hasDirective && s.pool.bank.count == 1 && s.pool.generation == 1 && s.pool.drmFd == DRM_FD
    && s.pool.rel == ResetRelease(NewRelease()).(slotCount := 1)
    && s.world == Created().world.(ledger := s.world.ledger) && s.world.ledger.open == {DRM_FD, PLANE_FD}
  }

  lemma PlaneFds()
    ensures SlotFds(ONE_PLANE.plane) == [PLANE_FD]
  {
    var p := ONE_PLANE.plane;
    assert p[..3] == [p[0], UNSET, UNSET] && p[..3][..2] == [p[0], UNSET] && p[..3][..2][..1] == [p[0]];
    assert p[..3][..2][..1][..0] == [];
    assert SlotFds([p[0]]) == [PLANE_FD] && SlotFds([p[0], UNSET]) == [PLANE_FD];
    assert SlotFds([p[0], UNSET, UNSET]) == [PLANE_FD];
  }

  lemma Checked() returns (s: Sys)
    ensures Reached(s)
    ensures s == Created().(world := Created().world.(job := Some(Applying(ONE_BUFFER))))
  {
    hide Reached, Apply;
    var s0 := Created();
    StartReached(s0);
    var check := Check(Applying(ONE_BUFFER));
    NoCalls(s0.world.ledger);
    StepReached(s0, check);
    s := Next(s0, check);
  }

  lemma Applied() returns (s: Sys)
    ensures Reached(s) && Ready(s)
  {
    hide Reached, Apply, Honest, PerformAll;
    var s0 := Checked();
    var apply := DoApply(ONE_BUFFER, Answers(), 0);
    ApplyCalls(s0);
    StepReached(s0, apply);
    s := Next(s0, apply);
  }

  lemma ApplyCalls(s: Sys)
    requires s == Created().(world := s.world) && s.world.ledger == Created().world.ledger
    ensures
      var (p, _, _, effects) := Apply(s.pool, ONE_BUFFER, Answers(), 0);
      && effects == [Alloc(0, 0, ONE_PLANE)] && Honest(s.world.ledger, effects)
      && PerformAll(s.world.ledger, effects).open == {DRM_FD, PLANE_FD}
      && BankShape(p.bank) && p.bank.count == 1 && p.generation == 1 && p.candidate.None? && p.hasDirective
      && p.drmFd == DRM_FD && p.rel == ResetRelease(NewRelease()).(slotCount := 1)
  {
    PlaneFds();
    var a := Answers();
    assert GrantedPrefix(a, 1) == GrantedPrefix(a, 1, 1) == 1;
    assert Allocs(0, a, 1) == [Alloc(0, 0, ONE_PLANE)];
    assert [Alloc(0, 0, ONE_PLANE)][..0] == [];
    assert Teardown(s.pool.bank) == [];
  }

  // ---------------------------------------------------------------- a frame

  const KEPT_FENCE := 6
  const FIRST := Identity(1, 0, 0, 1)

  /** The slot acquired, drawn into, and a fence at hand. */
  ghost predicate Drawn(s: Sys) {
    && Shape(s) && s.pool.hasDirective && s.pool.bank.count == 1 && s.pool.generation == 1
    && s.pool.rel == ResetRelease(NewRelease()).(slotCount := 1, acquire := Some(FIRST), nextSerial := 2)
    && s.world == Created().world.(ledger := s.world.ledger, content := Created().world.content[0 := 7], granted := {FIRST},
                                   rendering := true, held := {FENCE})
    && s.world.ledger.open == {DRM_FD, PLANE_FD, FENCE}
  }

  lemma Rendered() returns (s: Sys)
    ensures Reached(s) && Drawn(s)
  {
    hide Reached;
    var s0 := Applied();
    SingleCall(s0.world.ledger, Dup(FENCE));
    StepReached(s0, Fence(FENCE));
    var s1 := Next(s0, Fence(FENCE));
    var acquire := DoAcquire([Reading(0, 0)], 0);
    NoCalls(s1.world.ledger);
    StepReached(s1, acquire);
    var s2 := Next(s1, acquire);
    NoCalls(s2.world.ledger);
    StepReached(s2, Render(7));
    s := Next(s2, Render(7));
  }

  lemma SingleCall(l: Ledger, e: Effect)
    ensures Honest(l, [e]) == Fresh(l, e) && PerformAll(l, [e]) == Perform(l, e)
  {
    assert [e][..0] == [];
  }

  lemma NoCalls(l: Ledger)
    ensures Honest(l, []) && PerformAll(l, []) == l
  {
  }

  /** The frame is on the wire and kept for another time. */
  ghost predicate Shown(s: Sys) {
    && Shape(s) && s.pool.hasDirective && s.pool.bank.count == 1 && s.pool.generation == 1
    && s.pool.rel == ResetRelease(NewRelease()).(slotCount := 1, nextSerial := 2, point := 1, last := NewRelease().last[0 := 1],
                                                 latestFd := KEPT_FENCE, latestGeneration := 1, latestValid := true)
    && s.world == Created().world.(ledger := s.world.ledger, content := Created().world.content[0 := 7], granted := {FIRST},
                                   wire := [Frame(1, 0, 1, 7, false)])
    && s.world.ledger.open == {DRM_FD, PLANE_FD, KEPT_FENCE}
  }

  lemma Submitted() returns (s: Sys)
    ensures Reached(s) && Shown(s)
  {
    hide Reached;
    var s0 := Rendered();
    var reserve := DoReserve(FIRST, FENCE, KEPT_FENCE);
    SingleCall(s0.world.ledger, Dup(KEPT_FENCE));
    StepReached(s0, reserve);
    var s1 := Next(s0, reserve);
    s := SentOff(s1);
  }

  /** A reserved frame is sent and the submission finished. */
  lemma SentOff(s: Sys) returns (t: Sys)
    requires Reached(s) && s.world.call.Sending? && s.world.call.fence >= 0 && s.world.call.retained >= 0
    requires Shape(s) && s.world.call.sub.identity.slot < MAX_SLOTS
    ensures Reached(t)
    ensures
      var c := s.world.call;
      var sent := AfterTransmit(s, true, true);
      && t == AfterFinish(sent, 0).(world := t.world)
      && t.world == AfterFinish(sent, 0).world.(ledger := t.world.ledger)
      && t.world.ledger.open == s.world.ledger.open - {c.fence}
                                - (if s.pool.rel.latestFd >= 0 then {s.pool.rel.latestFd} else {})
  {
    hide Reached;
    var transmit, finish := Transmit(true, true), DoFinish(0);
    SingleCall(s.world.ledger, Close(s.world.call.fence));
    StepReached(s, transmit);
    var s1 := Next(s, transmit);
    SingleCall(s1.world.ledger, Close(s.pool.rel.latestFd));
    NoCalls(s1.world.ledger);
    StepReached(s1, finish);
    t := Next(s1, finish);
  }

  /** A run that shows a frame, sees it released and shows it again: two frames of one slot are on the wire, the
      second a repetition of the first under a later point, and the first one released. */
  lemma ShownTwice() returns (s: Sys)
    ensures Reached(s)
    ensures s.world.wire == [Frame(1, 0, 1, 7, false), Frame(1, 0, 2, 7, true)] && s.world.timeline == 1
    ensures s.pool.rel.point == 2 && s.pool.rel.latestValid && s.world.call.Idle?
  {
    hide Reached;
    var s0 := Submitted();
    NoCalls(s0.world.ledger);
    StepReached(s0, Signal(1));
    var s1 := Next(s0, Signal(1));
    var again := DoRepublish(Reading(1, 0), FENCE);
    SingleCall(s1.world.ledger, Dup(FENCE));
    StepReached(s1, again);
    var s2 := Next(s1, again);
    SingleCall(s2.world.ledger, Dup(8));
    StepReached(s2, Resubmit(8));
    var s3 := Next(s2, Resubmit(8));
    s := SentOff(s3);
  }
}
