/** The pool together with everything its promises are about: the frames put on the wire, the
    release timeline, what each slot shows, the identities handed out, the descriptors and slot
    allocations alive. A step is one critical section, or one act of the outside world; a run is
    any interleaving of steps. Apply, prepare and commit are two steps each: the check, which looks at
    the session and the open transaction, and the rest. The render thread makes them, so between the
    two nothing is granted and no other of them begins; anything else may happen. */
module PoolSystem {
  import opened Common
  import opened PoolSpec

  // ---------------------------------------------------------------- the outside world

  /** One `frame_ready`: `again` marks a republished frame, `content` is what the slot showed. */
  datatype Frame = Frame(generation: nat, slot: nat, point: nat, content: int, again: bool)

  /** Where the thread inside submit or republish stands between its critical sections. */
  datatype Call =
    | Idle
    | Holding(identity: Identity, fence: int)
    | Sending(sub: Submission, fence: int, retained: int, again: bool)
    | Sent(sub: Submission, retained: int, again: bool, ok: bool)

  /** The allocation call whose check has passed. */
  datatype Job = Applying(directive: Directive) | Preparing(directive: Directive, extent: Extent) | Committing

  /** Open descriptors, live slot allocations, slots just refused that a teardown has yet to free, and live
      backends. `fault` records a descriptor closed while not open, a slot freed that was neither live nor
      just refused, a slot allocated over one of those, or a backend dropped with slots left on it. */
  datatype Ledger = Ledger(
    open: set<int>, live: set<(nat, nat)>, refused: set<(nat, nat)>, backends: set<nat>, fault: bool)

  datatype World = World(
    wire: seq<Frame>, timeline: nat, content: seq<int>, granted: set<Identity>,
    rendering: bool, call: Call, job: Option<Job>, held: set<int>, ledger: Ledger)

  datatype Sys = Sys(pool: Pool, world: World)

  // ---------------------------------------------------------------- ledger

  function Perform(l: Ledger, e: Effect): Ledger {
    match e
    case Close(fd) => l.(open := l.open - {fd}, fault := l.fault || fd !in l.open)
    case Dup(fd) => l.(open := l.open + {fd})
    case Fork(b) => l.(backends := l.backends + {b})
    case Alloc(b, i, layout) =>
      l.(open := l.open + (set fd | fd in SlotFds(layout.plane)), live := l.live + {(b, i)},
         fault := l.fault || (b, i) in l.live + l.refused || b !in l.backends)
    case Refuse(b, i) =>
      l.(refused := l.refused + {(b, i)}, fault := l.fault || (b, i) in l.live + l.refused || b !in l.backends)
    case Free(b, i) =>
      l.(live := l.live - {(b, i)}, refused := l.refused - {(b, i)}, fault := l.fault || (b, i) !in l.live + l.refused)
    case Drop(b) =>
      l.(backends := l.backends - {b},
         fault := l.fault || b !in l.backends || exists x :: x in l.live + l.refused && x.0 == b)
  }

  function PerformAll(l: Ledger, effects: seq<Effect>): Ledger {
    if effects == [] then l
    else Perform(PerformAll(l, effects[..|effects| - 1]), effects[|effects| - 1])
  }

  predicate Distinct(fds: seq<int>) {
    forall i, j :: 0 <= i < j < |fds| ==> fds[i] != fds[j]
  }

  /** The kernel and the backend hand out only what is not in use. */
  predicate Fresh(l: Ledger, e: Effect) {
    match e
    case Dup(fd) => fd >= 0 && fd !in l.open
    case Fork(b) => b !in l.backends
    case Alloc(_, _, layout) =>
      Distinct(SlotFds(layout.plane)) && forall fd :: fd in SlotFds(layout.plane) ==> fd !in l.open
    case _ => true
  }

  predicate Honest(l: Ledger, effects: seq<Effect>) {
    effects != [] ==>
      var init, last := effects[..|effects| - 1], effects[|effects| - 1];
      Honest(l, init) && Fresh(PerformAll(l, init), last)
  }

  // ---------------------------------------------------------------- steps

  datatype Step =
    | Fence(fd: int)
    | DoAcquire(polls: seq<Reading>, viewRc: int)
    | Render(value: int)
    | DoAbort(identity: Identity)
    | DoReserve(identity: Identity, fence: int, dup: int)
    | DoRepublish(poll: Reading, dup: int)
    | Resubmit(dup: int)
    | Transmit(ok: bool, whole: bool)
    | DoFinish(rc: int)
    | Signal(time: nat)
    | Lose
    | Check(job: Job)
    | DoApply(directive: Directive, answers: seq<AllocAnswer>, sendRc: int)
    | DoPrepare(directive: Directive, extent: Extent, fork: ForkAnswer, answers: seq<AllocAnswer>)
    | DoAbortTarget
    | DoCommit(sendRc: int)

  /** The first critical section of apply, prepare and commit, with what is checked around it. */
  predicate Passes(p: Pool, job: Job) {
    match job
    case Applying(d) => ApplyRefusal(p, d) == 0
    case Preparing(d, extent) => PrepareRefusal(p, d, extent) == 0
    case Committing => p.candidate.Some? && !p.rel.lost && !Transacting(p.rel)
  }

  /** A pool whose session is not lost: the rest of a call does not look at that again. */
  function Calm(p: Pool): Pool { p.(rel := p.rel.(lost := false)) }

  /** What the rest of a call made of `Calm(p)`, with the loss of the session that came since the check. */
  function StillLost(p: Pool, q: Pool): Pool { q.(rel := q.rel.(lost := q.rel.lost || p.rel.lost)) }

  /** Later polls see later timeline values. */
  predicate Ordered(from: nat, polls: seq<Reading>) {
    && (forall i :: 0 <= i < |polls| ==> from <= polls[i].time)
    && (forall i, j :: 0 <= i < j < |polls| ==> polls[i].time <= polls[j].time)
  }

  function LastTime(from: nat, polls: seq<Reading>): nat {
    if polls == [] then from else polls[|polls| - 1].time
  }

  predicate Shape(s: Sys) {
    && |s.pool.rel.last| == MAX_SLOTS
    && |s.world.content| == MAX_SLOTS
    && BankShape(s.pool.bank)
    && (s.pool.candidate.Some? ==> BankShape(s.pool.candidate.value))
  }

  /** The kernel and backend calls a step makes. */
  function Effects(s: Sys, step: Step): seq<Effect>
    requires Shape(s) && Guard(s, step)
  {
    match step
    case Fence(fd) => [Dup(fd)]
    case DoAcquire(polls, viewRc) => TryAcquire(s.pool, polls, viewRc).2
    case DoReserve(id, fence, dup) => Reserve(s.pool, id, fence, dup).2
    case DoRepublish(poll, dup) => Republish(s.pool, poll, dup).2
    case Resubmit(dup) => Reserve(s.pool, s.world.call.identity, s.world.call.fence, dup).2
    case Transmit(ok, whole) => CloseIfOpen(s.world.call.fence)
    case DoFinish(rc) => Finish(s.pool, s.world.call.sub, s.world.call.retained, rc).2
    case DoApply(d, answers, sendRc) => Apply(s.pool, d, answers, sendRc).3
    case DoPrepare(d, extent, fork, answers) => Prepare(Calm(s.pool), d, extent, fork, answers).2
    case DoAbortTarget => AbortTarget(s.pool).1
    case DoCommit(sendRc) => Commit(Calm(s.pool), sendRc).4
    case _ => []
  }

  /** What the callers and the kernel respect: a renderer writes only while it holds a grant, presents
      fences it owns, never presents the identity republish holds internally, and polls read an
      ordered timeline. */
  predicate Guard(s: Sys, step: Step)
    requires Shape(s)
  {
    var w := s.world;
    match step
    case Fence(fd) => true
    case DoAcquire(polls, viewRc) => w.job.None? && s.pool.bank.count <= |polls| && Ordered(w.timeline, polls)
    case Render(value) => w.rendering && s.pool.rel.acquire.Some? && s.pool.rel.acquire.value.slot < MAX_SLOTS
    case DoAbort(id) => w.call.Holding? ==> id != w.call.identity
    case DoReserve(id, fence, dup) => (fence == -1 || fence in w.held) && (w.call.Holding? ==> id != w.call.identity)
    case DoRepublish(poll, dup) => w.job.None? && w.timeline <= poll.time
    case Resubmit(dup) => w.call.Holding?
    case Transmit(ok, whole) =>
      w.call.Sending? && w.call.sub.identity.slot < MAX_SLOTS && (ok ==> whole) && (whole ==> w.call.fence >= 0)
    case DoFinish(rc) => w.call.Sent? && (rc == 0 <==> w.call.ok)
    case Signal(time) => w.timeline <= time
    case Lose => true
    case Check(job) => w.job.None? && Passes(s.pool, job)
    case DoApply(d, answers, sendRc) => w.job == Some(Applying(d)) && GoodAnswers(answers)
    case DoPrepare(d, extent, fork, answers) =>
      w.job == Some(Preparing(d, extent)) && GoodAnswers(answers) && (fork.NoFork? ==> fork.rc != 0)
    case DoAbortTarget => w.job.None?
    case DoCommit(sendRc) => w.job == Some(Committing)
  }

  predicate Enabled(s: Sys, step: Step) {
    Shape(s) && Guard(s, step) && Honest(s.world.ledger, Effects(s, step))
  }

  function Next(s: Sys, step: Step): Sys
    requires Enabled(s, step)
  {
    var moved := Move(s, step);
    moved.(world := moved.world.(ledger := PerformAll(s.world.ledger, Effects(s, step))))
  }

  function AfterAcquire(s: Sys, polls: seq<Reading>, viewRc: int): Sys
    requires Shape(s) && s.pool.bank.count <= |polls|
  {
    var (p, r, _) := TryAcquire(s.pool, polls, viewRc);
    var w := s.world.(timeline := LastTime(s.world.timeline, polls));
    Sys(p, if r.Ready? then w.(granted := w.granted + {r.identity}, rendering := true) else w)
  }

  function AfterAbort(s: Sys, id: Identity): Sys {
    var (p, rc) := Abort(s.pool, id);
    Sys(p, s.world.(rendering := s.world.rendering && rc != 0))
  }

  /** Submit's first critical section, for a caller of submit or, with `again`, for republish. */
  function AfterReserve(s: Sys, id: Identity, fence: int, dup: int, again: bool): Sys {
    var (p, r, _) := Reserve(s.pool, id, fence, dup);
    var w := s.world.(held := s.world.held - {fence});
    Sys(p, match r
      case Reserved(sub, retained) => w.(call := Sending(sub, fence, retained, again), rendering := false)
      case _ => w.(rendering := w.rendering && p.rel.acquire.Some?, call := if again then Idle else w.call))
  }

  function AfterRepublish(s: Sys, poll: Reading, dup: int): Sys
    requires Shape(s)
  {
    var (p, r, _) := Republish(s.pool, poll, dup);
    var w := s.world.(timeline := poll.time);
    Sys(p, if r.Again? then w.(granted := w.granted + {r.identity}, call := Holding(r.identity, dup)) else w)
  }

  /** The send. It refuses a missing fence before it writes anything. A send that fails may have written the
      whole frame, or only a part of it, which no receiver ever takes for a frame. */
  function AfterTransmit(s: Sys, ok: bool, whole: bool): Sys
    requires s.world.call.Sending? && s.world.call.sub.identity.slot < |s.world.content|
  {
    var w, c := s.world, s.world.call;
    var id := c.sub.identity;
    var frame := Frame(id.generation, id.slot, c.sub.point, w.content[id.slot], c.again);
    Sys(s.pool, w.(wire := if whole then w.wire + [frame] else w.wire,
                   call := Sent(c.sub, c.retained, c.again, ok)))
  }

  function AfterFinish(s: Sys, rc: int): Sys
    requires s.world.call.Sent?
  {
    Sys(Finish(s.pool, s.world.call.sub, s.world.call.retained, rc).0, s.world.(call := Idle))
  }

  /** The new pool and world, ledger aside. */
  function Move(s: Sys, step: Step): Sys
    requires Shape(s) && Guard(s, step)
  {
    var p, w := s.pool, s.world;
    match step
    case Fence(fd) => Sys(p, w.(held := w.held + {fd}))
    case DoAcquire(polls, viewRc) => AfterAcquire(s, polls, viewRc)
    case Render(value) => Sys(p, w.(content := w.content[p.rel.acquire.value.slot := value]))
    case DoAbort(id) => AfterAbort(s, id)
    case DoReserve(id, fence, dup) => AfterReserve(s, id, fence, dup, false)
    case DoRepublish(poll, dup) => AfterRepublish(s, poll, dup)
    case Resubmit(dup) => AfterReserve(s, w.call.identity, w.call.fence, dup, true)
    case Transmit(ok, whole) => AfterTransmit(s, ok, whole)
    case DoFinish(rc) => AfterFinish(s, rc)
    case Signal(time) => Sys(p, w.(timeline := time))
    case Lose => Sys(p.(rel := p.rel.(lost := true)), w)
    case Check(job) => Sys(p, w.(job := Some(job)))
    case DoApply(d, answers, sendRc) => Sys(Apply(p, d, answers, sendRc).0, w.(job := None))
    case DoPrepare(d, extent, fork, answers) =>
      Sys(StillLost(p, Prepare(Calm(p), d, extent, fork, answers).0), w.(job := None))
    case DoAbortTarget => Sys(AbortTarget(p).0, w)
    case DoCommit(sendRc) => Sys(StillLost(p, Commit(Calm(p), sendRc).0), w.(job := None))
  }

  // ---------------------------------------------------------------- runs

  /** A pool just created: a backend, its drm descriptor, and nothing else. */
  predicate Init(s: Sys) {
    var p, w := s.pool, s.world;
    && Shape(s)
    && p.rel == NewRelease()
    && p.bank.count == 0 && !p.hasDirective && p.generation == 0 && p.candidate.None? && p.drmFd >= 0
    && w.wire == [] && w.granted == {} && !w.rendering && w.call.Idle? && w.job.None? && w.held == {}
    && w.ledger == Ledger({p.drmFd}, {}, {}, {p.bank.backend}, false)
  }

  predicate StepAt(states: seq<Sys>, steps: seq<Step>, i: nat) {
    && i < |steps| && i + 1 < |states|
    && Enabled(states[i], steps[i]) && states[i + 1] == Next(states[i], steps[i])
  }

  predicate Run(states: seq<Sys>, steps: seq<Step>) {
    && |states| == |steps| + 1
    && Init(states[0])
    && forall i {:trigger StepAt(states, steps, i)} :: 0 <= i < |steps| ==> StepAt(states, steps, i)
  }
}
