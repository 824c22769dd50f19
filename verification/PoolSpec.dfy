/** The buffer pool as values: the fields of the pool struct, and each critical section of the
    pool's functions as a function from the old fields and the answers of the outside world
    (timeline polls, duplicated descriptors, allocator and transport results) to the new fields,
    the result, and the kernel and backend calls made, in order. */
module PoolSpec {
  import opened Common

  const MAX_SLOTS: nat := 8
  const MAX_PLANES: nat := 4

  // ---------------------------------------------------------------- values

  datatype Identity = Identity(generation: nat, slot: nat, previous: nat, serial: nat)

  datatype Submission = Submission(identity: Identity, point: nat)

  /** The fields guarded by the release mutex. */
  datatype Release = Release(
    point: nat,
    last: seq<nat>,
    acquire: Option<Identity>,
    submit: Option<Submission>,
    lost: bool,
    slotCount: nat,
    nextSlot: nat,
    nextSerial: nat,
    latestFd: int,
    latestGeneration: nat,
    latestSlot: nat,
    latestValid: bool)

  datatype Plane = Plane(fd: int, stride: nat, offset: nat, size: nat)

  /** A slot layout: `planes` of the four plane records are in use, the rest are unset. */
  datatype Layout = Layout(planes: nat, plane: seq<Plane>, modifier: nat)

  const UNSET := Plane(-1, 0, 0, 0)
  const EMPTY_LAYOUT := Layout(0, [UNSET, UNSET, UNSET, UNSET], 0)
  function EmptySlots(): seq<Layout> { seq(MAX_SLOTS, i => EMPTY_LAYOUT) }

  datatype BufferPath = SameDevice | SameVendor | CompatLinear | CpuReadback | OtherPath
  datatype MemorySource = GpuNative | GpuLinear | DmabufHeap | OtherSource
  const SYNCOBJ_TIMELINE: nat := 4

  datatype Format = Format(fourcc: nat, modifier: nat, planeCount: nat)
  datatype Directive = Directive(
    format: Format, syncMode: nat, color: nat, memHint: nat, count: nat,
    path: BufferPath, source: MemorySource)
  const NO_DIRECTIVE := Directive(Format(0, 0, 0), 0, 0, 0, 0, SameDevice, GpuNative)

  datatype Extent = Extent(width: nat, height: nat)

  /** One allocation: a backend handle with the directive, extent and slots made on it. */
  datatype Bank = Bank(
    backend: nat, directive: Directive, extent: Extent, count: nat, slots: seq<Layout>)

  /** What the producer advertised; fixed once `advertise_caps` has run. */
  datatype Caps = Caps(advertised: bool, transactional: bool, formats: seq<Format>, probe: Extent, max: Extent)

  datatype Pool = Pool(
    rel: Release, bank: Bank, hasDirective: bool, generation: nat, candidate: Option<Bank>,
    caps: Caps, drmFd: int)

  /** A call that leaves the pool: into the kernel's descriptor table or into the backend. `Refuse` is an
      allocation refused for a slot that is counted all the same, so that a teardown will free it. */
  datatype Effect =
    | Close(fd: int)
    | Dup(fd: int)
    | Fork(backend: nat)
    | Alloc(backend: nat, slot: nat, layout: Layout)
    | Refuse(backend: nat, slot: nat)
    | Free(backend: nat, slot: nat)
    | Drop(backend: nat)

  // ---------------------------------------------------------------- timeline

  /** The answer to one poll: the timeline value seen, or an ioctl failure. */
  datatype Reading = Reading(time: nat, fault: int)

  /** `ww_drm_syncobj_timeline_wait`: point 0 was never submitted and counts as signalled. */
  function Wait(point: nat, r: Reading): int {
    if point == 0 then 0
    else if r.fault != 0 then r.fault
    else if point <= r.time then 0
    else ETIME
  }

  predicate WouldBlock(rc: int) { rc == ETIME || rc == ETIMEDOUT || rc == EAGAIN }

  // ---------------------------------------------------------------- release state

  /** The state of a zeroed pool. */
  function NewRelease(): Release {
    Release(0, seq(MAX_SLOTS, i => 0), None, None, false, 0, 0, 0, -1, 0, 0, false)
  }

  function ClearLatest(rel: Release): Release {
    rel.(latestFd := -1, latestGeneration := 0, latestSlot := 0, latestValid := false)
  }

  function ResetRelease(rel: Release): Release {
    ClearLatest(rel.(last := seq(MAX_SLOTS, i => 0), acquire := None, submit := None,
      slotCount := 0, nextSlot := 0, nextSerial := 1))
  }

  /** Closing a descriptor field: nothing happens when it is unset. */
  function CloseIfOpen(fd: int): seq<Effect> {
    if fd >= 0 then [Close(fd)] else []
  }

  // ---------------------------------------------------------------- acquire

  datatype AcquireResult =
    | Ready(identity: Identity, released: bool)
    | Busy
    | Lost
    | Failed(rc: int)

  predicate Transacting(rel: Release) { rel.acquire.Some? || rel.submit.Some? }

  function Rotated(next: nat, offset: nat, count: nat): (index: nat)
    requires count > 0
    ensures index < count
  {
    (next + offset) % count
  }

  /** The first offset, in rotation order from `next`, whose slot was never submitted; else `count`. */
  function FindUnused(last: seq<nat>, next: nat, count: nat, from: nat := 0): (k: nat)
    requires 0 < count <= |last| && from <= count
    ensures from <= k <= count
    ensures k < count ==> last[Rotated(next, k, count)] == 0
    ensures forall j :: from <= j < k ==> last[Rotated(next, j, count)] != 0
    decreases count - from
  {
    if from == count || last[Rotated(next, from, count)] == 0 then from
    else FindUnused(last, next, count, from + 1)
  }

  /** The first offset whose poll does not answer "would block"; else `count`. */
  function FindSettled(last: seq<nat>, next: nat, count: nat, polls: seq<Reading>, from: nat := 0): (k: nat)
    requires 0 < count <= |last| && count <= |polls| && from <= count
    ensures from <= k <= count
    ensures k < count ==> !WouldBlock(Wait(last[Rotated(next, k, count)], polls[k]))
    ensures forall j :: from <= j < k ==> WouldBlock(Wait(last[Rotated(next, j, count)], polls[j]))
    decreases count - from
  {
    if from == count || !WouldBlock(Wait(last[Rotated(next, from, count)], polls[from])) then from
    else FindSettled(last, next, count, polls, from + 1)
  }

  datatype Selection = Selected(slot: nat) | NoneReady | PollFault(rc: int)

  function Select(last: seq<nat>, next: nat, count: nat, polls: seq<Reading>): Selection
    requires 0 < count <= |last| && count <= |polls|
  {
    var unused := FindUnused(last, next, count);
    if unused < count then Selected(Rotated(next, unused, count))
    else
      var settled := FindSettled(last, next, count, polls);
      if settled == count then NoneReady
      else
        var slot := Rotated(next, settled, count);
        var rc := Wait(last[slot], polls[settled]);
        if rc == 0 then Selected(slot) else PollFault(rc)
  }

  /** `next_acquire_serial++` on a 64-bit counter. */
  function NextSerial(serial: nat): nat { (serial + 1) % U64_LIMIT }

  predicate Acquirable(p: Pool) {
    p.hasDirective && p.bank.count != 0 && p.rel.slotCount == p.bank.count
  }

  function Grant(p: Pool, slot: nat): Identity
    requires slot < |p.rel.last|
  {
    Identity(p.generation, slot, p.rel.last[slot], p.rel.nextSerial)
  }

  /** The slot holds the retained latest frame of this generation. */
  predicate Shows(p: Pool, slot: nat) {
    p.rel.latestValid && p.rel.latestGeneration == p.generation && p.rel.latestSlot == slot
  }

  /** The tail of acquire, once a slot is selected; `viewRc` is the backend's answer when asked for
      the slot's handle. The serial is drawn even when the grant fails. */
  function GrantSlot(p: Pool, slot: nat, viewRc: int): (Pool, AcquireResult, seq<Effect>)
    requires slot < |p.rel.last| && p.bank.count > 0
  {
    var drawn := p.rel.(nextSerial := NextSerial(p.rel.nextSerial));
    if p.rel.nextSerial == 0 then (p.(rel := drawn), Failed(EOVERFLOW), [])
    else if viewRc != 0 then (p.(rel := drawn), Failed(viewRc), [])
    else
      var kept := if Shows(p, slot) then ClearLatest(drawn) else drawn;
      var id := Grant(p, slot);
      (p.(rel := kept.(acquire := Some(id), nextSlot := (slot + 1) % p.bank.count)),
       Ready(id, id.previous != 0),
       if Shows(p, slot) then CloseIfOpen(p.rel.latestFd) else [])
  }

  /** `try_acquire_any_for_render`. */
  function TryAcquire(p: Pool, polls: seq<Reading>, viewRc: int): (Pool, AcquireResult, seq<Effect>)
    requires p.bank.count <= |p.rel.last| && p.bank.count <= |polls|
  {
    if p.rel.lost then (p, Lost, [])
    else if !Acquirable(p) then (p, Failed(EINVAL), [])
    else if Transacting(p.rel) then (p, Failed(EBUSY), [])
    else match Select(p.rel.last, p.rel.nextSlot, p.bank.count, polls)
      case PollFault(rc) => (p, Failed(rc), [])
      case NoneReady => (p, Busy, [])
      case Selected(slot) => GrantSlot(p, slot, viewRc)
  }

  // ---------------------------------------------------------------- abort

  function Abort(p: Pool, id: Identity): (Pool, int) {
    if p.rel.submit.Some? then (p, EBUSY)
    else if p.rel.acquire.None? then (p, ENOENT)
    else if p.rel.acquire.value != id then (p, ESTALE)
    else (p.(rel := p.rel.(acquire := None)), 0)
  }

  // ---------------------------------------------------------------- submit

  datatype ReserveResult =
    | Refused(rc: int)
    | Gone
    | Reserved(submission: Submission, retained: int)

  predicate Matches(p: Pool, id: Identity) {
    && p.hasDirective
    && id.slot < p.bank.count
    && id.generation == p.generation
    && p.rel.acquire == Some(id)
    && id.slot < |p.rel.last|
    && p.rel.last[id.slot] == id.previous
  }

  /** The first critical section of `submit_acquired_slot`, up to the send. `dup` is the duplicate
      of the acquire fence, or a negated errno. Every refusal closes the fence. */
  function Reserve(p: Pool, id: Identity, fence: int, dup: int): (Pool, ReserveResult, seq<Effect>) {
    var rel := p.rel;
    if rel.lost then (p, Gone, CloseIfOpen(fence))
    else if !Matches(p, id) then (p, Refused(ESTALE), CloseIfOpen(fence))
    else if rel.submit.Some? then (p, Refused(EBUSY), CloseIfOpen(fence))
    else if rel.point == U64_LIMIT - 1 then (p, Refused(EOVERFLOW), CloseIfOpen(fence))
    else if fence >= 0 && dup < 0 then
      (p.(rel := rel.(acquire := None)), Refused(dup), [Close(fence)])
    else
      var sub := Submission(id, rel.point + 1);
      (p.(rel := rel.(submit := Some(sub))),
       Reserved(sub, if fence >= 0 then dup else -1),
       if fence >= 0 then [Dup(dup)] else [])
  }

  /** A frame that was sent: the point is committed and the retained fence becomes the latest one. */
  function CommitFrame(rel: Release, sub: Submission, retained: int): Release {
    var done := rel.(submit := None, acquire := None, point := sub.point,
      last := if sub.identity.slot < |rel.last| then rel.last[sub.identity.slot := sub.point] else rel.last);
    if retained >= 0 then
      done.(latestFd := retained, latestGeneration := sub.identity.generation,
            latestSlot := sub.identity.slot, latestValid := true)
    else done
  }

  /** The second critical section, entered after the send returned `rc`. */
  function Finish(p: Pool, sub: Submission, retained: int, rc: int): (Pool, bool, seq<Effect>) {
    if rc != 0 then (p.(rel := p.rel.(submit := None, acquire := None, lost := true)), false, CloseIfOpen(retained))
    else (p.(rel := CommitFrame(p.rel, sub, retained)), true, if retained >= 0 then CloseIfOpen(p.rel.latestFd) else [])
  }

  // ---------------------------------------------------------------- republish

  datatype RepublishResult =
    | SessionGone
    | NoContent
    | StillBusy(rc: int)
    | Error(rc: int)
    | Again(identity: Identity)

  predicate HasContent(p: Pool) {
    p.hasDirective && p.rel.latestValid && p.rel.latestFd >= 0
    && p.rel.latestGeneration == p.generation && p.rel.latestSlot < p.bank.count
  }

  /** `try_republish_latest` up to its call of submit. `Again` carries the identity it submits. */
  function Republish(p: Pool, poll: Reading, dup: int): (Pool, RepublishResult, seq<Effect>)
    requires p.bank.count <= |p.rel.last|
  {
    var rel := p.rel;
    if rel.lost then (p, SessionGone, [])
    else if !HasContent(p) then (p, NoContent, [])
    else if Transacting(rel) then (p, StillBusy(EBUSY), [])
    else
      var rc := Wait(rel.last[rel.latestSlot], poll);
      if rc != 0 then (p, if WouldBlock(rc) then StillBusy(0) else Error(rc), [])
      else
        var drawn := rel.(nextSerial := NextSerial(rel.nextSerial));
        if rel.nextSerial == 0 then (p.(rel := drawn), Error(EOVERFLOW), [])
        else if dup < 0 then (p.(rel := drawn), Error(dup), [])
        else
          var id := Grant(p, rel.latestSlot);
          (p.(rel := drawn.(acquire := Some(id))), Again(id), [Dup(dup)])
  }

  // ---------------------------------------------------------------- allocation

  /** Descriptors of one slot, plane by plane. */
  function SlotFds(planes: seq<Plane>): seq<int> {
    if planes == [] then []
    else SlotFds(planes[..|planes| - 1]) + (if planes[|planes| - 1].fd >= 0 then [planes[|planes| - 1].fd] else [])
  }

  /** Descriptors of the first `count` slots, in slot order. */
  function BankFds(slots: seq<Layout>, count: nat): seq<int>
    requires count <= |slots|
  {
    if count == 0 then [] else BankFds(slots, count - 1) + SlotFds(slots[count - 1].plane)
  }

  function Closes(fds: seq<int>): (r: seq<Effect>)
    ensures |r| == |fds| && forall i :: 0 <= i < |fds| ==> r[i] == Close(fds[i])
  {
    seq(|fds|, i requires 0 <= i < |fds| => Close(fds[i]))
  }

  function Frees(backend: nat, count: nat): (r: seq<Effect>)
    ensures |r| == count && forall i :: 0 <= i < count ==> r[i] == Free(backend, i)
  {
    seq(count, i requires 0 <= i < count => Free(backend, i))
  }

  /** What `teardown_slots` calls on a bank, before it resets the release state. */
  function Teardown(b: Bank): seq<Effect>
    requires b.count <= |b.slots|
  {
    Frees(b.backend, b.count) + Closes(BankFds(b.slots, b.count))
  }

  datatype AllocAnswer = Granted(layout: Layout) | Denied(rc: int)

  /** How many of the first `count` allocations succeed before the first failure. */
  function GrantedPrefix(answers: seq<AllocAnswer>, count: nat, from: nat := 0): (n: nat)
    requires from <= count <= |answers|
    ensures from <= n <= count
    ensures forall i :: from <= i < n ==> answers[i].Granted?
    ensures n < count ==> answers[n].Denied?
    decreases count - from
  {
    if from == count || answers[from].Denied? then from
    else GrantedPrefix(answers, count, from + 1)
  }

  function Filled(answers: seq<AllocAnswer>, n: nat): (slots: seq<Layout>)
    requires n <= |answers| && n <= MAX_SLOTS && forall i :: 0 <= i < n ==> answers[i].Granted?
    ensures |slots| == MAX_SLOTS
  {
    seq(MAX_SLOTS, i requires 0 <= i < MAX_SLOTS => if i < n then answers[i].layout else EMPTY_LAYOUT)
  }

  function Allocs(backend: nat, answers: seq<AllocAnswer>, n: nat): (r: seq<Effect>)
    requires n <= |answers| && forall i :: 0 <= i < n ==> answers[i].Granted?
    ensures |r| == n && forall i :: 0 <= i < n ==> r[i] == Alloc(backend, i, answers[i].layout)
  {
    seq(n, i requires 0 <= i < n => Alloc(backend, i, answers[i].layout))
  }

  /** The refusal that ended a run of `n` allocations short of `count`. */
  function Refusal(backend: nat, n: nat, count: nat): seq<Effect> {
    if n < count then [Refuse(backend, n)] else []
  }

  function ValidateDirective(caps: Caps, d: Directive): int {
    if d.count == 0 || d.count > MAX_SLOTS then EINVAL
    else if caps.probe.width == 0 || caps.probe.height == 0 then EINVAL
    else if d.path == CpuReadback then EOPNOTSUPP
    else if d.path == OtherPath then EINVAL
    else if d.source == DmabufHeap then EOPNOTSUPP
    else if d.source == OtherSource then EINVAL
    else if d.path != CompatLinear
      && !exists i :: 0 <= i < |caps.formats| && caps.formats[i].fourcc == d.format.fourcc
                      && caps.formats[i].modifier == d.format.modifier
    then EOPNOTSUPP
    else if d.syncMode != SYNCOBJ_TIMELINE then EOPNOTSUPP
    else 0
  }

  // ---------------------------------------------------------------- bind_buffers

  /** The `bind_buffers` announcement; `entries` zips the four flattened parallel arrays. */
  datatype Announcement = Announcement(
    generation: nat, hostVisible: bool, count: nat, format: Format, extent: Extent, entries: seq<Plane>)

  predicate WellShaped(l: Layout) { |l.plane| == MAX_PLANES }

  predicate BankShape(b: Bank) {
    b.count <= MAX_SLOTS && |b.slots| == MAX_SLOTS
    && forall i :: 0 <= i < MAX_SLOTS ==> WellShaped(b.slots[i])
  }

  predicate UniformPlanes(b: Bank)
    requires BankShape(b)
  {
    && 0 < b.count
    && 0 < b.slots[0].planes <= MAX_PLANES
    && forall i :: 0 < i < b.count ==> b.slots[i].planes == b.slots[0].planes
  }

  /** The plane records of the first `count` slots, `planes` of each, slot by slot. */
  function Flatten(slots: seq<Layout>, planes: nat, count: nat): seq<Plane>
    requires count <= |slots| && planes <= MAX_PLANES
    requires forall i :: 0 <= i < count ==> WellShaped(slots[i])
    decreases count
  {
    if count == 0 then []
    else
      assert WellShaped(slots[count - 1]);
      Flatten(slots, planes, count - 1) + slots[count - 1].plane[..planes]
  }

  /** Where a plane ends up: entry `s * planes + pl` of the announcement is plane `pl` of slot `s`. */
  lemma {:induction false} FlattenAt(slots: seq<Layout>, planes: nat, count: nat, s: nat, pl: nat)
    requires count <= |slots| && planes <= MAX_PLANES && s < count && pl < planes
    requires forall i :: 0 <= i < count ==> WellShaped(slots[i])
    ensures |Flatten(slots, planes, count)| == count * planes
    ensures s * planes + pl < count * planes
    ensures Flatten(slots, planes, count)[s * planes + pl] == slots[s].plane[pl]
    decreases count
  {
    assert WellShaped(slots[count - 1]);
    assert count * planes == (count - 1) * planes + planes;
    if s < count - 1 {
      FlattenAt(slots, planes, count - 1, s, pl);
    } else {
      FlattenLength(slots, planes, count - 1);
    }
  }

  lemma {:induction false} FlattenLength(slots: seq<Layout>, planes: nat, count: nat)
    requires count <= |slots| && planes <= MAX_PLANES
    requires forall i :: 0 <= i < count ==> WellShaped(slots[i])
    ensures |Flatten(slots, planes, count)| == count * planes
    decreases count
  {
    if count > 0 {
      FlattenLength(slots, planes, count - 1);
      assert WellShaped(slots[count - 1]);
      assert count * planes == (count - 1) * planes + planes;
    }
  }

  function Describe(b: Bank, generation: nat): Announcement
    requires BankShape(b) && UniformPlanes(b)
  {
    Announcement(
      generation,
      b.directive.source == GpuLinear || b.directive.source == DmabufHeap,
      b.count,
      Format(b.directive.format.fourcc, b.slots[0].modifier, b.slots[0].planes),
      b.extent,
      Flatten(b.slots, b.slots[0].planes, b.count))
  }

  /** `emit_bind_buffers`; `sendRc` is the transport's answer. The generation is consumed even when
      the announcement fails. */
  function Emit(p: Pool, sendRc: int): (Pool, int, Option<Announcement>)
    requires BankShape(p.bank)
  {
    if p.bank.count == 0 then (p, EINVAL, None)
    else
      var bumped := p.(generation := p.generation + 1, rel := p.rel.(slotCount := p.bank.count));
      if !UniformPlanes(p.bank) then (bumped, EINVAL, None)
      else (bumped, sendRc, Some(Describe(p.bank, bumped.generation)))
  }

  // ---------------------------------------------------------------- apply

  /** What `apply_directive` refuses before it touches anything. */
  function ApplyRefusal(p: Pool, d: Directive): int {
    if !p.caps.advertised then EINVAL
    else if p.candidate.Some? then EBUSY
    else if Transacting(p.rel) then EBUSY
    else ValidateDirective(p.caps, d)
  }

  predicate GoodAnswers(answers: seq<AllocAnswer>) {
    && MAX_SLOTS <= |answers|
    && (forall i :: 0 <= i < |answers| && answers[i].Granted? ==> WellShaped(answers[i].layout))
    && (forall i :: 0 <= i < |answers| && answers[i].Denied? ==> answers[i].rc != 0)
  }

  /** The bank a run of `n` successful allocations leaves. */
  function Build(backend: nat, d: Directive, extent: Extent, answers: seq<AllocAnswer>, n: nat, count: nat): Bank
    requires GoodAnswers(answers) && n <= count <= MAX_SLOTS
    requires forall i :: 0 <= i < n ==> answers[i].Granted?
    ensures BankShape(Build(backend, d, extent, answers, n, count))
  {
    Bank(backend, d, extent, count, Filled(answers, n))
  }

  /** `apply_directive`. */
  function Apply(p: Pool, d: Directive, answers: seq<AllocAnswer>, sendRc: int)
    : (Pool, int, Option<Announcement>, seq<Effect>)
    requires BankShape(p.bank) && GoodAnswers(answers)
  {
    if ApplyRefusal(p, d) != 0 then (p, ApplyRefusal(p, d), None, [])
    else
      var n := GrantedPrefix(answers, d.count);
      var bank := Build(p.bank.backend, d, p.caps.probe, answers, n, n);
      var base := p.(rel := ResetRelease(p.rel), hasDirective := true, bank := bank);
      var made := Teardown(p.bank) + CloseIfOpen(p.rel.latestFd) + Allocs(p.bank.backend, answers, n);
      if n < d.count then
        (base.(bank := bank.(count := 0, slots := EmptySlots())), answers[n].rc, None, made + Teardown(bank))
      else
        var (bound, rc, msg) := Emit(base, sendRc);
        (bound, rc, msg, made)
  }

  datatype FailureKind = Unsupported | AllocatorRejected | ResourceExhausted
  datatype BindFailure = BindFailure(format: Format, kind: FailureKind)

  /** The `bind_failed` that `apply_directive` sends instead of an announcement, if any. */
  function ApplyReport(p: Pool, d: Directive, answers: seq<AllocAnswer>): Option<BindFailure>
    requires GoodAnswers(answers)
  {
    if !p.caps.advertised || p.candidate.Some? || Transacting(p.rel) then None
    else if ValidateDirective(p.caps, d) != 0 then Some(BindFailure(d.format, Unsupported))
    else
      var n := GrantedPrefix(answers, d.count);
      if n == d.count then None
      else Some(BindFailure(d.format, if n == 0 then AllocatorRejected else ResourceExhausted))
  }

  /** A daemon that asked for buffers gets exactly one answer whenever nothing was in the way: an announcement,
      or a failure, which says "unsupported" exactly when the old buffers are still there and "resource
      exhausted" exactly when the first slot had been granted; only a bank with mixed planes gets none. */
  lemma ApplyAnswers(p: Pool, d: Directive, answers: seq<AllocAnswer>, sendRc: int)
    requires BankShape(p.bank) && GoodAnswers(answers)
    requires p.caps.advertised && p.candidate.None? && !Transacting(p.rel)
    ensures
      var (t, rc, msg, effects) := Apply(p, d, answers, sendRc);
      var report := ApplyReport(p, d, answers);
      && !(msg.Some? && report.Some?)
      && (msg.None? && report.None? <==> t.bank.count > 0 && !UniformPlanes(t.bank) && t.generation == p.generation + 1)
      && (report.Some? ==> rc != 0 && t.generation == p.generation && report.value.format == d.format)
      && (report.Some? && report.value.kind == Unsupported <==> ValidateDirective(p.caps, d) != 0)
      && (report.Some? && report.value.kind == Unsupported ==> t == p && effects == [])
      && (report.Some? && report.value.kind != Unsupported ==> t.bank.count == 0)
      && (report.Some? && report.value.kind == ResourceExhausted ==> answers[0].Granted?)
      && (report.Some? && report.value.kind == AllocatorRejected ==> answers[0].Denied?)
  {
  }

  // ---------------------------------------------------------------- prepare, abort, commit

  /** `abort_target`: the candidate's slots go back, then its backend. */
  function AbortTarget(p: Pool): (Pool, seq<Effect>)
    requires p.candidate.Some? ==> BankShape(p.candidate.value)
  {
    if p.candidate.None? then (p, [])
    else (p.(candidate := None), Teardown(p.candidate.value) + [Drop(p.candidate.value.backend)])
  }

  /** What `prepare_target` refuses before it forks the backend. */
  function PrepareRefusal(p: Pool, d: Directive, extent: Extent): int {
    if !p.caps.advertised || extent.width == 0 || extent.height == 0 then EINVAL
    else if !p.caps.transactional then EOPNOTSUPP
    else if p.candidate.Some? then EBUSY
    else if extent.width > p.caps.max.width || extent.height > p.caps.max.height then ERANGE
    else if p.rel.lost then EPIPE
    else if Transacting(p.rel) then EBUSY
    else ValidateDirective(p.caps, d)
  }

  /** The backend's answer to a fork: a new handle, or a refusal. */
  datatype ForkAnswer = Forked(backend: nat) | NoFork(rc: int)

  /** `prepare_target`. A slot is counted before it is allocated, so that the teardown after a refused
      allocation frees the refused slot too. */
  function Prepare(p: Pool, d: Directive, extent: Extent, fork: ForkAnswer, answers: seq<AllocAnswer>)
    : (Pool, int, seq<Effect>)
    requires GoodAnswers(answers)
  {
    if PrepareRefusal(p, d, extent) != 0 then (p, PrepareRefusal(p, d, extent), [])
    else match fork
      case NoFork(rc) => (p, rc, [])
      case Forked(backend) =>
        var n := GrantedPrefix(answers, d.count);
        var made := [Fork(backend)] + Allocs(backend, answers, n) + Refusal(backend, n, d.count);
        if n < d.count then
          (p, answers[n].rc, made + Teardown(Build(backend, d, extent, answers, n, n + 1)) + [Drop(backend)])
        else (p.(candidate := Some(Build(backend, d, extent, answers, n, n))), 0, made)
  }

  /** `commit_target`. The third component is the generation reported to the caller. */
  function Commit(p: Pool, sendRc: int): (Pool, int, Option<nat>, Option<Announcement>, seq<Effect>)
    requires BankShape(p.bank)
    requires p.candidate.Some? ==> BankShape(p.candidate.value)
  {
    if p.candidate.None? then (p, EINVAL, None, None, [])
    else if p.rel.lost then (p, EPIPE, None, None, [])
    else if Transacting(p.rel) then (p, EBUSY, None, None, [])
    else
      var swapped := p.(bank := p.candidate.value, candidate := Some(p.bank), hasDirective := true,
                        rel := ResetRelease(p.rel));
      var (bound, rc, msg) := Emit(swapped, sendRc);
      var marked := if rc != 0 then bound.(rel := bound.rel.(lost := true)) else bound;
      var (final, down) := AbortTarget(marked);
      (final, rc, Some(bound.generation), msg, CloseIfOpen(p.rel.latestFd) + down)
  }

  /** `destroy`: nothing of the pool is left afterwards, so only the calls made are of interest. */
  function Destroy(p: Pool): seq<Effect>
    requires BankShape(p.bank)
    requires p.candidate.Some? ==> BankShape(p.candidate.value)
  {
    AbortTarget(p).1 + Teardown(p.bank) + CloseIfOpen(p.rel.latestFd) + [Drop(p.bank.backend)] + CloseIfOpen(p.drmFd)
  }
}
