/** The pool as the C code has it: an object whose fields the calls update in place, with loops over
    the slot arrays. Every method is proved to do exactly what the function of the same name in
    `PoolSpec` says, on the fields and on the calls made to the kernel and the backend. The calls of
    a transaction touch release fields only, as their `modifies` clauses say. */
module PoolObject {
  import opened Common
  import opened PoolSpec
  import Arithmetic
  import PoolWaiting

  /** The calls made so far into the kernel's descriptor table and the backend. */
  class Journal {
    ghost var log: seq<Effect>

    constructor ()
      ensures log == []
    {
      log := [];
    }

    method Note(e: Effect)
      modifies this
      ensures log == old(log) + [e]
    {
      log := log + [e];
    }

    method CloseFd(fd: int)
      modifies this
      ensures log == old(log) + CloseIfOpen(fd)
    {
      if fd >= 0 { Note(Close(fd)); }
    }
  }

  class Pool {
    const journal: Journal
    const caps: Caps
    const drmFd: int

    var backend: nat
    var point: nat
    const last: array<nat>
    var pendingAcquire: Option<Identity>
    var pendingSubmit: Option<Submission>
    var sessionLost: bool
    var releaseSlotCount: nat
    var nextSlot: nat
    var nextSerial: nat
    var latestFd: int
    var latestGeneration: nat
    var latestSlot: nat
    var latestValid: bool

    var directive: Directive
    var extent: Extent
    var hasDirective: bool
    var bindGeneration: nat
    const slots: array<Layout>
    var nSlots: nat
    var candidate: Pool?

    ghost predicate Shaped()
      reads this, last, slots
    {
      && last.Length == MAX_SLOTS && slots.Length == MAX_SLOTS && nSlots <= MAX_SLOTS
      && forall i :: 0 <= i < MAX_SLOTS ==> WellShaped(slots[i])
    }

    ghost predicate Valid()
      reads this, last, slots, candidate, if candidate != null then {candidate.last, candidate.slots} else {}
    {
      && Shaped()
      && (candidate != null ==>
            && candidate != this && candidate.last != last && candidate.slots != slots
            && candidate.journal == journal && candidate.Shaped() && candidate.candidate == null
            && candidate.latestFd == -1)
    }

    ghost function Rel(): Release
      reads this, last
    {
      Release(point, last[..], pendingAcquire, pendingSubmit, sessionLost, releaseSlotCount, nextSlot,
        nextSerial, latestFd, latestGeneration, latestSlot, latestValid)
    }

    ghost function BankView(): Bank
      reads this, slots
    {
      Bank(backend, directive, extent, nSlots, slots[..])
    }

    /** The object as a value of `PoolSpec`. */
    ghost function Snap(): PoolSpec.Pool
      reads this, last, slots, candidate, if candidate != null then {candidate.slots} else {}
    {
      PoolSpec.Pool(Rel(), BankView(), hasDirective, bindGeneration,
        if candidate == null then None else Some(candidate.BankView()), caps, drmFd)
    }

    /** A zeroed struct around a backend handle, with every slot descriptor unset. */
    constructor (journal: Journal, caps: Caps, backend: nat, drmFd: int)
      ensures Valid() && fresh(last) && fresh(slots)
      ensures this.journal == journal && this.caps == caps && this.drmFd == drmFd && candidate == null
      ensures Snap() == PoolSpec.Pool(NewRelease(), Bank(backend, NO_DIRECTIVE, Extent(0, 0), 0, EmptySlots()),
                          false, 0, None, caps, drmFd)
    {
      this.journal, this.caps, this.drmFd, this.backend := journal, caps, drmFd, backend;
      last := new nat[MAX_SLOTS](i => 0);
      slots := new Layout[MAX_SLOTS](i => EMPTY_LAYOUT);
      point, pendingAcquire, pendingSubmit, sessionLost := 0, None, None, false;
      releaseSlotCount, nextSlot, nextSerial := 0, 0, 0;
      latestFd, latestGeneration, latestSlot, latestValid := -1, 0, 0, false;
      directive, extent, hasDirective, bindGeneration, nSlots := NO_DIRECTIVE, Extent(0, 0), false, 0, 0;
      candidate := null;
      new;
      assert last[..] == seq(MAX_SLOTS, i => 0);
      assert slots[..] == EmptySlots();
    }

    // -------------------------------------------------------------- release state

    method ClearLatestContent()
      modifies this`latestFd, this`latestGeneration, this`latestSlot, this`latestValid, journal
      ensures Rel() == ClearLatest(old(Rel()))
      ensures journal.log == old(journal.log) + CloseIfOpen(old(latestFd))
    {
      journal.CloseFd(latestFd);
      latestFd, latestGeneration, latestSlot, latestValid := -1, 0, 0, false;
    }

    method ResetReleaseState()
      requires last.Length == MAX_SLOTS
      modifies this`latestFd, this`latestGeneration, this`latestSlot, this`latestValid, journal
      modifies this`pendingAcquire, this`pendingSubmit, this`releaseSlotCount, this`nextSlot, this`nextSerial, last
      ensures Rel() == ResetRelease(old(Rel()))
      ensures journal.log == old(journal.log) + CloseIfOpen(old(latestFd))
    {
      for i := 0 to MAX_SLOTS
        modifies last
        invariant forall j :: 0 <= j < i ==> last[j] == 0
      {
        last[i] := 0;
      }
      pendingAcquire, pendingSubmit := None, None;
      ClearLatestContent();
      releaseSlotCount, nextSlot, nextSerial := 0, 0, 1;
      assert last[..] == seq(MAX_SLOTS, i => 0);
    }

    // -------------------------------------------------------------- transactions

    /** The two scans of acquire: an unused slot first, else one whose point has been released. */
    method SelectSlot(polls: seq<Reading>) returns (r: Selection)
      requires Shaped() && 0 < nSlots <= |polls|
      ensures r == Select(last[..], nextSlot, nSlots, polls)
      ensures r.Selected? ==> r.slot < nSlots
    {
      var offset := 0;
      while offset < nSlots
        invariant 0 <= offset <= nSlots
        invariant FindUnused(last[..], nextSlot, nSlots) == FindUnused(last[..], nextSlot, nSlots, offset)
      {
        var index := Rotated(nextSlot, offset, nSlots);
        if last[index] == 0 { return Selected(index); }
        offset := offset + 1;
      }
      offset := 0;
      while offset < nSlots
        invariant 0 <= offset <= nSlots
        invariant FindSettled(last[..], nextSlot, nSlots, polls) == FindSettled(last[..], nextSlot, nSlots, polls, offset)
      {
        var index := Rotated(nextSlot, offset, nSlots);
        var rc := Wait(last[index], polls[offset]);
        if rc == 0 { return Selected(index); }
        if !WouldBlock(rc) { return PollFault(rc); }
        offset := offset + 1;
      }
      r := NoneReady;
    }

    method GrantSlot(selected: nat, viewRc: int) returns (r: AcquireResult)
      requires Valid() && selected < nSlots
      modifies this`latestFd, this`latestGeneration, this`latestSlot, this`latestValid, journal
      modifies this`nextSerial, this`pendingAcquire, this`nextSlot
      ensures
        var (p, expected, effects) := PoolSpec.GrantSlot(old(Snap()), selected, viewRc);
        p == old(Snap()).(rel := Rel()) && r == expected && journal.log == old(journal.log) + effects
    {
      var serial := nextSerial;
      nextSerial := NextSerial(nextSerial);
      if serial == 0 { return Failed(EOVERFLOW); }
      var identity := Identity(bindGeneration, selected, last[selected], serial);
      if viewRc != 0 { return Failed(viewRc); }
      if latestValid && latestGeneration == bindGeneration && latestSlot == selected {
        ClearLatestContent();
      }
      pendingAcquire := Some(identity);
      nextSlot := (selected + 1) % nSlots;
      r := Ready(identity, identity.previous != 0);
    }

    method TryAcquire(polls: seq<Reading>, viewRc: int) returns (r: AcquireResult)
      requires Valid() && nSlots <= |polls|
      modifies this`latestFd, this`latestGeneration, this`latestSlot, this`latestValid, journal
      modifies this`nextSerial, this`pendingAcquire, this`nextSlot
      ensures Valid()
      ensures
        var (p, expected, effects) := PoolSpec.TryAcquire(old(Snap()), polls, viewRc);
        p == old(Snap()).(rel := Rel()) && r == expected && journal.log == old(journal.log) + effects
    {
      hide Select, PoolSpec.GrantSlot, Wait;
      if sessionLost { return Lost; }
      if !hasDirective || nSlots == 0 || releaseSlotCount != nSlots { return Failed(EINVAL); }
      if pendingAcquire.Some? || pendingSubmit.Some? { return Failed(EBUSY); }
      var selection := SelectSlot(polls);
      if selection.PollFault? { return Failed(selection.rc); }
      if selection.NoneReady? { return Busy; }
      r := GrantSlot(selection.slot, viewRc);
    }

    method AbortAcquiredSlot(identity: Identity) returns (rc: int)
      requires Valid()
      modifies this`pendingAcquire
      ensures Valid()
      ensures Abort(old(Snap()), identity).0 == old(Snap()).(rel := Rel()) && rc == Abort(old(Snap()), identity).1
    {
      if pendingSubmit.Some? { return EBUSY; }
      if pendingAcquire.None? { return ENOENT; }
      if pendingAcquire.value != identity { return ESTALE; }
      pendingAcquire := None;
      rc := 0;
    }

    /** The first critical section of submit; the send follows outside the lock. */
    method SubmitReserve(identity: Identity, fence: int, dup: int) returns (r: ReserveResult)
      requires Valid()
      modifies this`pendingAcquire, this`pendingSubmit, journal
      ensures Valid()
      ensures
        var (p, expected, effects) := Reserve(old(Snap()), identity, fence, dup);
        p == old(Snap()).(rel := Rel()) && r == expected && journal.log == old(journal.log) + effects
    {
      if sessionLost {
        journal.CloseFd(fence);
        return Gone;
      }
      if !hasDirective || identity.slot >= nSlots || identity.generation != bindGeneration
        || pendingAcquire != Some(identity) || last[identity.slot] != identity.previous
      {
        journal.CloseFd(fence);
        return Refused(ESTALE);
      }
      if pendingSubmit.Some? {
        journal.CloseFd(fence);
        return Refused(EBUSY);
      }
      if point == U64_LIMIT - 1 {
        journal.CloseFd(fence);
        return Refused(EOVERFLOW);
      }
      var retained := -1;
      if fence >= 0 {
        retained := dup;
        if retained < 0 {
          pendingAcquire := None;
          journal.CloseFd(fence);
          return Refused(dup);
        }
        journal.Note(Dup(dup));
      }
      var sub := Submission(identity, point + 1);
      pendingSubmit := Some(sub);
      r := Reserved(sub, retained);
    }

    method CommitFrame(sub: Submission, retained: int)
      requires last.Length == MAX_SLOTS && sub.identity.slot < MAX_SLOTS
      modifies this`latestFd, this`latestGeneration, this`latestSlot, this`latestValid, journal
      modifies this`point, this`pendingAcquire, this`pendingSubmit, last
      ensures Rel() == PoolSpec.CommitFrame(old(Rel()), sub, retained)
      ensures journal.log == old(journal.log) + if retained >= 0 then CloseIfOpen(old(latestFd)) else []
    {
      point := sub.point;
      last[sub.identity.slot] := sub.point;
      if retained >= 0 {
        ClearLatestContent();
        latestFd, latestGeneration, latestSlot, latestValid := retained, sub.identity.generation, sub.identity.slot, true;
      }
      pendingSubmit, pendingAcquire := None, None;
      assert last[..] == old(last[..])[sub.identity.slot := sub.point];
    }

    /** The second critical section of submit, after the send answered `rc`. */
    method SubmitFinish(sub: Submission, retained: int, rc: int) returns (ok: bool)
      requires Valid() && sub.identity.slot < MAX_SLOTS
      modifies this`latestFd, this`latestGeneration, this`latestSlot, this`latestValid, journal
      modifies this`point, this`sessionLost, this`pendingAcquire, this`pendingSubmit, last
      ensures Valid()
      ensures
        var (p, expected, effects) := Finish(old(Snap()), sub, retained, rc);
        p == old(Snap()).(rel := Rel()) && ok == expected && journal.log == old(journal.log) + effects
    {
      ok := rc == 0;
      if ok {
        CommitFrame(sub, retained);
      } else {
        journal.CloseFd(retained);
        pendingSubmit, pendingAcquire, sessionLost := None, None, true;
      }
    }

    /** Republish up to the point where it calls submit with the identity it drew. */
    method TryRepublishLatest(poll: Reading, dup: int) returns (r: RepublishResult)
      requires Valid()
      modifies this`nextSerial, this`pendingAcquire, journal
      ensures Valid()
      ensures
        var (p, expected, effects) := Republish(old(Snap()), poll, dup);
        p == old(Snap()).(rel := Rel()) && r == expected && journal.log == old(journal.log) + effects
    {
      if sessionLost { return SessionGone; }
      if !hasDirective || !latestValid || latestFd < 0 || latestGeneration != bindGeneration || latestSlot >= nSlots {
        return NoContent;
      }
      if pendingAcquire.Some? || pendingSubmit.Some? { return StillBusy(EBUSY); }
      var previous := last[latestSlot];
      if previous != 0 {
        var rc := Wait(previous, poll);
        if rc != 0 { return if WouldBlock(rc) then StillBusy(0) else Error(rc); }
      }
      var serial := nextSerial;
      nextSerial := NextSerial(nextSerial);
      if serial == 0 { return Error(EOVERFLOW); }
      if dup < 0 { return Error(dup); }
      journal.Note(Dup(dup));
      var identity := Identity(bindGeneration, latestSlot, previous, serial);
      pendingAcquire := Some(identity);
      r := Again(identity);
    }

    /** The point the blocking acquire waits for. */
    method NextReleasePoint() returns (next: nat)
      requires Valid() && releaseSlotCount <= MAX_SLOTS
      ensures next == PoolWaiting.NextPoint(last[..], releaseSlotCount)
    {
      next := U64_LIMIT - 1;
      for index := 0 to releaseSlotCount
        invariant next == PoolWaiting.NextPoint(last[..], index)
      {
        if last[index] != 0 && last[index] < next { next := last[index]; }
      }
    }

    // -------------------------------------------------------------- slots

    /** `close_slot_fds` over one slot. */
    method CloseSlot(i: nat)
      requires Shaped() && i < MAX_SLOTS
      modifies slots, journal
      ensures Shaped() && forall j :: 0 <= j < MAX_SLOTS && j != i ==> slots[j] == old(slots[j])
      ensures journal.log == old(journal.log) + Closes(SlotFds(old(slots[i].plane)))
    {
      ghost var planes := slots[i].plane;
      for pl := 0 to MAX_PLANES
        invariant Shaped() && forall j :: 0 <= j < MAX_SLOTS && j != i ==> slots[j] == old(slots[j])
        invariant forall k :: pl <= k < MAX_PLANES ==> slots[i].plane[k] == planes[k]
        invariant journal.log == old(journal.log) + Closes(SlotFds(planes[..pl]))
      {
        SlotFdsStep(planes, pl);
        var fd := slots[i].plane[pl].fd;
        if fd >= 0 {
          journal.CloseFd(fd);
          slots[i] := slots[i].(plane := slots[i].plane[pl := slots[i].plane[pl].(fd := -1)]);
        }
      }
      assert planes[..MAX_PLANES] == planes;
    }

    static lemma SlotFdsStep(planes: seq<Plane>, pl: nat)
      requires pl < |planes|
      ensures Closes(SlotFds(planes[..pl + 1])) == Closes(SlotFds(planes[..pl])) + CloseIfOpen(planes[pl].fd)
    {
      assert planes[..pl + 1][..pl] == planes[..pl];
    }

    static lemma BankFdsStep(slots: seq<Layout>, i: nat)
      requires i < |slots|
      ensures Closes(BankFds(slots, i + 1)) == Closes(BankFds(slots, i)) + Closes(SlotFds(slots[i].plane))
    {
    }

    method FreeSlots()
      requires Shaped()
      modifies journal
      ensures journal.log == old(journal.log) + Frees(backend, nSlots)
    {
      for i := 0 to nSlots
        invariant journal.log == old(journal.log) + Frees(backend, i)
      {
        journal.Note(Free(backend, i));
        assert Frees(backend, i + 1) == Frees(backend, i) + [Free(backend, i)];
      }
    }

    method CloseSlotFds()
      requires Shaped()
      modifies slots, journal, this`nSlots
      ensures Shaped() && nSlots == 0
      ensures journal.log == old(journal.log) + Closes(BankFds(old(slots[..]), old(nSlots)))
    {
      hide BankFds, SlotFds, Closes;
      ghost var was := slots[..];
      NothingToClose(was);
      for i := 0 to nSlots
        modifies slots, journal
        invariant Shaped()
        invariant forall j :: i <= j < MAX_SLOTS ==> slots[j] == was[j]
        invariant journal.log == old(journal.log) + Closes(BankFds(was, i))
      {
        CloseSlot(i);
        BankFdsStep(was, i);
      }
      nSlots := 0;
    }

    static lemma NothingToClose(slots: seq<Layout>)
      ensures Closes(BankFds(slots, 0)) == []
    {
    }

    method ClearSlots()
      requires slots.Length == MAX_SLOTS
      modifies slots
      ensures slots[..] == EmptySlots()
    {
      for i := 0 to MAX_SLOTS
        invariant forall j :: 0 <= j < i ==> slots[j] == EMPTY_LAYOUT
      {
        slots[i] := EMPTY_LAYOUT;
      }
    }

    /** Calls appended one group after the other are appended as a whole. */
    static lemma Regroup(log: seq<Effect>, a: seq<Effect>, b: seq<Effect>)
      ensures log + a + b == log + (a + b)
    {
    }

    /** Frees the backend's slots, closes their descriptors, clears the layouts and resets the release
        state. */
    method TeardownSlots()
      requires Shaped()
      modifies this`latestFd, this`latestGeneration, this`latestSlot, this`latestValid, journal
      modifies this`pendingAcquire, this`pendingSubmit, this`releaseSlotCount, this`nextSlot, this`nextSerial, last
      modifies this`nSlots, slots
      ensures Shaped()
      ensures BankView() == old(BankView()).(count := 0, slots := EmptySlots())
      ensures Rel() == ResetRelease(old(Rel()))
      ensures journal.log == old(journal.log) + Teardown(old(BankView())) + CloseIfOpen(old(latestFd))
    {
      FreeSlots();
      CloseSlotFds();
      ClearSlots();
      ResetReleaseState();
      Regroup(old(journal.log), Frees(old(backend), old(nSlots)), Closes(BankFds(old(slots[..]), old(nSlots))));
    }

    // -------------------------------------------------------------- bind_buffers

    method PlanesAgree() returns (ok: bool)
      requires Shaped() && nSlots > 0
      ensures ok == UniformPlanes(BankView())
    {
      if slots[0].planes == 0 || slots[0].planes > MAX_PLANES { return false; }
      for i := 1 to nSlots
        invariant forall j :: 0 < j < i ==> slots[j].planes == slots[0].planes
      {
        if slots[i].planes != slots[0].planes {
          assert BankView().slots[i].planes != BankView().slots[0].planes;
          return false;
        }
      }
      ok := true;
    }

    /** The inner loop: the planes of one slot go to the flat entries from `base` on. */
    method CopyPlanes(flat: array<Plane>, base: nat, planes: nat, plane: seq<Plane>)
      requires planes <= |plane| && base + planes <= flat.Length
      modifies flat
      ensures flat[..base + planes] == old(flat[..base]) + plane[..planes]
    {
      for pl := 0 to planes
        invariant flat[..base] == old(flat[..base])
        invariant forall k :: 0 <= k < pl ==> flat[base + k] == plane[k]
      {
        flat[base + pl] := plane[pl];
      }
    }

    /** Fills the flat per-plane arrays, slot by slot. */
    method FlattenPlanes(planes: nat) returns (flat: array<Plane>)
      requires Shaped() && planes <= MAX_PLANES
      ensures fresh(flat) && flat[..] == Flatten(slots[..], planes, nSlots)
    {
      flat := new Plane[nSlots * planes](_ => UNSET);
      var s, base := 0, 0;
      while s < nSlots
        invariant s <= nSlots && flat.Length == nSlots * planes && base == s * planes <= flat.Length
        invariant flat[..base] == Flatten(slots[..], planes, s)
      {
        Room(s, nSlots, planes);
        CopyPlanes(flat, base, planes, slots[s].plane);
        s, base := s + 1, base + planes;
      }
      assert flat[..flat.Length] == flat[..];
    }

    static lemma Room(s: nat, n: nat, planes: nat)
      requires s < n
      ensures s * planes + planes == (s + 1) * planes <= n * planes
    {
      Arithmetic.MulMono(s + 1, n, planes);
    }

    /** Takes a new generation and announces the bank; `sendRc` is the transport's answer. */
    method EmitBindBuffers(sendRc: int) returns (rc: int, msg: Option<Announcement>)
      requires Valid()
      modifies this`bindGeneration, this`releaseSlotCount
      ensures
        var (p, expected, announced) := Emit(old(Snap()), sendRc);
        p == old(Snap()).(rel := Rel(), generation := bindGeneration) && rc == expected && msg == announced
    {
      if nSlots == 0 || nSlots > MAX_SLOTS { return EINVAL, None; }
      bindGeneration := bindGeneration + 1;
      releaseSlotCount := nSlots;
      var uniform := PlanesAgree();
      if !uniform { return EINVAL, None; }
      var planes := slots[0].planes;
      var flat := FlattenPlanes(planes);
      var hostVisible := directive.source == GpuLinear || directive.source == DmabufHeap;
      msg := Some(Announcement(bindGeneration, hostVisible, nSlots,
                               Format(directive.format.fourcc, slots[0].modifier, planes), extent, flat[..]));
      rc := sendRc;
    }

    // -------------------------------------------------------------- apply

    /** Allocates slot after slot until `count` are there or one is refused; `nSlots` follows. */
    method AllocSlots(answers: seq<AllocAnswer>, count: nat) returns (rc: int)
      requires Shaped() && GoodAnswers(answers) && count <= MAX_SLOTS
      requires nSlots == 0 && slots[..] == EmptySlots()
      modifies slots, journal, this`nSlots
      ensures Shaped()
      ensures
        var n := GrantedPrefix(answers, count);
        && nSlots == n && slots[..] == Filled(answers, n)
        && journal.log == old(journal.log) + Allocs(backend, answers, n)
        && rc == if n < count then answers[n].rc else 0
    {
      var i := 0;
      while i < count
        invariant Shaped() && i <= count && nSlots == i
        invariant GrantedPrefix(answers, count) == GrantedPrefix(answers, count, i)
        invariant slots[..] == Filled(answers, i)
        invariant journal.log == old(journal.log) + Allocs(backend, answers, i)
      {
        if answers[i].Denied? { return answers[i].rc; }
        journal.Note(Alloc(backend, i, answers[i].layout));
        assert Allocs(backend, answers, i + 1) == Allocs(backend, answers, i) + [Alloc(backend, i, answers[i].layout)];
        slots[i] := answers[i].layout;
        i := i + 1;
        nSlots := i;
      }
      rc := 0;
    }

    /** Replaces the slots by fresh ones for `d`; on a refusal the pool is left without slots. */
    method Reallocate(d: Directive, answers: seq<AllocAnswer>) returns (rc: int, report: Option<BindFailure>)
      requires Shaped() && GoodAnswers(answers) && d.count <= MAX_SLOTS
      modifies this`latestFd, this`latestGeneration, this`latestSlot, this`latestValid, journal
      modifies this`pendingAcquire, this`pendingSubmit, this`releaseSlotCount, this`nextSlot, this`nextSerial, last
      modifies this`nSlots, slots, this`directive, this`extent, this`hasDirective
      ensures Shaped() && hasDirective
      ensures Rel() == ResetRelease(old(Rel()))
      ensures
        var n := GrantedPrefix(answers, d.count);
        var made := Teardown(old(BankView())) + CloseIfOpen(old(latestFd)) + Allocs(backend, answers, n);
        var bank := Build(backend, d, caps.probe, answers, n, n);
        if n < d.count then
          rc == answers[n].rc && BankView() == bank.(count := 0, slots := EmptySlots())
          && journal.log == old(journal.log) + (made + Teardown(bank))
        else rc == 0 && BankView() == bank && journal.log == old(journal.log) + made
      ensures
        var n := GrantedPrefix(answers, d.count);
        report == if n == d.count then None
                  else Some(BindFailure(d.format, if n == 0 then AllocatorRejected else ResourceExhausted))
    {
      ghost var n := GrantedPrefix(answers, d.count);
      ghost var made := Teardown(BankView()) + CloseIfOpen(latestFd) + Allocs(backend, answers, n);
      ghost var log := journal.log;
      ghost var rel := Rel();
      rc := Refill(d, answers);
      ResetTwice(rel);
      NothingFilled(answers);
      report := None;
      if rc != 0 {
        report := Some(BindFailure(d.format, if nSlots == 0 then AllocatorRejected else ResourceExhausted));
        Rollback(log, made);
      }
    }

    method Refill(d: Directive, answers: seq<AllocAnswer>) returns (rc: int)
      requires Shaped() && GoodAnswers(answers) && d.count <= MAX_SLOTS
      modifies this`latestFd, this`latestGeneration, this`latestSlot, this`latestValid, journal
      modifies this`pendingAcquire, this`pendingSubmit, this`releaseSlotCount, this`nextSlot, this`nextSerial, last
      modifies this`nSlots, slots, this`directive, this`extent, this`hasDirective
      ensures Shaped() && hasDirective
      ensures Rel() == ResetRelease(old(Rel()))
      ensures
        var n := GrantedPrefix(answers, d.count);
        && BankView() == Build(backend, d, caps.probe, answers, n, n)
        && rc == (if n < d.count then answers[n].rc else 0)
        && journal.log == old(journal.log) + (Teardown(old(BankView())) + CloseIfOpen(old(latestFd)) + Allocs(backend, answers, n))
    {
      ghost var log := journal.log;
      ghost var down := Teardown(BankView());
      ghost var latest := CloseIfOpen(latestFd);
      TeardownSlots();
      directive, extent, hasDirective := d, caps.probe, true;
      Regroup(log, down, latest);
      rc := AllocSlots(answers, d.count);
      Regroup(log, down + latest, Allocs(backend, answers, GrantedPrefix(answers, d.count)));
    }

    static lemma Regroup4(log: seq<Effect>, a: seq<Effect>, b: seq<Effect>, c: seq<Effect>)
      ensures log + a + (b + c) == log + (a + b + c)
    {
    }

    static lemma Regroup5(log: seq<Effect>, a: seq<Effect>, b: seq<Effect>, c: seq<Effect>, d: seq<Effect>, e: seq<Effect>)
      ensures log + a + b + c + d + e == log + (a + b + c + d + e)
    {
      Regroup(log, a, b);
      Regroup(log, a + b, c);
      Regroup(log, a + b + c, d);
      Regroup(log, a + b + c + d, e);
    }

    static lemma NothingFilled(answers: seq<AllocAnswer>)
      ensures Filled(answers, 0) == EmptySlots()
    {
    }

    static lemma ResetTwice(rel: Release)
      ensures ResetRelease(ResetRelease(rel)) == ResetRelease(rel)
    {
    }

    /** Undoes a partial allocation; nothing is to be undone when the first slot was refused. */
    method Rollback(ghost before: seq<Effect>, ghost made: seq<Effect>)
      requires Shaped() && Rel() == ResetRelease(Rel()) && journal.log == before + made
      requires nSlots == 0 ==> slots[..] == EmptySlots()
      modifies this`latestFd, this`latestGeneration, this`latestSlot, this`latestValid, journal
      modifies this`pendingAcquire, this`pendingSubmit, this`releaseSlotCount, this`nextSlot, this`nextSerial, last
      modifies this`nSlots, slots
      ensures Shaped() && Rel() == old(Rel())
      ensures BankView() == old(BankView()).(count := 0, slots := EmptySlots())
      ensures journal.log == before + (made + Teardown(old(BankView())))
    {
      if nSlots > 0 {
        TeardownSlots();
        Regroup(before, made, Teardown(old(BankView())));
      }
    }

    /** Besides the announcement or, failing that, the failure sent in its place. */
    method ApplyDirective(d: Directive, answers: seq<AllocAnswer>, sendRc: int)
      returns (rc: int, msg: Option<Announcement>, report: Option<BindFailure>)
      requires Valid() && GoodAnswers(answers)
      modifies this, last, slots, journal
      ensures Valid()
      ensures
        var (p, expected, announced, effects) := Apply(old(Snap()), d, answers, sendRc);
        Snap() == p && rc == expected && msg == announced && journal.log == old(journal.log) + effects
      ensures report == ApplyReport(old(Snap()), d, answers)
    {
      hide Teardown, Allocs, UniformPlanes, ResetRelease, GrantedPrefix, Describe, Filled;
      msg, report := None, None;
      if !caps.advertised { return EINVAL, None, None; }
      if candidate != null || pendingAcquire.Some? || pendingSubmit.Some? { return EBUSY, None, None; }
      rc := ValidateDirective(caps, d);
      if rc != 0 { return rc, None, Some(BindFailure(d.format, Unsupported)); }
      rc, report := Reallocate(d, answers);
      if rc != 0 { return; }
      rc, msg := EmitBindBuffers(sendRc);
    }

    // -------------------------------------------------------------- prepare, abort, commit

    method AbortTarget()
      requires Valid()
      modifies this`candidate, journal
      modifies if candidate != null then {candidate, candidate.last, candidate.slots} else {}
      ensures Valid()
      ensures
        var (p, effects) := PoolSpec.AbortTarget(old(Snap()));
        Snap() == p && journal.log == old(journal.log) + effects
    {
      if candidate == null { return; }
      candidate.TeardownSlots();
      journal.Note(Drop(candidate.backend));
      candidate := null;
    }

    /** The loop of prepare, on the candidate: the count runs one ahead of the allocation. */
    method AllocCandidate(answers: seq<AllocAnswer>, count: nat) returns (rc: int)
      requires Shaped() && GoodAnswers(answers) && count <= MAX_SLOTS
      requires nSlots == 0 && slots[..] == EmptySlots()
      modifies slots, journal, this`nSlots
      ensures Shaped()
      ensures
        var n := GrantedPrefix(answers, count);
        && nSlots == (if n < count then n + 1 else n) && slots[..] == Filled(answers, n)
        && journal.log == old(journal.log) + (Allocs(backend, answers, n) + Refusal(backend, n, count))
        && rc == if n < count then answers[n].rc else 0
    {
      var i := 0;
      while i < count
        invariant Shaped() && i <= count && nSlots == i
        invariant GrantedPrefix(answers, count) == GrantedPrefix(answers, count, i)
        invariant slots[..] == Filled(answers, i)
        invariant journal.log == old(journal.log) + Allocs(backend, answers, i)
      {
        nSlots := i + 1;
        if answers[i].Denied? {
          journal.Note(Refuse(backend, i));
          return answers[i].rc;
        }
        journal.Note(Alloc(backend, i, answers[i].layout));
        assert Allocs(backend, answers, i + 1) == Allocs(backend, answers, i) + [Alloc(backend, i, answers[i].layout)];
        slots[i] := answers[i].layout;
        i := i + 1;
      }
      rc := 0;
    }

    /** Allocates a candidate next to the active slots. */
    method PrepareTarget(d: Directive, target: Extent, fork: ForkAnswer, answers: seq<AllocAnswer>) returns (rc: int)
      requires Valid() && GoodAnswers(answers)
      modifies this`candidate, journal
      ensures Valid()
      ensures
        var (p, expected, effects) := Prepare(old(Snap()), d, target, fork, answers);
        Snap() == p && rc == expected && journal.log == old(journal.log) + effects
    {
      if !caps.advertised || target.width == 0 || target.height == 0 { return EINVAL; }
      if !caps.transactional { return EOPNOTSUPP; }
      if candidate != null { return EBUSY; }
      if target.width > caps.max.width || target.height > caps.max.height { return ERANGE; }
      if sessionLost { return EPIPE; }
      if pendingAcquire.Some? || pendingSubmit.Some? { return EBUSY; }
      rc := ValidateDirective(caps, d);
      if rc != 0 { return; }
      if fork.NoFork? { return fork.rc; }
      hide Teardown, Allocs, Refusal;
      ghost var log := journal.log;
      rc := ForkCandidate(d, target, fork.backend, answers);
      if rc != 0 {
        ghost var n := GrantedPrefix(answers, d.count);
        ghost var bank := Build(fork.backend, d, target, answers, n, n + 1);
        ghost var made := [Fork(fork.backend)] + Allocs(fork.backend, answers, n) + Refusal(fork.backend, n, d.count);
        AbortTarget();
        assert journal.log == log + made + (Teardown(bank) + [Drop(bank.backend)]);
        Regroup4(log, made, Teardown(bank), [Drop(bank.backend)]);
      }
    }

    /** A candidate on the forked backend, with as many slots as the allocator granted; a refused slot
        is counted too. */
    method ForkCandidate(d: Directive, target: Extent, forked: nat, answers: seq<AllocAnswer>) returns (rc: int)
      requires Valid() && GoodAnswers(answers) && candidate == null && d.count <= MAX_SLOTS
      modifies this`candidate, journal
      ensures Valid() && candidate != null && fresh(candidate) && fresh(candidate.last) && fresh(candidate.slots)
      ensures
        var n := GrantedPrefix(answers, d.count);
        && candidate.BankView() == Build(forked, d, target, answers, n, if n < d.count then n + 1 else n)
        && rc == (if n < d.count then answers[n].rc else 0)
        && journal.log == old(journal.log) + ([Fork(forked)] + Allocs(forked, answers, n) + Refusal(forked, n, d.count))
    {
      ghost var log := journal.log;
      journal.Note(Fork(forked));
      var other := new Pool(journal, caps, forked, -1);
      other.directive, other.extent, other.hasDirective := d, target, true;
      rc := other.AllocCandidate(answers, d.count);
      candidate := other;
      ghost var n := GrantedPrefix(answers, d.count);
      Regroup4(log, [Fork(forked)], Allocs(forked, answers, n), Refusal(forked, n, d.count));
    }

    method SwapSlots(other: Pool)
      requires slots.Length == MAX_SLOTS && other.slots.Length == MAX_SLOTS && slots != other.slots
      modifies slots, other.slots
      ensures slots[..] == old(other.slots[..]) && other.slots[..] == old(slots[..])
    {
      for i := 0 to MAX_SLOTS
        invariant forall j :: 0 <= j < i ==> slots[j] == old(other.slots[j]) && other.slots[j] == old(slots[j])
        invariant forall j :: i <= j < MAX_SLOTS ==> slots[j] == old(slots[j]) && other.slots[j] == old(other.slots[j])
      {
        slots[i], other.slots[i] := other.slots[i], slots[i];
      }
    }

    /** Exchanges backend handle, directive, extent, count and layouts with the candidate. */
    method SwapBanks(other: Pool)
      requires Shaped() && other.Shaped() && other != this && slots != other.slots
      modifies this`backend, this`directive, this`extent, this`nSlots, slots
      modifies other`backend, other`directive, other`extent, other`nSlots, other.slots
      ensures Shaped() && other.Shaped()
      ensures BankView() == old(other.BankView()) && other.BankView() == old(BankView())
    {
      backend, other.backend := other.backend, backend;
      directive, other.directive := other.directive, directive;
      extent, other.extent := other.extent, extent;
      nSlots, other.nSlots := other.nSlots, nSlots;
      SwapSlots(other);
    }

    method CommitTarget(sendRc: int) returns (rc: int, generation: Option<nat>, msg: Option<Announcement>)
      requires Valid()
      modifies this, last, slots, journal
      modifies if candidate != null then {candidate, candidate.last, candidate.slots} else {}
      ensures Valid()
      ensures
        var (p, expected, reported, announced, effects) := Commit(old(Snap()), sendRc);
        && Snap() == p && rc == expected && generation == reported && msg == announced
        && journal.log == old(journal.log) + effects
    {
      if candidate == null { return EINVAL, None, None; }
      if sessionLost { return EPIPE, None, None; }
      if pendingAcquire.Some? || pendingSubmit.Some? { return EBUSY, None, None; }
      ghost var log := journal.log;
      ghost var latest := CloseIfOpen(latestFd);
      rc, generation, msg := Install(sendRc);
      ghost var dropped := PoolSpec.AbortTarget(Snap()).1;
      AbortTarget();
      Regroup(log, latest, dropped);
    }

    /** The swap itself and the announcement of the new bank; the old one is left in the candidate. */
    method Install(sendRc: int) returns (rc: int, generation: Option<nat>, msg: Option<Announcement>)
      requires Valid() && candidate != null
      modifies this, last, slots, journal, candidate, candidate.slots
      ensures Valid() && candidate == old(candidate)
      ensures
        var was := old(Snap());
        var swapped := was.(bank := was.candidate.value, candidate := Some(was.bank), hasDirective := true,
                            rel := ResetRelease(was.rel));
        var (bound, expected, announced) := Emit(swapped, sendRc);
        && Snap() == (if expected != 0 then bound.(rel := bound.rel.(lost := true)) else bound)
        && rc == expected && msg == announced && generation == Some(bound.generation)
      ensures journal.log == old(journal.log) + CloseIfOpen(old(latestFd))
    {
      SwapBanks(candidate);
      hasDirective := true;
      ResetReleaseState();
      assert Snap() == old(Snap()).(bank := old(candidate.BankView()), candidate := Some(old(BankView())),
                                    hasDirective := true, rel := ResetRelease(old(Rel())));
      rc, msg := EmitBindBuffers(sendRc);
      if rc != 0 { sessionLost := true; }
      generation := Some(bindGeneration);
    }

    method Destroy()
      requires Valid()
      modifies this, last, slots, journal
      modifies if candidate != null then {candidate, candidate.last, candidate.slots} else {}
      ensures journal.log == old(journal.log) + PoolSpec.Destroy(old(Snap())) && sessionLost && nSlots == 0
    {
      ghost var log := journal.log;
      ghost var aborted := PoolSpec.AbortTarget(Snap()).1;
      ghost var down := Teardown(BankView());
      ghost var latest := CloseIfOpen(latestFd);
      AbortTarget();
      assert journal.log == log + aborted;
      sessionLost := true;
      TeardownSlots();
      assert journal.log == log + aborted + down + latest;
      journal.Note(Drop(backend));
      journal.CloseFd(drmFd);
      Regroup5(log, aborted, down, latest, [Drop(backend)], CloseIfOpen(drmFd));
    }
  }
}
