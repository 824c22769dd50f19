/** What each call of the pool answers in a run, exactly, and what it leaves: the positive half as well as the
    refusals. */
module PoolAnswers {
  import opened Common
  import opened PoolSpec
  import opened PoolSystem
  import opened PoolSafety
  import opened PoolBanks

  // ---------------------------------------------------------------- acquire

  /** A poll, of the slot at this offset in rotation, finds it free: never submitted, or released by then. */
  predicate FoundFree(p: Pool, polls: seq<Reading>, k: nat)
    requires p.bank.count > 0 && |p.rel.last| >= p.bank.count && k < |polls|
  {
    p.rel.last[(p.rel.nextSlot + k) % p.bank.count] <= polls[k].time || p.rel.last[(p.rel.nextSlot + k) % p.bank.count] == 0
  }

  predicate Faultless(polls: seq<Reading>) { forall i :: 0 <= i < |polls| ==> polls[i].fault == 0 }

  /** The bank can be drawn into and no transaction is open. */
  predicate Admissible(p: Pool) {
    !p.rel.lost && p.hasDirective && p.bank.count > 0 && p.rel.acquire.None? && p.rel.submit.None?
  }

  lemma SelectMeans(p: Pool, polls: seq<Reading>)
    requires 0 < p.bank.count <= |p.rel.last| && p.bank.count <= |polls| && Faultless(polls)
    ensures
      var r := Select(p.rel.last, p.rel.nextSlot, p.bank.count, polls);
      && !r.PollFault?
      && (r.Selected? <==> exists k :: 0 <= k < p.bank.count && FoundFree(p, polls, k))
      && (r.Selected? ==> r.slot < p.bank.count)
  {
    var last, next, n := p.rel.last, p.rel.nextSlot, p.bank.count;
    var unused := FindUnused(last, next, n);
    if unused < n {
      assert FoundFree(p, polls, unused);
    } else {
      var settled := FindSettled(last, next, n, polls);
      if settled < n { assert FoundFree(p, polls, settled); }
      forall k | 0 <= k < n && FoundFree(p, polls, k) ensures settled <= k {
        assert last[Rotated(next, k, n)] != 0;
      }
    }
  }

  /** In every run: acquire says that the session is lost exactly when it is; without a bank, or with a transaction
      open, it refuses and moves nothing; and otherwise, when polls and backend do not fail, it grants a slot if and
      only if one is found free, and else answers BUSY. What it grants is the open transaction afterwards. */
  lemma AcquireAnswers(states: seq<Sys>, steps: seq<Step>, i: nat)
    requires Run(states, steps) && i < |steps| < U64_LIMIT - 2 && steps[i].DoAcquire?
    ensures Shape(states[i]) && states[i].pool.bank.count <= |steps[i].polls|
    ensures
      var p, q, polls, viewRc := states[i].pool, states[i + 1].pool, steps[i].polls, steps[i].viewRc;
      var r := TryAcquire(p, polls, viewRc).1;
      && (r == Lost <==> p.rel.lost)
      && (!p.rel.lost && p.bank.count == 0 ==> r == Failed(EINVAL))
      && (!p.rel.lost && p.bank.count > 0 && (p.rel.acquire.Some? || p.rel.submit.Some?) ==> r == Failed(EBUSY))
      && (!Admissible(p) ==> q == p)
      && (Admissible(p) && Faultless(polls) && viewRc == 0 ==>
            && (r.Ready? <==> exists k :: 0 <= k < p.bank.count && FoundFree(p, polls, k))
            && (!r.Ready? ==> r == Busy))
      && (r.Ready? ==>
            && q.rel.acquire == Some(r.identity) && q.rel.submit.None? && q.bank == p.bank
            && q.rel.nextSlot == (if r.identity.slot + 1 == p.bank.count then 0 else r.identity.slot + 1)
            && q.rel.nextSerial == r.identity.serial + 1 == p.rel.nextSerial + 1)
      && (Admissible(p) && Faultless(polls) && viewRc != 0 && (exists k :: 0 <= k < p.bank.count && FoundFree(p, polls, k)) ==>
            r == Failed(viewRc) && q == p.(rel := p.rel.(nextSerial := p.rel.nextSerial + 1)))
  {
    hide Inv, Guard, Select, Honest, PerformAll, GrantSlot;
    var s, step := states[i], steps[i];
    RunInv(states, steps, i);
    assert StepAt(states, steps, i);
    GuardOfAcquire(s, step);
    PoolReady(s, i);
    var p := s.pool;
    GrantAnswers(p, step.polls, step.viewRc);
    GrantedInBank(p, step.polls, step.viewRc);
    if p.bank.count > 0 && Faultless(step.polls) { SelectMeans(p, step.polls); }
  }

  lemma GuardOfAcquire(s: Sys, step: Step)
    requires Shape(s) && Guard(s, step) && step.DoAcquire?
    ensures s.pool.bank.count <= |step.polls|
  {
  }

  /** In a run a bank with slots is ready for use. */
  lemma PoolReady(s: Sys, k: nat)
    requires Inv(s, k) && k < U64_LIMIT - 2
    ensures Shape(s) && s.pool.rel.slotCount == s.pool.bank.count <= MAX_SLOTS && s.pool.rel.point < U64_LIMIT - 1
    ensures s.pool.bank.count > 0 ==> s.pool.hasDirective && 0 < s.pool.rel.nextSerial < U64_LIMIT - 1
  {
  }

  lemma GrantedInBank(p: Pool, polls: seq<Reading>, viewRc: int)
    requires p.bank.count <= |p.rel.last| && p.bank.count <= |polls|
    ensures TryAcquire(p, polls, viewRc).1.Ready? ==> TryAcquire(p, polls, viewRc).1.identity.slot < p.bank.count
  {
  }

  lemma GrantAnswers(p: Pool, polls: seq<Reading>, viewRc: int)
    requires p.bank.count <= |p.rel.last| && p.bank.count <= |polls| && p.rel.slotCount == p.bank.count
    requires p.bank.count > 0 ==> p.hasDirective && 0 < p.rel.nextSerial < U64_LIMIT - 1
    ensures
      var (q, r, _) := TryAcquire(p, polls, viewRc);
      && (!Admissible(p) ==> q == p && (p.rel.lost <==> r == Lost))
      && (!p.rel.lost && p.bank.count == 0 ==> r == Failed(EINVAL))
      && (!p.rel.lost && p.bank.count > 0 && (p.rel.acquire.Some? || p.rel.submit.Some?) ==> r == Failed(EBUSY))
      && (Admissible(p) ==>
            var sel := Select(p.rel.last, p.rel.nextSlot, p.bank.count, polls);
            && r != Lost && (sel.NoneReady? ==> r == Busy)
            && (sel.Selected? && sel.slot < p.bank.count && viewRc == 0 ==> r.Ready?)
            && (sel.Selected? && sel.slot < p.bank.count && viewRc != 0 ==>
                  r == Failed(viewRc) && q == p.(rel := p.rel.(nextSerial := p.rel.nextSerial + 1))))
      && (r.Ready? ==>
            && q.rel.acquire == Some(r.identity) && q.rel.submit.None? && q.bank == p.bank
            && (r.identity.slot < p.bank.count ==>
                  q.rel.nextSlot == if r.identity.slot + 1 == p.bank.count then 0 else r.identity.slot + 1)
            && q.rel.nextSerial == r.identity.serial + 1 == p.rel.nextSerial + 1)
  {
    hide Select, GrantSlot;
    if Admissible(p) {
      var sel := Select(p.rel.last, p.rel.nextSlot, p.bank.count, polls);
      SelectedInBank(p, polls);
      if sel.Selected? { SlotAnswers(p, sel.slot, viewRc); }
    }
  }

  lemma SelectedInBank(p: Pool, polls: seq<Reading>)
    requires 0 < p.bank.count <= |p.rel.last| && p.bank.count <= |polls|
    ensures
      var sel := Select(p.rel.last, p.rel.nextSlot, p.bank.count, polls);
      sel.Selected? ==> sel.slot < p.bank.count
  {
  }

  lemma SlotAnswers(p: Pool, slot: nat, viewRc: int)
    requires slot < |p.rel.last| && p.bank.count > 0 && 0 < p.rel.nextSerial < U64_LIMIT - 1 && p.rel.submit.None?
    ensures
      var (q, r, _) := GrantSlot(p, slot, viewRc);
      && (viewRc == 0 ==>
            && r.Ready? && r.identity.slot == slot && q.rel.acquire == Some(r.identity) && q.rel.submit.None? && q.bank == p.bank
            && (slot < p.bank.count ==> q.rel.nextSlot == if slot + 1 == p.bank.count then 0 else slot + 1)
            && q.rel.nextSerial == r.identity.serial + 1 == p.rel.nextSerial + 1)
      && (viewRc != 0 ==> r == Failed(viewRc) && q == p.(rel := p.rel.(nextSerial := p.rel.nextSerial + 1)))
  {
    SerialStep(p.rel.nextSerial);
  }

  // ---------------------------------------------------------------- abort

  /** No grant is refused because a transaction is open: only a poll or the backend could say EBUSY. */
  ghost predicate NothingInTheWay(p: Pool) {
    && (forall polls: seq<Reading>, viewRc: int ::
          p.bank.count <= |polls| && p.bank.count <= |p.rel.last| && viewRc != EBUSY
          && (forall k :: 0 <= k < |polls| ==> polls[k].fault != EBUSY) ==>
            TryAcquire(p, polls, viewRc).1 != Failed(EBUSY))
    && (forall d :: p.candidate.None? ==> ApplyRefusal(p, d) != EBUSY)
    && (forall d, extent :: p.candidate.None? ==> PrepareRefusal(p, d, extent) != EBUSY)
  }

  lemma FreeAgain(p: Pool)
    requires p.rel.acquire.None? && p.rel.submit.None?
    ensures NothingInTheWay(p)
  {
    hide Select;
    forall polls: seq<Reading>, viewRc: int |
        p.bank.count <= |polls| && p.bank.count <= |p.rel.last| && viewRc != EBUSY
        && (forall k :: 0 <= k < |polls| ==> polls[k].fault != EBUSY)
      ensures TryAcquire(p, polls, viewRc).1 != Failed(EBUSY)
    {
      if p.bank.count > 0 { SelectFaults(p, polls); }
    }
  }

  /** A fault that selection reports is the fault of some poll. */
  lemma SelectFaults(p: Pool, polls: seq<Reading>)
    requires 0 < p.bank.count <= |p.rel.last| && p.bank.count <= |polls|
    ensures var r := Select(p.rel.last, p.rel.nextSlot, p.bank.count, polls);
            r.PollFault? ==> exists k :: 0 <= k < |polls| && polls[k].fault == r.rc
  {
  }

  /** In every run: an abort answers 0 if and only if the identity is the open acquire and no submit is open. Then
      no transaction is open any more, nothing else of the pool moved, nothing refuses the next grant or allocation
      call as busy, and the identity is refused ever after. An abort that answers otherwise changes nothing. */
  lemma AbortAnswers(states: seq<Sys>, steps: seq<Step>, i: nat)
    requires Run(states, steps) && i < |steps| < U64_LIMIT - 2 && steps[i].DoAbort?
    ensures
      var p, q, id := states[i].pool, states[i + 1].pool, steps[i].identity;
      var rc := Abort(p, id).1;
      && (rc == 0 <==> p.rel.acquire == Some(id) && p.rel.submit.None?)
      && (rc == EBUSY <==> p.rel.submit.Some?)
      && (rc == ENOENT <==> p.rel.submit.None? && p.rel.acquire.None?)
      && (rc == ESTALE <==> p.rel.submit.None? && p.rel.acquire.Some? && p.rel.acquire.value != id)
      && (rc != 0 ==> q == p)
      && (rc == 0 ==>
            && q.rel.acquire.None? && q.rel.submit.None? && NothingInTheWay(q)
            && q == p.(rel := p.rel.(acquire := None))
            && forall j, fence, dup :: i < j <= |steps| ==> RefusedBy(states[j].pool, id, fence, dup))
  {
    hide Inv, NothingInTheWay, RefusedBy, Honest, PerformAll;
    var s, id := states[i], steps[i].identity;
    RunInv(states, steps, i);
    assert StepAt(states, steps, i);
    OpenIsGranted(s, i);
    if Abort(s.pool, id).1 == 0 {
      FreeAgain(states[i + 1].pool);
      forall j, fence, dup | i < j <= |steps| ensures RefusedBy(states[j].pool, id, fence, dup) {
        RefusedLater(states, steps, i + 1, j, id, fence, dup);
      }
    }
  }

  predicate RefusedBy(p: Pool, id: Identity, fence: int, dup: int) {
    && Abort(p, id).0 == p && Abort(p, id).1 != 0
    && Reserve(p, id, fence, dup).0 == p && !Reserve(p, id, fence, dup).1.Reserved?
  }

  lemma RefusedLater(states: seq<Sys>, steps: seq<Step>, i: nat, j: nat, id: Identity, fence: int, dup: int)
    requires Run(states, steps) && i <= j <= |steps| < U64_LIMIT - 2
    requires id in states[i].world.granted && states[i].pool.rel.acquire != Some(id)
    ensures RefusedBy(states[j].pool, id, fence, dup)
  {
    hide Run, Abort, Reserve;
    ConsumedAlwaysRefused(states, steps, i, j, id, fence, dup);
  }

  lemma OpenIsGranted(s: Sys, k: nat)
    requires Inv(s, k)
    ensures s.pool.rel.acquire.Some? ==> s.pool.rel.acquire.value in s.world.granted
  {
  }

  // ---------------------------------------------------------------- submit

  /** In a run the open identity matches the slot it was granted. */
  lemma OpenMatches(s: Sys, id: Identity, k: nat)
    requires Inv(s, k) && k < U64_LIMIT - 2
    ensures Matches(s.pool, id) <==> s.pool.rel.acquire == Some(id)
    ensures s.pool.rel.point < U64_LIMIT - 1
  {
  }

  /** In every run: the first half of submit reserves the next point for the identity if and only if the session is
      live, the identity is the open acquire, no submit is open and the fence, if there is one, was duplicated. It
      says that the session is gone exactly when it is. A failed duplicate gives the transaction up; any other
      refusal changes nothing. */
  lemma SubmitAnswers(states: seq<Sys>, steps: seq<Step>, i: nat)
    requires Run(states, steps) && i < |steps| < U64_LIMIT - 2 && steps[i].DoReserve?
    ensures
      var p, q, id, fence, dup := states[i].pool, states[i + 1].pool, steps[i].identity, steps[i].fence, steps[i].dup;
      var r := Reserve(p, id, fence, dup).1;
      var open := p.rel.acquire == Some(id) && p.rel.submit.None?;
      && (r.Reserved? <==> !p.rel.lost && open && (fence < 0 || dup >= 0))
      && (r.Reserved? ==>
            && q == p.(rel := p.rel.(submit := Some(Submission(id, p.rel.point + 1))))
            && states[i + 1].world.call == Sending(Submission(id, p.rel.point + 1), fence, if fence >= 0 then dup else -1, false))
      && (r == Gone <==> p.rel.lost)
      && (!p.rel.lost && p.rel.acquire != Some(id) ==> r == Refused(ESTALE))
      && (!p.rel.lost && p.rel.acquire == Some(id) && p.rel.submit.Some? ==> r == Refused(EBUSY))
      && (!p.rel.lost && open && fence >= 0 && dup < 0 ==>
            r == Refused(dup) && q == p.(rel := p.rel.(acquire := None)) && NothingInTheWay(q))
      && (!r.Reserved? && !(!p.rel.lost && open) ==> q == p)
  {
    hide Inv, NothingInTheWay, Honest, PerformAll, Matches;
    RunInv(states, steps, i);
    assert StepAt(states, steps, i);
    OpenMatches(states[i], steps[i].identity, i);
    var q := states[i + 1].pool;
    if q.rel.acquire.None? && q.rel.submit.None? { FreeAgain(q); }
  }

  /** In every run: the second half of submit ends the transaction. A frame that was sent moves the committed point
      to its own, which its slot then carries, and, if a fence was kept, becomes the latest content; one that was not
      sent moves no point and loses the session. */
  lemma FinishAnswers(states: seq<Sys>, steps: seq<Step>, i: nat)
    requires Run(states, steps) && i < |steps| < U64_LIMIT - 2 && steps[i].DoFinish?
    ensures states[i].world.call.Sent? && states[i].world.call.sub.identity.slot < MAX_SLOTS && Shape(states[i])
    ensures
      var p, q, call := states[i].pool, states[i + 1].pool, states[i].world.call;
      var id := call.sub.identity;
      && q.rel.acquire.None? && q.rel.submit.None? && NothingInTheWay(q) && q.bank == p.bank && q.generation == p.generation
      && (call.ok ==>
            && q.rel.point == call.sub.point == p.rel.point + 1 && q.rel.last == p.rel.last[id.slot := call.sub.point]
            && q.rel.lost == p.rel.lost
            && (if call.retained >= 0
                then q.rel.latestValid && q.rel.latestFd == call.retained && q.rel.latestSlot == id.slot
                     && q.rel.latestGeneration == id.generation
                else q.rel.latestFd == p.rel.latestFd && q.rel.latestValid == p.rel.latestValid))
      && (!call.ok ==>
            && q.rel.lost && q.rel.point == p.rel.point && q.rel.last == p.rel.last
            && q.rel.latestFd == p.rel.latestFd && q.rel.latestValid == p.rel.latestValid)
  {
    hide Inv, NothingInTheWay, Honest, PerformAll;
    RunInv(states, steps, i);
    assert StepAt(states, steps, i);
    SentShape(states[i], i);
    FreeAgain(states[i + 1].pool);
  }

  lemma SentShape(s: Sys, k: nat)
    requires Inv(s, k) && s.world.call.Sent?
    ensures Shape(s) && s.pool.rel.submit == Some(s.world.call.sub) && s.world.call.sub.point == s.pool.rel.point + 1
    ensures s.world.call.sub.identity.slot < s.pool.bank.count <= MAX_SLOTS
  {
  }

  // ---------------------------------------------------------------- republish

  /** In a run retained content is always content that can be sent again. */
  lemma RetainedUsable(s: Sys, k: nat)
    requires Inv(s, k) && k < U64_LIMIT - 2
    ensures Shape(s) && s.pool.bank.count <= MAX_SLOTS
    ensures HasContent(s.pool) <==> s.pool.rel.latestValid
    ensures s.pool.rel.latestValid ==> s.pool.rel.latestSlot < MAX_SLOTS && 0 < s.pool.rel.nextSerial < U64_LIMIT - 1
    ensures s.pool.rel.latestValid ==> s.pool.rel.last[s.pool.rel.latestSlot] == s.pool.rel.point
  {
  }

  /** In every run: republish opens a transaction on the retained slot if and only if the session is live, there is
      retained content, no transaction is open, the newest frame has been released and the fence was duplicated; it
      answers "no content" and "session lost" exactly then, asks to come again while a transaction is open or the
      newest frame is unreleased, and changes nothing but the serial in all those cases. */
  lemma RepublishAnswers(states: seq<Sys>, steps: seq<Step>, i: nat)
    requires Run(states, steps) && i < |steps| < U64_LIMIT - 2 && steps[i].DoRepublish?
    ensures Shape(states[i])
    ensures
      var p, q, poll, dup := states[i].pool, states[i + 1].pool, steps[i].poll, steps[i].dup;
      var r := Republish(p, poll, dup).1;
      var open := p.rel.acquire.Some? || p.rel.submit.Some?;
      && (r == SessionGone <==> p.rel.lost)
      && (r == NoContent <==> !p.rel.lost && !p.rel.latestValid)
      && (!p.rel.lost && p.rel.latestValid && open ==> r == StillBusy(EBUSY))
      && (!p.rel.lost && p.rel.latestValid && !open && poll.fault == 0 ==>
            && (r.Again? <==> (p.rel.point <= poll.time || p.rel.point == 0) && dup >= 0)
            && ((p.rel.point <= poll.time || p.rel.point == 0) && dup < 0 ==>
                  r == Error(dup) && q == p.(rel := p.rel.(nextSerial := p.rel.nextSerial + 1)))
            && (p.rel.point > poll.time && p.rel.point > 0 ==> r == StillBusy(0)))
      && (r.Again? ==>
            && q.rel.acquire == Some(r.identity) && r.identity.slot == p.rel.latestSlot
            && r.identity.generation == p.generation && states[i + 1].world.call == Holding(r.identity, dup))
      && (!r.Again? ==> q.rel.acquire == p.rel.acquire && q.rel.submit == p.rel.submit && q == p.(rel := q.rel)
                        && q.rel.(nextSerial := p.rel.nextSerial) == p.rel)
  {
    hide Inv, HasContent, Honest, PerformAll, NextSerial;
    RunInv(states, steps, i);
    assert StepAt(states, steps, i);
    RetainedUsable(states[i], i);
    if states[i].pool.rel.latestValid { SerialStep(states[i].pool.rel.nextSerial); }
  }

  // ---------------------------------------------------------------- directives

  /** A bank is announced only if all its slots have one and the same number of planes, from one to four. */
  lemma UniformIs(b: Bank)
    requires BankShape(b)
    ensures UniformPlanes(b) <==>
            && b.count > 0
            && (forall i :: 0 <= i < b.count ==> b.slots[i].planes in {1, 2, 3, 4})
            && (forall i, j :: 0 <= i < j < b.count ==> b.slots[i].planes == b.slots[j].planes)
  {
  }

  predicate Advertised(caps: Caps, f: Format) {
    exists i :: 0 <= i < |caps.formats| && caps.formats[i].fourcc == f.fourcc && caps.formats[i].modifier == f.modifier
  }

  /** A directive is accepted if and only if its count is from 1 to 8, the probe has an extent, path and memory source
      are ones the pool allocates from, the format is advertised unless the path is the linear one, and the release
      is by timeline. Malformed directives are told apart from those that are merely not supported. */
  lemma DirectiveAnswers(caps: Caps, d: Directive)
    ensures
      var rc := ValidateDirective(caps, d);
      && (rc == 0 <==>
            && 1 <= d.count <= 8 && caps.probe.width > 0 && caps.probe.height > 0
            && (d.path == SameDevice || d.path == SameVendor || d.path == CompatLinear)
            && (d.source == GpuNative || d.source == GpuLinear)
            && (d.path == CompatLinear || Advertised(caps, d.format))
            && d.syncMode == 4)
      && (rc == EINVAL <==>
            || d.count < 1 || d.count > 8 || caps.probe.width == 0 || caps.probe.height == 0
            || d.path == OtherPath || (d.path != CpuReadback && d.source == OtherSource))
      && (rc == 0 || rc == EINVAL || rc == EOPNOTSUPP)
  {
  }

  /** When apply and prepare refuse before they begin, and with what. */
  lemma RefusalAnswers(p: Pool, d: Directive, extent: Extent)
    ensures
      var open := p.rel.acquire.Some? || p.rel.submit.Some?;
      var rc, rc' := ApplyRefusal(p, d), PrepareRefusal(p, d, extent);
      && (rc == 0 <==> p.caps.advertised && p.candidate.None? && !open && ValidateDirective(p.caps, d) == 0)
      && (rc == EBUSY <==> p.caps.advertised && (p.candidate.Some? || open))
      && (rc' == 0 <==>
            && p.caps.advertised && p.caps.transactional && p.candidate.None? && !p.rel.lost && !open
            && 0 < extent.width <= p.caps.max.width && 0 < extent.height <= p.caps.max.height
            && ValidateDirective(p.caps, d) == 0)
      && (rc' == EPIPE ==> p.rel.lost)
      && (rc' == ERANGE ==> extent.width > p.caps.max.width || extent.height > p.caps.max.height)
      && (rc' == EBUSY ==> p.candidate.Some? || open)
  {
    DirectiveAnswers(p.caps, d);
  }

  // ---------------------------------------------------------------- new and reset pools

  predicate NothingRetained(rel: Release) {
    rel.latestFd == -1 && rel.latestGeneration == 0 && rel.latestSlot == 0 && !rel.latestValid
  }

  predicate NothingSubmitted(rel: Release) {
    |rel.last| == 8 && (forall i :: 0 <= i < 8 ==> rel.last[i] == 0) && rel.acquire == None && rel.submit == None
  }

  /** A new pool has committed no point; clearing the latest content touches nothing else; a reset forgets points,
      transactions and content, starts the rotation and the serials anew, and keeps the committed point and the
      state of the session. */
  lemma ResetIs(rel: Release)
    ensures
      var r := NewRelease();
      && NothingRetained(r) && NothingSubmitted(r) && r.point == 0 && !r.lost
      && r.slotCount == 0 && r.nextSlot == 0 && r.nextSerial == 0
    ensures
      var r := ClearLatest(rel);
      && NothingRetained(r)
      && r == rel.(latestFd := r.latestFd, latestGeneration := r.latestGeneration, latestSlot := r.latestSlot, latestValid := r.latestValid)
    ensures
      var r := ResetRelease(rel);
      && NothingRetained(r) && NothingSubmitted(r) && r.point == rel.point && r.lost == rel.lost
      && r.slotCount == 0 && r.nextSlot == 0 && r.nextSerial == 1
  {
  }

  /** In every run: after an apply or a commit past its check nothing that went before stands in the way: no point is
      remembered, no transaction is open, no content retained, every slot of the bank can be acquired at once in
      order; the committed point stays, and the session is lost if it was, or if a commit could not be announced. */
  lemma RebindAnswers(states: seq<Sys>, steps: seq<Step>, i: nat)
    requires Run(states, steps) && i < |steps| < U64_LIMIT - 2 && (steps[i].DoApply? || steps[i].DoCommit?)
    ensures
      var p, q := states[i].pool, states[i + 1].pool;
      && NothingRetained(q.rel) && NothingSubmitted(q.rel) && NothingInTheWay(q) && q.rel.point == p.rel.point
      && q.rel.slotCount == q.bank.count && q.rel.nextSlot == 0 && q.rel.nextSerial == 1 && q.hasDirective && q.candidate == None
      && (steps[i].DoApply? ==> q.rel.lost == p.rel.lost)
      && (steps[i].DoCommit? ==>
            && p.candidate.Some? && BankShape(p.candidate.value)
            && (q.rel.lost <==> p.rel.lost || steps[i].sendRc != 0 || !UniformPlanes(p.candidate.value)))
  {
    hide Inv, NothingInTheWay, Honest, PerformAll, Effects, Passes, Apply, Commit, UniformPlanes, Describe;
    var s, step := states[i], steps[i];
    RunInv(states, steps, i);
    CheckStillHolds(states, steps, i);
    assert StepAt(states, steps, i);
    ResetIs(s.pool.rel);
    CandidateCounted(s, i);
    RebindMove(s, step);
    FreeAgain(states[i + 1].pool);
  }

  lemma RebindMove(s: Sys, step: Step)
    requires Shape(s) && Guard(s, step) && (step.DoApply? || step.DoCommit?) && Passes(Calm(s.pool), s.world.job.value)
    requires s.pool.candidate.Some? ==> s.pool.candidate.value.count > 0
    ensures
      var p, q := s.pool, Move(s, step).pool;
      && q.rel == ResetRelease(p.rel).(slotCount := q.bank.count, lost := q.rel.lost) && q.hasDirective && q.candidate == None
      && (step.DoApply? ==> q.rel.lost == p.rel.lost)
      && (step.DoCommit? ==>
            && p.candidate.Some?
            && (q.rel.lost <==> p.rel.lost || step.sendRc != 0 || !UniformPlanes(p.candidate.value)))
  {
    hide Apply, Commit, UniformPlanes, Describe;
    if step.DoApply? {
      ApplyOutcome(s.pool, step.directive, step.answers, step.sendRc);
    } else {
      CommitOutcome(Calm(s.pool), step.sendRc);
      CommitFails(Calm(s.pool), step.sendRc);
    }
  }

  /** A commit fails exactly when its announcement does. */
  lemma CommitFails(p: Pool, sendRc: int)
    requires BankShape(p.bank) && p.candidate.Some? && BankShape(p.candidate.value) && p.candidate.value.count > 0
    requires !p.rel.lost && !Transacting(p.rel)
    ensures Commit(p, sendRc).1 != 0 <==> sendRc != 0 || !UniformPlanes(p.candidate.value)
  {
    hide UniformPlanes, Describe;
  }
}
