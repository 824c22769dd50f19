/** What every run of the pool keeps: the exclusive use of slots, the order of release points, the
    uniqueness of identities, and what republish may resend. */
module PoolSafety {
  import opened Common
  import opened PoolSpec
  import opened PoolSystem

  // ---------------------------------------------------------------- the invariant

  /** Frames whose submission has been completed; one more may be in flight or lost. */
  function Settled(s: Sys): (n: nat)
    ensures n <= |s.world.wire| <= n + 1
  {
    var wire := s.world.wire;
    if |wire| > 0 && wire[|wire| - 1].point > s.pool.rel.point then |wire| - 1 else |wire|
  }

  predicate Matching(s: Sys, f: Frame, sub: Submission, again: bool)
    requires Shape(s)
  {
    sub.identity.slot < MAX_SLOTS &&
    f == Frame(sub.identity.generation, sub.identity.slot, sub.point, s.world.content[sub.identity.slot], again)
  }

  /** Counters never exceed the number of steps taken, so none of them has wrapped. */
  predicate Counters(s: Sys, k: nat) {
    var rel := s.pool.rel;
    && rel.slotCount == s.pool.bank.count
    && (s.pool.bank.count > 0 ==> s.pool.hasDirective && 1 <= rel.nextSerial)
    && (s.pool.candidate.Some? ==> s.pool.candidate.value.count > 0)
    && rel.nextSerial <= k + 1 && s.pool.generation <= k && rel.point <= k
  }

  predicate Pending(s: Sys)
    requires Shape(s)
  {
    var p, rel, w := s.pool, s.pool.rel, s.world;
    && (rel.acquire.Some? ==>
          var id := rel.acquire.value;
          && id.generation == p.generation && id.slot < p.bank.count
          && rel.last[id.slot] == id.previous && id.previous <= w.timeline
          && id in w.granted)
    && (rel.submit.Some? <==> w.call.Sending? || w.call.Sent?)
    && (rel.submit.Some? ==>
          && w.call.sub == rel.submit.value
          && rel.acquire == Some(rel.submit.value.identity) && rel.submit.value.point == rel.point + 1)
    && (w.call.Holding? ==> rel.acquire == Some(w.call.identity))
    && (w.call.Sending? ==> (w.call.fence >= 0 <==> w.call.retained >= 0))
    && (w.call.Sent? && w.call.ok ==> w.call.retained >= 0)
    && (w.rendering ==> rel.acquire.Some? && w.call.Idle?)
  }

  predicate Points(s: Sys)
    requires Shape(s)
  {
    var rel := s.pool.rel;
    && (forall i :: 0 <= i < MAX_SLOTS ==> rel.last[i] <= rel.point)
    && (forall i, j :: 0 <= i < j < MAX_SLOTS && rel.last[i] == rel.last[j] ==> rel.last[i] == 0)
  }

  predicate Wire(s: Sys)
    requires Shape(s)
  {
    var p, rel, w := s.pool, s.pool.rel, s.world;
    var n := Settled(s);
    && (forall a, b :: 0 <= a < b < |w.wire| ==> w.wire[a].point < w.wire[b].point)
    && (forall a :: 0 <= a < n ==> w.wire[a].point <= rel.point)
    && (forall a :: 0 <= a < |w.wire| ==> 0 < w.wire[a].point && w.wire[a].generation <= p.generation)
    && (n < |w.wire| ==>
          && w.wire[n].point == rel.point + 1
          && !w.call.Sending? && (w.call.Sent? || rel.lost))
    && (w.call.Sent? && (w.call.ok || n < |w.wire|) ==>
          n < |w.wire| && Matching(s, w.wire[n], w.call.sub, w.call.again))
  }

  /** Frames of the current generation that may still be shown are the last ones of their slots. */
  predicate Owned(s: Sys)
    requires Shape(s)
  {
    var p, rel, w := s.pool, s.pool.rel, s.world;
    p.bank.count > 0 ==>
      forall a :: 0 <= a < Settled(s) && w.wire[a].generation == p.generation ==>
        w.wire[a].slot < p.bank.count
        && (w.wire[a].point <= w.timeline || w.wire[a].point == rel.last[w.wire[a].slot])
  }

  /** Two frames of one slot in one generation: the earlier one has been released. */
  predicate Exclusive(w: World) {
    forall a, b :: (0 <= a < b < |w.wire| && w.wire[a].generation == w.wire[b].generation
                    && w.wire[a].slot == w.wire[b].slot) ==>
      w.wire[a].point <= w.timeline
  }

  predicate Latest(s: Sys)
    requires Shape(s)
  {
    var p, rel, w := s.pool, s.pool.rel, s.world;
    && (rel.latestValid <==> rel.latestFd >= 0)
    && (rel.latestValid ==>
          && rel.latestGeneration == p.generation && rel.latestSlot < p.bank.count
          && rel.last[rel.latestSlot] == rel.point
          && var n := Settled(s);
             && n > 0
             && w.wire[n - 1].generation == p.generation && w.wire[n - 1].slot == rel.latestSlot
             && w.wire[n - 1].point == rel.point && w.wire[n - 1].content == w.content[rel.latestSlot]
             && (w.rendering ==> rel.acquire.Some? && rel.acquire.value.slot != rel.latestSlot))
    && (w.call.Holding? ==> rel.latestValid && w.call.identity.slot == rel.latestSlot)
    && ((w.call.Sending? || w.call.Sent?) && w.call.again ==>
          rel.latestValid && w.call.sub.identity.slot == rel.latestSlot)
  }

  /** A republished frame shows again exactly what the frame before it showed. */
  predicate Resends(w: World) {
    forall b :: 0 <= b < |w.wire| && w.wire[b].again ==>
      b > 0 && w.wire[b].generation == w.wire[b - 1].generation
      && w.wire[b].slot == w.wire[b - 1].slot && w.wire[b].content == w.wire[b - 1].content
  }

  predicate Identities(s: Sys) {
    var p, w := s.pool, s.world;
    forall id :: id in w.granted ==>
      id.generation <= p.generation
      && (p.bank.count > 0 && id.generation == p.generation ==> id.serial < p.rel.nextSerial)
  }

  predicate WireInv(s: Sys) {
    Shape(s) && Wire(s) && Owned(s) && Exclusive(s.world) && Resends(s.world)
  }

  predicate LocalInv(s: Sys, k: nat) {
    Shape(s) && Counters(s, k) && Pending(s) && Points(s) && Latest(s) && Identities(s)
  }

  predicate Inv(s: Sys, k: nat) { WireInv(s) && LocalInv(s, k) }

  // ---------------------------------------------------------------- preservation

  lemma InitInv(s: Sys)
    requires Init(s)
    ensures Inv(s, 0)
  {
  }

  lemma SerialStep(serial: nat)
    requires serial < U64_LIMIT - 1
    ensures NextSerial(serial) == serial + 1
  {
  }

  /** A step that sends nothing and completes nothing leaves every claim about the wire in place. */
  lemma WireKept(s: Sys, t: Sys)
    requires WireInv(s) && Shape(t)
    requires t.world.wire == s.world.wire && s.world.timeline <= t.world.timeline
    requires t.pool.rel.point == s.pool.rel.point && t.pool.rel.last == s.pool.rel.last
    requires t.pool.generation == s.pool.generation && t.pool.bank.count == s.pool.bank.count
    requires s.pool.rel.lost ==> t.pool.rel.lost
    requires
      || (t.world.call == s.world.call && t.world.content == s.world.content)
      || (!t.world.call.Sent? && !s.world.call.Sent? && (!t.world.call.Sending? || Settled(s) == |s.world.wire|))
      || (t.world.call.Sent? && !t.world.call.ok && Settled(s) == |s.world.wire|)
    ensures Settled(t) == Settled(s) && WireInv(t)
  {
  }

  /** What a successful acquire changes: the slot it took was free, and nothing but the transaction,
      the rotation, the serial and a now stale latest frame moved. */
  lemma AcquireOutcome(p: Pool, polls: seq<Reading>, viewRc: int)
    requires p.bank.count <= |polls| && p.bank.count <= |p.rel.last| && p.rel.nextSerial < U64_LIMIT - 1
    ensures
      var (p', r, effects) := TryAcquire(p, polls, viewRc);
      && p' == p.(rel := p'.rel)
      && p'.rel.last == p.rel.last && p'.rel.point == p.rel.point && p'.rel.lost == p.rel.lost
      && p'.rel.submit == p.rel.submit && p'.rel.slotCount == p.rel.slotCount
      && p.rel.nextSerial <= p'.rel.nextSerial <= p.rel.nextSerial + 1
      && (r.Ready? ==>
            var id := r.identity;
            && Acquirable(p) && !Transacting(p.rel) && !p.rel.lost
            && id.slot < p.bank.count && id == Grant(p, id.slot)
            && (id.previous == 0 || exists i :: 0 <= i < p.bank.count && Wait(id.previous, polls[i]) == 0)
            && p'.rel == (if Shows(p, id.slot) then ClearLatest(p.rel) else p.rel).(
                 acquire := Some(id), nextSlot := p'.rel.nextSlot, nextSerial := p.rel.nextSerial + 1))
      && (!r.Ready? ==> p'.rel == p.rel.(nextSerial := p'.rel.nextSerial))
  {
    SerialStep(p.rel.nextSerial);
  }

  lemma AcquireKeeps(s: Sys, polls: seq<Reading>, viewRc: int, k: nat)
    requires Inv(s, k) && k < U64_LIMIT - 2
    requires s.pool.bank.count <= |polls| && Ordered(s.world.timeline, polls)
    ensures Inv(AfterAcquire(s, polls, viewRc), k + 1)
  {
    var t := AfterAcquire(s, polls, viewRc);
    AcquireOutcome(s.pool, polls, viewRc);
    WireKept(s, t);
    AcquireKeepsLocal(s, polls, viewRc, k);
  }

  lemma AcquireKeepsLocal(s: Sys, polls: seq<Reading>, viewRc: int, k: nat)
    requires Inv(s, k) && k < U64_LIMIT - 2
    requires s.pool.bank.count <= |polls| && Ordered(s.world.timeline, polls)
    requires Settled(AfterAcquire(s, polls, viewRc)) == Settled(s)
    ensures LocalInv(AfterAcquire(s, polls, viewRc), k + 1)
  {
    hide TryAcquire, Settled, WireInv;
    var t := AfterAcquire(s, polls, viewRc);
    AcquireOutcome(s.pool, polls, viewRc);
    assert Pending(t);
    assert Latest(t);
  }

  lemma AbortKeeps(s: Sys, id: Identity, k: nat)
    requires Inv(s, k) && (s.world.call.Holding? ==> id != s.world.call.identity)
    ensures Inv(AfterAbort(s, id), k + 1)
  {
    WireKept(s, AfterAbort(s, id));
    AbortKeepsLocal(s, id, k);
  }

  lemma AbortKeepsLocal(s: Sys, id: Identity, k: nat)
    requires LocalInv(s, k) && (s.world.call.Holding? ==> id != s.world.call.identity)
    ensures LocalInv(AfterAbort(s, id), k + 1)
  {
    assert Settled(AfterAbort(s, id)) == Settled(s);
  }

  lemma ReserveKeeps(s: Sys, id: Identity, fence: int, dup: int, again: bool, k: nat)
    requires Inv(s, k) && k < U64_LIMIT - 2
    requires again <==> s.world.call.Holding? && id == s.world.call.identity
    ensures Inv(AfterReserve(s, id, fence, dup, again), k + 1)
  {
    WireKept(s, AfterReserve(s, id, fence, dup, again));
    ReserveKeepsLocal(s, id, fence, dup, again, k);
  }

  /** What the first half of submit changes: it opens the submission, gives the transaction up, or
      nothing. */
  lemma ReserveOutcome(p: Pool, id: Identity, fence: int, dup: int)
    ensures
      var (p', r, _) := Reserve(p, id, fence, dup);
      && p' == p.(rel := p'.rel)
      && (r.Reserved? ==>
            && p.rel.submit.None? && p.rel.acquire == Some(id) && r.submission == Submission(id, p.rel.point + 1)
            && p'.rel == p.rel.(submit := Some(r.submission))
            && r.retained == (if fence >= 0 then dup else -1) && (fence >= 0 ==> dup >= 0))
      && (!r.Reserved? && p'.rel != p.rel ==>
            p.rel.submit.None? && p.rel.acquire == Some(id) && p'.rel == p.rel.(acquire := None))
  {
  }

  lemma ReserveKeepsLocal(s: Sys, id: Identity, fence: int, dup: int, again: bool, k: nat)
    requires LocalInv(s, k) && k < U64_LIMIT - 2
    requires again <==> s.world.call.Holding? && id == s.world.call.identity
    requires Settled(AfterReserve(s, id, fence, dup, again)) == Settled(s)
    ensures LocalInv(AfterReserve(s, id, fence, dup, again), k + 1)
  {
    hide Reserve, Settled, Pending, Latest;
    ReserveOutcome(s.pool, id, fence, dup);
    ReserveKeepsPending(s, id, fence, dup, again);
    ReserveKeepsLatest(s, id, fence, dup, again);
  }

  lemma ReserveKeepsPending(s: Sys, id: Identity, fence: int, dup: int, again: bool)
    requires Shape(s) && Pending(s)
    requires again <==> s.world.call.Holding? && id == s.world.call.identity
    ensures Shape(AfterReserve(s, id, fence, dup, again)) && Pending(AfterReserve(s, id, fence, dup, again))
  {
    hide Reserve;
    ReserveOutcome(s.pool, id, fence, dup);
    var (p, r, _) := Reserve(s.pool, id, fence, dup);
    var t := AfterReserve(s, id, fence, dup, again);
    if r.Reserved? {
      assert Pending(t);
    } else if p.rel == s.pool.rel {
      assert Pending(t);
    } else {
      assert Pending(t);
    }
  }

  lemma ReserveKeepsLatest(s: Sys, id: Identity, fence: int, dup: int, again: bool)
    requires Shape(s) && Pending(s) && Latest(s) && Shape(AfterReserve(s, id, fence, dup, again))
    requires again <==> s.world.call.Holding? && id == s.world.call.identity
    requires Settled(AfterReserve(s, id, fence, dup, again)) == Settled(s)
    ensures Latest(AfterReserve(s, id, fence, dup, again))
  {
    hide Reserve, Settled;
    ReserveOutcome(s.pool, id, fence, dup);
    var (p, r, _) := Reserve(s.pool, id, fence, dup);
    var t := AfterReserve(s, id, fence, dup, again);
    if r.Reserved? {
      assert Latest(t);
    } else if p.rel == s.pool.rel {
      assert Latest(t);
    } else {
      assert Latest(t);
    }
  }

  lemma RepublishKeeps(s: Sys, poll: Reading, dup: int, k: nat)
    requires Inv(s, k) && k < U64_LIMIT - 2 && s.world.timeline <= poll.time
    ensures Inv(AfterRepublish(s, poll, dup), k + 1)
  {
    SerialStep(s.pool.rel.nextSerial);
    WireKept(s, AfterRepublish(s, poll, dup));
    RepublishKeepsLocal(s, poll, dup, k);
  }

  lemma RepublishKeepsLocal(s: Sys, poll: Reading, dup: int, k: nat)
    requires LocalInv(s, k) && k < U64_LIMIT - 2 && s.world.timeline <= poll.time
    requires Settled(AfterRepublish(s, poll, dup)) == Settled(s)
    ensures LocalInv(AfterRepublish(s, poll, dup), k + 1)
  {
    hide Republish, Settled;
    SerialStep(s.pool.rel.nextSerial);
    RepublishOutcome(s.pool, poll, dup);
    var t := AfterRepublish(s, poll, dup);
    assert Pending(t);
    assert Latest(t);
  }

  /** What republish changes up to its submit: it opens a transaction on the retained slot, draws a serial, or
      nothing. */
  lemma RepublishOutcome(p: Pool, poll: Reading, dup: int)
    requires BankShape(p.bank) && |p.rel.last| == MAX_SLOTS
    ensures
      var (p', r, _) := Republish(p, poll, dup);
      && (r.Again? ==>
            && !p.rel.lost && HasContent(p) && !Transacting(p.rel) && p.rel.latestSlot < MAX_SLOTS
            && p.rel.nextSerial != 0 && r.identity == Grant(p, p.rel.latestSlot)
            && p.rel.last[p.rel.latestSlot] <= poll.time
            && p' == p.(rel := p.rel.(nextSerial := NextSerial(p.rel.nextSerial), acquire := Some(r.identity))))
      && (!r.Again? ==> p' == p || (p' == p.(rel := p.rel.(nextSerial := NextSerial(p.rel.nextSerial)))))
  {
  }

  lemma TransmitKeeps(s: Sys, ok: bool, whole: bool, k: nat)
    requires Inv(s, k) && s.world.call.Sending? && (ok ==> whole) && (whole ==> s.world.call.fence >= 0)
    ensures Inv(AfterTransmit(s, ok, whole), k + 1)
  {
    var t := AfterTransmit(s, ok, whole);
    if !whole {
      WireKept(s, t);
    } else {
      TransmitFrame(s, ok);
      TransmitExclusive(s, ok);
      TransmitResends(s, ok);
    }
  }

  /** The new frame is the one in flight; every frame before it is settled. */
  lemma TransmitFrame(s: Sys, ok: bool)
    requires WireInv(s) && Pending(s) && s.world.call.Sending? && s.world.call.fence >= 0
    ensures
      var t := AfterTransmit(s, ok, true);
      && |t.world.wire| == |s.world.wire| + 1 && t.world.wire[..|s.world.wire|] == s.world.wire
      && Settled(t) == Settled(s) == |s.world.wire| && Wire(t) && Owned(t)
  {
    hide Wire, Owned, Settled, WireInv;
    TransmitSettled(s, ok);
    TransmitWire(s, ok);
    TransmitOwned(s, ok);
  }

  lemma TransmitSettled(s: Sys, ok: bool)
    requires WireInv(s) && Pending(s) && s.world.call.Sending? && s.world.call.fence >= 0
    ensures
      var t := AfterTransmit(s, ok, true);
      && |t.world.wire| == |s.world.wire| + 1 && t.world.wire[..|s.world.wire|] == s.world.wire
      && Settled(t) == Settled(s) == |s.world.wire|
  {
    hide Owned, Exclusive, Resends;
  }

  lemma TransmitWire(s: Sys, ok: bool)
    requires WireInv(s) && Pending(s) && s.world.call.Sending? && s.world.call.fence >= 0
    ensures Wire(AfterTransmit(s, ok, true))
  {
    hide Settled, Owned, Exclusive, Resends;
    TransmitSettled(s, ok);
    var t := AfterTransmit(s, ok, true);
    assert forall a :: 0 <= a < |s.world.wire| ==> t.world.wire[a] == s.world.wire[a];
  }

  lemma TransmitOwned(s: Sys, ok: bool)
    requires WireInv(s) && Pending(s) && s.world.call.Sending? && s.world.call.fence >= 0
    ensures Owned(AfterTransmit(s, ok, true))
  {
    hide Settled, Wire, Exclusive, Resends;
    TransmitSettled(s, ok);
    var t := AfterTransmit(s, ok, true);
    assert forall a :: 0 <= a < |s.world.wire| ==> t.world.wire[a] == s.world.wire[a];
  }

  lemma TransmitExclusive(s: Sys, ok: bool)
    requires WireInv(s) && Pending(s) && s.world.call.Sending? && s.world.call.fence >= 0
    ensures Exclusive(AfterTransmit(s, ok, true).world)
  {
    TransmitFrame(s, ok);
  }

  lemma TransmitResends(s: Sys, ok: bool)
    requires WireInv(s) && Pending(s) && Latest(s) && s.world.call.Sending? && s.world.call.fence >= 0
    ensures Resends(AfterTransmit(s, ok, true).world)
  {
    TransmitFrame(s, ok);
    if s.world.call.again { NewestIsLatest(s); }
    ResendsAppend(s.world, AfterTransmit(s, ok, true).world);
  }

  lemma ResendsAppend(w: World, v: World)
    requires Resends(w) && |v.wire| == |w.wire| + 1 && v.wire[..|w.wire|] == w.wire
    requires
      var n := |w.wire|;
      v.wire[n].again ==>
        n > 0 && v.wire[n].generation == w.wire[n - 1].generation
        && v.wire[n].slot == w.wire[n - 1].slot && v.wire[n].content == w.wire[n - 1].content
    ensures Resends(v)
  {
    assert forall a :: 0 <= a < |w.wire| ==> v.wire[a] == w.wire[a];
  }

  /** What a frame about to be republished repeats. */
  lemma NewestIsLatest(s: Sys)
    requires Shape(s) && Pending(s) && Latest(s) && s.world.call.Sending?
    requires Settled(s) == |s.world.wire| && s.world.call.again
    ensures
      var n, id := |s.world.wire|, s.world.call.sub.identity;
      && n > 0 && id.slot < MAX_SLOTS && s.world.wire[n - 1].generation == id.generation
      && s.world.wire[n - 1].slot == id.slot && s.world.wire[n - 1].content == s.world.content[id.slot]
  {
  }

  lemma FinishKeeps(s: Sys, rc: int, k: nat)
    requires Inv(s, k) && s.world.call.Sent? && (rc == 0 <==> s.world.call.ok)
    ensures Inv(AfterFinish(s, rc), k + 1)
  {
    FinishWire(s, rc);
    FinishOwned(s, rc);
    FinishLocal(s, rc, k);
  }

  lemma FinishWire(s: Sys, rc: int)
    requires WireInv(s) && Pending(s) && s.world.call.Sent? && (rc == 0 <==> s.world.call.ok)
    ensures Settled(AfterFinish(s, rc)) == if rc == 0 then |s.world.wire| else Settled(s)
    ensures Wire(AfterFinish(s, rc))
  {
  }

  lemma FinishOwned(s: Sys, rc: int)
    requires WireInv(s) && Pending(s) && s.world.call.Sent? && (rc == 0 <==> s.world.call.ok)
    ensures Owned(AfterFinish(s, rc))
  {
    FinishWire(s, rc);
  }

  lemma FinishLocal(s: Sys, rc: int, k: nat)
    requires Inv(s, k) && s.world.call.Sent? && (rc == 0 <==> s.world.call.ok)
    ensures LocalInv(AfterFinish(s, rc), k + 1)
  {
    FinishWire(s, rc);
    var t := AfterFinish(s, rc);
    assert Points(t);
    assert Pending(t);
    assert Latest(t);
  }

  /** Rebinding: the release state is reset while nothing is in flight, and the slots of the new
      bank, if any, start a new generation. */
  lemma RebindKeeps(s: Sys, t: Sys, k: nat)
    requires Inv(s, k) && !Transacting(s.pool.rel) && Shape(t) && t.world == s.world
    requires t.pool.candidate.Some? ==> t.pool.candidate == s.pool.candidate
    requires t.pool.rel == ResetRelease(s.pool.rel).(slotCount := t.pool.bank.count, lost := t.pool.rel.lost)
    requires s.pool.rel.lost ==> t.pool.rel.lost
    requires t.pool.generation == s.pool.generation + (if t.pool.bank.count > 0 then 1 else 0)
    requires t.pool.hasDirective
    ensures Inv(t, k + 1)
  {
    assert Settled(t) == Settled(s);
    assert Wire(t);
    assert Owned(t);
  }

  /** Either the directive is refused and nothing changed, or the old bank is gone: then a whole new
      bank serves under a new generation, or, after an allocation failure, no slot is left. */
  lemma ApplyOutcome(p: Pool, d: Directive, answers: seq<AllocAnswer>, sendRc: int)
    requires BankShape(p.bank) && GoodAnswers(answers)
    ensures
      var (p', rc, msg, _) := Apply(p, d, answers, sendRc);
      && (ApplyRefusal(p, d) != 0 ==> p' == p && msg.None?)
      && (ApplyRefusal(p, d) == 0 ==>
            && p'.bank.backend == p.bank.backend && p'.bank.directive == d && p'.bank.extent == p.caps.probe
            && p'.bank.count == (if GrantedPrefix(answers, d.count) == d.count then d.count else 0)
            && BankShape(p'.bank)
            && p' == p.(bank := p'.bank, hasDirective := true,
                        generation := p.generation + (if p'.bank.count > 0 then 1 else 0),
                        rel := ResetRelease(p.rel).(slotCount := p'.bank.count)))
      && (msg.Some? ==> p'.bank.count > 0 && UniformPlanes(p'.bank) && msg.value == Describe(p'.bank, p'.generation))
  {
  }

  lemma ApplyKeeps(s: Sys, d: Directive, answers: seq<AllocAnswer>, sendRc: int, k: nat)
    requires Inv(s, k) && GoodAnswers(answers)
    ensures Inv(Sys(Apply(s.pool, d, answers, sendRc).0, s.world), k + 1)
  {
    ApplyOutcome(s.pool, d, answers, sendRc);
    if ApplyRefusal(s.pool, d) == 0 {
      RebindKeeps(s, Sys(Apply(s.pool, d, answers, sendRc).0, s.world), k);
    }
  }

  /** A commit that goes ahead installs the candidate whole: backend, directive, extent, count and
      slots all come from it, the generation is new, and what is announced is exactly that bank. */
  lemma CommitOutcome(p: Pool, sendRc: int)
    requires BankShape(p.bank) && (p.candidate.Some? ==> BankShape(p.candidate.value) && p.candidate.value.count > 0)
    ensures
      var (p', rc, generation, msg, _) := Commit(p, sendRc);
      && (p.candidate.None? || p.rel.lost || Transacting(p.rel) ==> p' == p && msg.None? && generation.None? && rc != 0)
      && (p.candidate.Some? && !p.rel.lost && !Transacting(p.rel) ==>
            && p' == p.(bank := p.candidate.value, candidate := None, hasDirective := true,
                        generation := p.generation + 1,
                        rel := ResetRelease(p.rel).(slotCount := p.candidate.value.count, lost := rc != 0))
            && generation == Some(p.generation + 1)
            && (msg.Some? <==> UniformPlanes(p.candidate.value))
            && (msg.Some? ==> rc == sendRc && msg.value == Describe(p.candidate.value, p.generation + 1)))
  {
  }

  lemma CommitKeeps(s: Sys, sendRc: int, k: nat)
    requires Inv(s, k)
    ensures Inv(Sys(StillLost(s.pool, Commit(Calm(s.pool), sendRc).0), s.world), k + 1)
  {
    hide Commit;
    CommitOutcome(Calm(s.pool), sendRc);
    var t := Sys(StillLost(s.pool, Commit(Calm(s.pool), sendRc).0), s.world);
    if s.pool.candidate.Some? && !Transacting(s.pool.rel) {
      RebindKeeps(s, t, k);
    } else {
      assert t == s;
      Later(s, k);
    }
  }

  lemma Later(s: Sys, k: nat)
    requires Inv(s, k)
    ensures Inv(s, k + 1)
  {
  }

  lemma PrepareKeeps(s: Sys, d: Directive, extent: Extent, fork: ForkAnswer, answers: seq<AllocAnswer>, k: nat)
    requires Inv(s, k) && GoodAnswers(answers) && (fork.NoFork? ==> fork.rc != 0)
    ensures Inv(Sys(StillLost(s.pool, Prepare(Calm(s.pool), d, extent, fork, answers).0), s.world), k + 1)
  {
    hide Prepare;
    CandidateOutcome(Calm(s.pool), d, extent, fork, answers);
    CandidateKeeps(s, Sys(StillLost(s.pool, Prepare(Calm(s.pool), d, extent, fork, answers).0), s.world), k);
  }

  /** Preparing and aborting a target touch only the candidate. */
  lemma CandidateOutcome(p: Pool, d: Directive, extent: Extent, fork: ForkAnswer, answers: seq<AllocAnswer>)
    requires GoodAnswers(answers) && (p.candidate.Some? ==> BankShape(p.candidate.value))
    requires fork.NoFork? ==> fork.rc != 0
    ensures
      var (p', rc, _) := Prepare(p, d, extent, fork, answers);
      && (rc != 0 ==> p' == p)
      && (rc == 0 ==>
            && p.candidate.None? && p' == p.(candidate := p'.candidate) && p'.candidate.Some?
            && var c := p'.candidate.value;
               BankShape(c) && c.count == d.count > 0 && c.directive == d && c.extent == extent)
    ensures AbortTarget(p).0 == p.(candidate := None)
  {
  }

  lemma CandidateKeeps(s: Sys, t: Sys, k: nat)
    requires Inv(s, k) && t == s.(pool := s.pool.(candidate := t.pool.candidate))
    requires t.pool.candidate.Some? ==> BankShape(t.pool.candidate.value) && t.pool.candidate.value.count > 0
    ensures Inv(t, k + 1)
  {
    WireKept(s, t);
  }

  /** The outside world moves: time passes, the session is lost, a fence appears, or the renderer
      draws into the slot it holds. */
  lemma WorldKeeps(s: Sys, t: Sys, k: nat)
    requires Inv(s, k)
    requires t.pool == s.pool.(rel := s.pool.rel.(lost := t.pool.rel.lost)) && (s.pool.rel.lost ==> t.pool.rel.lost)
    requires t.world == s.world.(held := t.world.held, timeline := t.world.timeline, content := t.world.content)
    requires s.world.timeline <= t.world.timeline && |t.world.content| == MAX_SLOTS
    requires t.world.content == s.world.content
      || (s.world.rendering && forall i :: 0 <= i < MAX_SLOTS && i != s.pool.rel.acquire.value.slot ==>
                                             t.world.content[i] == s.world.content[i])
    ensures Inv(t, k + 1)
  {
    WireKept(s, t);
  }

  lemma AllocationKeeps(s: Sys, step: Step, k: nat)
    requires Inv(s, k) && Guard(s, step)
    requires step.DoApply? || step.DoPrepare? || step.DoAbortTarget? || step.DoCommit?
    ensures Inv(Move(s, step), k + 1)
  {
    hide Apply, Prepare, Commit, Inv, Move, Guard, Shape;
    InvShape(s, k);
    AllocationMove(s, step);
    match step {
      case DoApply(d, answers, sendRc) => ApplyKeeps(s, d, answers, sendRc, k);
      case DoPrepare(d, extent, fork, answers) => PrepareKeeps(s, d, extent, fork, answers, k);
      case DoAbortTarget => AbortTargetKeeps(s, k);
      case DoCommit(sendRc) => CommitKeeps(s, sendRc, k);
      case _ => assert false;
    }
    JobIrrelevant(Sys(Move(s, step).pool, s.world), None, k + 1);
  }

  lemma InvShape(s: Sys, k: nat)
    requires Inv(s, k)
    ensures Shape(s)
  {
  }

  /** An allocation call leaves the world as it is, but for the job, which is done. */
  lemma AllocationMove(s: Sys, step: Step)
    requires Shape(s) && Guard(s, step)
    requires step.DoApply? || step.DoPrepare? || step.DoAbortTarget? || step.DoCommit?
    ensures
      var p, q := s.pool, Move(s, step).pool;
      && Move(s, step) == Sys(q, s.world.(job := None))
      && (step.DoApply? ==> q == Apply(p, step.directive, step.answers, step.sendRc).0)
      && (step.DoPrepare? ==> q == StillLost(p, Prepare(Calm(p), step.directive, step.extent, step.fork, step.answers).0))
      && (step.DoAbortTarget? ==> q == AbortTarget(p).0)
      && (step.DoCommit? ==> q == StillLost(p, Commit(Calm(p), step.sendRc).0))
    ensures step.DoApply? || step.DoPrepare? ==> GoodAnswers(step.answers)
    ensures step.DoPrepare? ==> step.fork.NoFork? ==> step.fork.rc != 0
  {
    hide Apply, Prepare, Commit;
  }

  lemma AbortTargetKeeps(s: Sys, k: nat)
    requires Inv(s, k)
    ensures Inv(Sys(AbortTarget(s.pool).0, s.world), k + 1)
  {
    CandidateKeeps(s, Sys(AbortTarget(s.pool).0, s.world), k);
  }

  /** No invariant looks at the job. */
  lemma JobIrrelevant(s: Sys, job: Option<Job>, k: nat)
    requires Inv(s, k)
    ensures Inv(s.(world := s.world.(job := job)), k)
  {
    WireKept(s, s.(world := s.world.(job := job)));
  }

  lemma SubmissionKeeps(s: Sys, step: Step, k: nat)
    requires Inv(s, k) && k < U64_LIMIT - 2 && Guard(s, step)
    requires step.DoReserve? || step.Resubmit? || step.Transmit? || step.DoFinish?
    ensures Inv(Move(s, step), k + 1)
  {
    match step
    case DoReserve(id, fence, dup) => ReserveKeeps(s, id, fence, dup, false, k);
    case Resubmit(dup) => ReserveKeeps(s, s.world.call.identity, s.world.call.fence, dup, true, k);
    case Transmit(ok, whole) => TransmitKeeps(s, ok, whole, k);
    case DoFinish(rc) => FinishKeeps(s, rc, k);
    case _ => assert false;
  }

  lemma MoveKeeps(s: Sys, step: Step, k: nat)
    requires Inv(s, k) && k < U64_LIMIT - 2 && Guard(s, step)
    ensures Inv(Move(s, step), k + 1)
  {
    hide Inv, WireInv, LocalInv;
    InvShape(s, k);
    if step.DoAcquire? {
      AcquireKeeps(s, step.polls, step.viewRc, k);
    } else if step.DoAbort? {
      AbortKeeps(s, step.identity, k);
    } else if step.DoRepublish? {
      RepublishKeeps(s, step.poll, step.dup, k);
    } else if step.DoReserve? || step.Resubmit? || step.Transmit? || step.DoFinish? {
      SubmissionKeeps(s, step, k);
    } else if step.DoApply? || step.DoPrepare? || step.DoAbortTarget? || step.DoCommit? {
      AllocationKeeps(s, step, k);
    } else if step.Check? {
      Later(s, k);
      JobIrrelevant(s, Some(step.job), k + 1);
    } else {
      OutsideKeeps(s, step, k);
    }
  }

  lemma OutsideKeeps(s: Sys, step: Step, k: nat)
    requires Inv(s, k) && Guard(s, step) && (step.Fence? || step.Render? || step.Signal? || step.Lose?)
    ensures Inv(Move(s, step), k + 1)
  {
    WorldKeeps(s, Move(s, step), k);
  }

  /** No invariant looks at the ledger. */
  lemma LedgerIrrelevant(s: Sys, l: Ledger, k: nat)
    requires Inv(s, k)
    ensures Inv(s.(world := s.world.(ledger := l)), k)
  {
    WireKept(s, s.(world := s.world.(ledger := l)));
  }

  /** The invariant holds in every state of every run of fewer than 2^64 - 2 steps. */
  lemma {:induction false} RunInv(states: seq<Sys>, steps: seq<Step>, i: nat)
    requires Run(states, steps) && i <= |steps| < U64_LIMIT - 2
    ensures Inv(states[i], i)
  {
    hide Inv, Init, Enabled, Next;
    if i == 0 {
      InitInv(states[0]);
    } else {
      RunInv(states, steps, i - 1);
      assert StepAt(states, steps, i - 1);
      StepInv(states[i - 1], steps[i - 1], i - 1);
    }
  }

  lemma StepInv(s: Sys, step: Step, k: nat)
    requires Inv(s, k) && k < U64_LIMIT - 2 && Enabled(s, step)
    ensures Inv(Next(s, step), k + 1)
  {
    hide Inv, Shape, Guard, Move, Effects, PerformAll, Honest;
    MoveKeeps(s, step, k);
    LedgerIrrelevant(Move(s, step), PerformAll(s.world.ledger, Effects(s, step)), k + 1);
  }

  // ---------------------------------------------------------------- what runs promise

  /** The identity a step hands out, to the renderer or inside republish. */
  function Grants(s: Sys, step: Step): Option<Identity>
    requires Shape(s) && Guard(s, step)
  {
    if step.DoAcquire? then
      var r := TryAcquire(s.pool, step.polls, step.viewRc).1;
      if r.Ready? then Some(r.identity) else None
    else if step.DoRepublish? then
      var r := Republish(s.pool, step.poll, step.dup).1;
      if r.Again? then Some(r.identity) else None
    else None
  }

  /** A slot is granted, for rendering or for republishing, only while no transaction is open, and only
      when every frame ever sent for it in this generation has been released on the timeline. The
      identity handed out was never handed out before. */
  lemma GrantedOnlyWhenReleased(states: seq<Sys>, steps: seq<Step>, i: nat)
    requires Run(states, steps) && i < |steps| < U64_LIMIT - 2
    ensures StepAt(states, steps, i)
    ensures Grants(states[i], steps[i]).Some? ==>
      var s, t, id := states[i], states[i + 1], Grants(states[i], steps[i]).value;
      && !Transacting(s.pool.rel) && id !in s.world.granted
      && (forall f :: f in s.world.wire && f.generation == id.generation && f.slot == id.slot ==>
            f.point <= t.world.timeline)
  {
    RunInv(states, steps, i);
    RunInv(states, steps, i + 1);
    var s := states[i];
    assert StepAt(states, steps, i);
    if Grants(s, steps[i]).Some? {
      GrantShape(s, steps[i], i);
      assert Settled(s) == |s.world.wire|;
    }
  }

  /** The step from `s` to `t` grants `id`. */
  predicate Granting(s: Sys, id: Identity, t: Sys) {
    && Acquirable(s.pool) && !Transacting(s.pool.rel) && !s.pool.rel.lost
    && id.slot < s.pool.bank.count && id.slot < |s.pool.rel.last| && id == Grant(s.pool, id.slot)
    && t.pool.rel.acquire == Some(id) && t.pool.generation == s.pool.generation
    && t.world.wire == s.world.wire && s.world.timeline <= t.world.timeline
    && id.previous <= t.world.timeline
  }

  lemma GrantShape(s: Sys, step: Step, k: nat)
    requires Inv(s, k) && Enabled(s, step) && k < U64_LIMIT - 2 && Grants(s, step).Some?
    ensures Granting(s, Grants(s, step).value, Next(s, step))
  {
    hide TryAcquire, Republish, Honest, PerformAll, WireInv;
    if step.DoAcquire? {
      AcquireOutcome(s.pool, step.polls, step.viewRc);
    } else {
      RepublishOutcome(s.pool, step.poll, step.dup);
    }
  }

  /** Two frames of one slot and one generation are never both unreleased. */
  lemma OneUnreleasedFramePerSlot(states: seq<Sys>, steps: seq<Step>, i: nat, a: nat, b: nat)
    requires Run(states, steps) && i <= |steps| < U64_LIMIT - 2
    requires a < |states[i].world.wire| && b < |states[i].world.wire|
    requires
      var w := states[i].world;
      && w.wire[a].generation == w.wire[b].generation && w.wire[a].slot == w.wire[b].slot
      && w.wire[a].point > w.timeline && w.wire[b].point > w.timeline
    ensures a == b
  {
    RunInv(states, steps, i);
  }

  /** Release points on the wire strictly increase, over rebinds and failed sends alike. */
  lemma WirePointsIncrease(states: seq<Sys>, steps: seq<Step>, i: nat, a: nat, b: nat)
    requires Run(states, steps) && i <= |steps| < U64_LIMIT - 2
    requires a < b < |states[i].world.wire|
    ensures 0 < states[i].world.wire[a].point < states[i].world.wire[b].point
  {
    RunInv(states, steps, i);
  }

  /** The points remembered per slot are bounded by the last committed one and never shared. */
  lemma RememberedPointsDistinct(states: seq<Sys>, steps: seq<Step>, i: nat, a: nat, b: nat)
    requires Run(states, steps) && i <= |steps| < U64_LIMIT - 2 && a < MAX_SLOTS && b < MAX_SLOTS
    ensures
      var rel := states[i].pool.rel;
      |rel.last| == MAX_SLOTS && rel.last[a] <= rel.point && (rel.last[a] == rel.last[b] != 0 ==> a == b)
  {
    RunInv(states, steps, i);
  }

  /** Every republished frame repeats the frame sent just before it: same generation, slot and
      content, under a later release point. */
  lemma RepublishResendsNewest(states: seq<Sys>, steps: seq<Step>, i: nat, b: nat)
    requires Run(states, steps) && i <= |steps| < U64_LIMIT - 2
    requires b < |states[i].world.wire| && states[i].world.wire[b].again
    ensures b > 0
    ensures
      var f, g := states[i].world.wire[b - 1], states[i].world.wire[b];
      g.generation == f.generation && g.slot == f.slot && g.content == f.content && f.point < g.point
  {
    RunInv(states, steps, i);
  }

  /** While content is retained, it is what the newest committed frame shows: its slot belongs to the
      current generation, carries the newest point, is not being drawn into, and still shows that. */
  lemma RetainedContentIsNewest(states: seq<Sys>, steps: seq<Step>, i: nat)
    requires Run(states, steps) && i <= |steps| < U64_LIMIT - 2 && states[i].pool.rel.latestValid
    ensures
      var s := states[i];
      var rel := s.pool.rel;
      && rel.latestGeneration == s.pool.generation && rel.latestSlot < s.pool.bank.count && rel.latestFd >= 0
      && Shape(s) && rel.last[rel.latestSlot] == rel.point
      && (s.world.rendering ==> rel.acquire.Some? && rel.acquire.value.slot != rel.latestSlot)
      && exists f :: f in s.world.wire && f.generation == s.pool.generation && f.slot == rel.latestSlot
           && f.point == rel.point && f.content == s.world.content[rel.latestSlot]
  {
    RunInv(states, steps, i);
    var n := Settled(states[i]);
    assert states[i].world.wire[n - 1] in states[i].world.wire;
  }

  // ---------------------------------------------------------------- stale identities

  /** The open transaction changes only by a grant, or by ending. */
  lemma TransactionSource(s: Sys, step: Step)
    requires Shape(s) && Guard(s, step)
    ensures
      var t := Move(s, step);
      && s.world.granted <= t.world.granted
      && (t.pool.rel.acquire.None? || t.pool.rel.acquire == s.pool.rel.acquire || t.pool.rel.acquire == Grants(s, step))
  {
    hide Apply, Commit, Prepare;
    match step
    case DoApply(d, answers, sendRc) => ApplyOutcome(s.pool, d, answers, sendRc);
    case DoCommit(sendRc) => CommitSource(Calm(s.pool), sendRc);
    case DoPrepare(d, extent, fork, answers) => CandidateOutcome(Calm(s.pool), d, extent, fork, answers);
    case _ =>
  }

  lemma CommitSource(p: Pool, sendRc: int)
    requires BankShape(p.bank) && (p.candidate.Some? ==> BankShape(p.candidate.value))
    ensures Commit(p, sendRc).0 == p || Commit(p, sendRc).0.rel.acquire.None?
  {
  }

  /** An identity that is no longer the open transaction never becomes it again. */
  lemma StepKeepsDead(s: Sys, step: Step, id: Identity, k: nat)
    requires Inv(s, k) && k < U64_LIMIT - 2 && Enabled(s, step)
    requires id in s.world.granted && s.pool.rel.acquire != Some(id)
    ensures id in Next(s, step).world.granted && Next(s, step).pool.rel.acquire != Some(id)
  {
    TransactionSource(s, step);
    if Grants(s, step).Some? {
      GrantShape(s, step, k);
    }
  }

  lemma {:induction false} ConsumedIdentityStaysDead(states: seq<Sys>, steps: seq<Step>, i: nat, j: nat, id: Identity)
    requires Run(states, steps) && i <= j <= |steps| < U64_LIMIT - 2
    requires id in states[i].world.granted && states[i].pool.rel.acquire != Some(id)
    ensures id in states[j].world.granted && states[j].pool.rel.acquire != Some(id)
    decreases j
  {
    hide Inv, Enabled, Next, Init;
    if i < j {
      ConsumedIdentityStaysDead(states, steps, i, j - 1, id);
      RunInv(states, steps, j - 1);
      var s, step := states[j - 1], steps[j - 1];
      assert StepAt(states, steps, j - 1);
      StepKeepsDead(s, step, id, j - 1);
    }
  }

  /** Presenting an identity that is not the open transaction is refused and changes nothing. */
  lemma StaleIdentityRefused(p: Pool, id: Identity, fence: int, dup: int)
    requires p.rel.acquire != Some(id)
    ensures Abort(p, id).0 == p && Abort(p, id).1 != 0
    ensures Reserve(p, id, fence, dup).0 == p && !Reserve(p, id, fence, dup).1.Reserved?
    ensures Reserve(p, id, fence, dup).2 == CloseIfOpen(fence)
  {
  }
}
