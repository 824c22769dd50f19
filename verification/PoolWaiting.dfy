/** Why the blocking acquire may wait on one point only: when no slot is ready every slot carries an
    unreleased point, and the release of the smallest one makes the next attempt succeed. */
module PoolWaiting {
  import opened Common
  import opened Arithmetic
  import opened PoolSpec
  import opened PoolSystem

  /** The smallest nonzero point of the first `count` slots; the largest 64-bit value when there is none. */
  function NextPoint(last: seq<nat>, count: nat): (m: nat)
    requires count <= |last|
    ensures m <= U64_LIMIT - 1
    ensures forall i :: 0 <= i < count && last[i] != 0 ==> m <= last[i]
    ensures m != U64_LIMIT - 1 ==> exists i :: 0 <= i < count && last[i] == m != 0
  {
    if count == 0 then U64_LIMIT - 1
    else
      var m := NextPoint(last, count - 1);
      if last[count - 1] != 0 && last[count - 1] < m then last[count - 1] else m
  }

  /** A poll that fails does not fail by pretending the point is still pending. */
  predicate Plain(r: Reading) { r.fault == 0 || !WouldBlock(r.fault) }

  /** Every slot is met once during a rotation. */
  lemma RotationReaches(next: nat, count: nat, i: nat) returns (k: nat)
    requires i < count
    ensures k < count && Rotated(next, k, count) == i
  {
    var q, base := next / count, next % count;
    assert next == q * count + base;
    if base <= i {
      k := i - base;
      RemainderUnique(next + k, q, i, count);
    } else {
      k := i + count - base;
      assert (q + 1) * count == q * count + count;
      RemainderUnique(next + k, q + 1, i, count);
    }
  }

  /** BUSY is reported exactly when a grant is admissible but every slot carries a point whose poll
      would block. */
  lemma BusyExactly(p: Pool, polls: seq<Reading>, viewRc: int)
    requires |p.rel.last| == MAX_SLOTS && p.bank.count <= MAX_SLOTS && p.bank.count <= |polls|
    ensures
      TryAcquire(p, polls, viewRc).1.Busy? <==>
        && !p.rel.lost && Acquirable(p) && !Transacting(p.rel)
        && forall k :: 0 <= k < p.bank.count ==>
             var point := p.rel.last[Rotated(p.rel.nextSlot, k, p.bank.count)];
             point != 0 && WouldBlock(Wait(point, polls[k]))
  {
  }

  lemma BusyMeansAllUnreleased(p: Pool, polls: seq<Reading>, viewRc: int, time: nat, i: nat)
    requires |p.rel.last| == MAX_SLOTS && p.bank.count <= MAX_SLOTS && p.bank.count <= |polls|
    requires Ordered(time, polls) && (forall k :: 0 <= k < |polls| ==> Plain(polls[k]))
    requires TryAcquire(p, polls, viewRc).1.Busy? && i < p.bank.count
    ensures p.rel.last[i] > time
  {
    var k := RotationReaches(p.rel.nextSlot, p.bank.count, i);
    BusyExactly(p, polls, viewRc);
  }

  /** On an ordered timeline the smallest point is released as soon as any point is. */
  lemma MinimumReadyFirst(last: seq<nat>, count: nat, time: nat, i: nat)
    requires i < count <= |last| && 0 < last[i] <= time
    ensures NextPoint(last, count) <= time
  {
  }

  /** After BUSY, once the timeline has reached the smallest point, the next attempt on the same pool
      cannot report BUSY; without faults it grants a slot that is free. */
  lemma WaitOnMinimumUnblocks(p: Pool, before: seq<Reading>, after: seq<Reading>, viewRc: int, time: nat)
    requires |p.rel.last| == MAX_SLOTS && p.bank.count <= MAX_SLOTS
    requires p.bank.count <= |before| && p.bank.count <= |after|
    requires (forall i :: 0 <= i < MAX_SLOTS ==> p.rel.last[i] < U64_LIMIT - 1)
    requires TryAcquire(p, before, viewRc).1.Busy?
    requires NextPoint(p.rel.last, p.bank.count) <= time
    requires Ordered(time, after) && (forall k :: 0 <= k < |after| ==> Plain(after[k]))
    ensures !TryAcquire(p, after, viewRc).1.Busy?
    ensures viewRc == 0 && p.rel.nextSerial != 0 && (forall k :: 0 <= k < |after| ==> after[k].fault == 0) ==>
              var r := TryAcquire(p, after, viewRc).1;
              r.Ready? && r.released && 0 < r.identity.previous <= LastTime(time, after)
  {
    BusyExactly(p, before, viewRc);
    BusyExactly(p, after, viewRc);
    var z := RotationReaches(p.rel.nextSlot, p.bank.count, 0);
    assert p.rel.last[0] < U64_LIMIT - 1;
    var i :| 0 <= i < p.bank.count && p.rel.last[i] == NextPoint(p.rel.last, p.bank.count);
    var k := RotationReaches(p.rel.nextSlot, p.bank.count, i);
    assert !WouldBlock(Wait(p.rel.last[Rotated(p.rel.nextSlot, k, p.bank.count)], after[k]));
  }
}
