/** Conservation: in every state of every run the open descriptors are exactly those the pool, its
    candidate, an unfinished submit and the caller hold, one owner each, and the live slot
    allocations are exactly the slots of the two banks. So nothing leaks and nothing is released
    twice, and destroying the pool leaves only what the caller holds. */
module PoolResources {
  import opened Common
  import opened PoolSpec
  import opened PoolSystem
  import opened PoolSafety

  function Unit(fd: int): multiset<int> { if fd >= 0 then multiset{fd} else multiset{} }

  function BankHolds(b: Bank): multiset<int>
    requires b.count <= |b.slots|
  {
    multiset(BankFds(b.slots, b.count))
  }

  function CallHolds(c: Call): multiset<int> {
    match c
    case Idle => multiset{}
    case Holding(_, fence) => Unit(fence)
    case Sending(_, fence, retained, _) => Unit(fence) + Unit(retained)
    case Sent(_, retained, _, _) => Unit(retained)
  }

  /** The parts of the system that own something. */
  datatype Account = Account(
    bank: Bank, candidate: Option<Bank>, latestFd: int, drmFd: int, held: set<int>, call: Call)

  function AccountOf(s: Sys): Account {
    Account(s.pool.bank, s.pool.candidate, s.pool.rel.latestFd, s.pool.drmFd, s.world.held, s.world.call)
  }

  predicate Sound(a: Account) {
    && BankShape(a.bank) && (a.candidate.Some? ==> BankShape(a.candidate.value))
    && (a.candidate.Some? ==> a.candidate.value.backend != a.bank.backend)
    && (forall fd :: fd in a.held ==> fd >= 0)
  }

  function CandidateHolds(candidate: Option<Bank>): multiset<int>
    requires candidate.Some? ==> BankShape(candidate.value)
  {
    if candidate.Some? then BankHolds(candidate.value) else multiset{}
  }

  /** What the pool struct itself owns. */
  function Kept(bank: Bank, candidate: Option<Bank>, latestFd: int, drmFd: int): multiset<int>
    requires BankShape(bank) && (candidate.Some? ==> BankShape(candidate.value))
  {
    BankHolds(bank) + CandidateHolds(candidate) + Unit(latestFd) + Unit(drmFd)
  }

  /** Every descriptor somebody owns, with multiplicity. */
  function Holds(a: Account): multiset<int>
    requires Sound(a)
  {
    Kept(a.bank, a.candidate, a.latestFd, a.drmFd) + multiset(a.held) + CallHolds(a.call)
  }

  function Slots(backend: nat, count: nat): (r: set<(nat, nat)>)
    ensures forall x :: x in r <==> x.0 == backend && x.1 < count
  {
    if count == 0 then {} else Slots(backend, count - 1) + {(backend, count - 1)}
  }

  function LiveOf(b: Bank): set<(nat, nat)> { Slots(b.backend, b.count) }

  function Live(a: Account): set<(nat, nat)> {
    LiveOf(a.bank) + if a.candidate.Some? then LiveOf(a.candidate.value) else {}
  }

  function Backends(a: Account): set<nat> {
    {a.bank.backend} + if a.candidate.Some? then {a.candidate.value.backend} else {}
  }

  predicate Accounted(a: Account, l: Ledger) {
    && Sound(a)
    && !l.fault && l.refused == {}
    && multiset(l.open) == Holds(a)
    && l.live == Live(a)
    && l.backends == Backends(a)
  }

  // ---------------------------------------------------------------- effects in bulk

  lemma {:induction false} PerformAppend(l: Ledger, a: seq<Effect>, b: seq<Effect>)
    ensures PerformAll(l, a + b) == PerformAll(PerformAll(l, a), b)
    decreases |b|
  {
    if b == [] {
      assert a + b == a;
    } else {
      var init := b[..|b| - 1];
      assert (a + b)[..|a + b| - 1] == a + init;
      PerformAppend(l, a, init);
    }
  }

  lemma PerformNone(l: Ledger)
    ensures PerformAll(l, []) == l
  {
  }

  lemma PerformOne(l: Ledger, e: Effect)
    ensures PerformAll(l, [e]) == Perform(l, e)
  {
    assert [e][..0] == [];
  }

  lemma {:induction false} HonestParts(l: Ledger, a: seq<Effect>, b: seq<Effect>)
    requires Honest(l, a + b)
    ensures Honest(l, a) && Honest(PerformAll(l, a), b)
    decreases |b|
  {
    if b == [] {
      assert a + b == a;
    } else {
      var init := b[..|b| - 1];
      assert (a + b)[..|a + b| - 1] == a + init;
      HonestParts(l, a, init);
      PerformAppend(l, a, init);
    }
  }

  lemma RemoveOne(open: set<int>, fd: int)
    requires multiset(open)[fd] > 0
    ensures fd in open && multiset(open - {fd}) == multiset(open) - multiset{fd}
  {
  }

  /** Closing a list of open descriptors, none listed twice. */
  lemma {:induction false} PerformCloses(l: Ledger, fds: seq<int>)
    requires multiset(fds) <= multiset(l.open)
    ensures var r := PerformAll(l, Closes(fds));
            r == l.(open := r.open) && multiset(r.open) == multiset(l.open) - multiset(fds)
    decreases |fds|
  {
    if fds != [] {
      var init, last := fds[..|fds| - 1], fds[|fds| - 1];
      assert fds == init + [last];
      assert Closes(fds) == Closes(init) + [Close(last)];
      assert multiset(fds) == multiset(init) + multiset{last};
      PerformCloses(l, init);
      var mid := PerformAll(l, Closes(init));
      PerformAppend(l, Closes(init), [Close(last)]);
      PerformOne(mid, Close(last));
      assert multiset(mid.open) == multiset(l.open) - multiset(init);
      RemoveOne(mid.open, last);
    }
  }

  lemma PerformCloseIfOpen(l: Ledger, fd: int)
    requires Unit(fd) <= multiset(l.open)
    ensures var r := PerformAll(l, CloseIfOpen(fd));
            r == l.(open := r.open) && multiset(r.open) == multiset(l.open) - Unit(fd)
  {
    if fd >= 0 {
      PerformOne(l, Close(fd));
      assert multiset(l.open)[fd] > 0;
    }
  }

  /** Freeing slots each of which is live or just refused. */
  lemma {:induction false} PerformFrees(l: Ledger, backend: nat, count: nat)
    requires Slots(backend, count) <= l.live + l.refused
    ensures var r := PerformAll(l, Frees(backend, count));
            r == l.(live := l.live - Slots(backend, count), refused := l.refused - Slots(backend, count))
  {
    if count > 0 {
      PerformFrees(l, backend, count - 1);
      assert Frees(backend, count) == Frees(backend, count - 1) + [Free(backend, count - 1)];
      PerformAppend(l, Frees(backend, count - 1), [Free(backend, count - 1)]);
      PerformOne(PerformAll(l, Frees(backend, count - 1)), Free(backend, count - 1));
    }
  }

  /** Tearing a bank down gives back its slots and its descriptors, each once and no more, if its slots are
      live or just refused and its descriptors are open. */
  lemma PerformTeardown(l: Ledger, b: Bank)
    requires b.count <= |b.slots| && BankHolds(b) <= multiset(l.open) && LiveOf(b) <= l.live + l.refused
    ensures var r := PerformAll(l, Teardown(b));
            && r == l.(open := r.open, live := l.live - LiveOf(b), refused := l.refused - LiveOf(b))
            && multiset(r.open) == multiset(l.open) - BankHolds(b)
  {
    PerformAppend(l, Frees(b.backend, b.count), Closes(BankFds(b.slots, b.count)));
    PerformFrees(l, b.backend, b.count);
    PerformCloses(l.(live := l.live - LiveOf(b), refused := l.refused - LiveOf(b)), BankFds(b.slots, b.count));
  }

  lemma {:induction false} DescriptorsOfPlanes(planes: seq<Plane>, fd: int)
    ensures fd in SlotFds(planes) <==> fd >= 0 && exists pl :: 0 <= pl < |planes| && planes[pl].fd == fd
    decreases |planes|
  {
    if planes != [] {
      var n := |planes| - 1;
      DescriptorsOfPlanes(planes[..n], fd);
      assert forall pl :: 0 <= pl < n ==> planes[..n][pl] == planes[pl];
    }
  }

  lemma {:induction false} DescriptorsOfSlots(slots: seq<Layout>, count: nat, fd: int)
    requires count <= |slots|
    ensures fd in BankFds(slots, count) <==>
            fd >= 0 && exists i, pl :: 0 <= i < count && 0 <= pl < |slots[i].plane| && slots[i].plane[pl].fd == fd
  {
    if count > 0 {
      DescriptorsOfSlots(slots, count - 1, fd);
      DescriptorsOfPlanes(slots[count - 1].plane, fd);
    }
  }

  /** A teardown frees exactly the slots in use and closes exactly the open descriptors of their planes, zero included. */
  lemma TeardownExactly(b: Bank, slot: nat, fd: int)
    requires b.count <= |b.slots|
    ensures Free(b.backend, slot) in Teardown(b) <==> slot < b.count
    ensures Close(fd) in Teardown(b) <==>
            fd >= 0 && exists i, pl :: 0 <= i < b.count && 0 <= pl < |b.slots[i].plane| && b.slots[i].plane[pl].fd == fd
  {
    DescriptorsOfSlots(b.slots, b.count, fd);
    var frees, fds := Frees(b.backend, b.count), BankFds(b.slots, b.count);
    assert slot < b.count ==> frees[slot] in frees;
    if fd in fds {
      var k :| 0 <= k < |fds| && fds[k] == fd;
      assert Closes(fds)[k] in Closes(fds);
    }
  }

  /** Descriptors of the first `n` granted allocations. */
  function AnswerFds(answers: seq<AllocAnswer>, n: nat): seq<int>
    requires n <= |answers| && forall i :: 0 <= i < n ==> answers[i].Granted?
  {
    if n == 0 then [] else AnswerFds(answers, n - 1) + SlotFds(answers[n - 1].layout.plane)
  }

  lemma {:induction false} FilledFds(answers: seq<AllocAnswer>, n: nat, count: nat)
    requires n <= count <= MAX_SLOTS && n <= |answers| && forall i :: 0 <= i < n ==> answers[i].Granted?
    ensures BankFds(Filled(answers, n), count) == AnswerFds(answers, n)
    decreases count
  {
    if count > n {
      FilledFds(answers, n, count - 1);
      EmptyFds();
    } else {
      FilledPrefix(answers, n, n);
    }
  }

  lemma EmptyFds()
    ensures SlotFds(EMPTY_LAYOUT.plane) == []
  {
    var u := EMPTY_LAYOUT.plane;
    assert u[..3] == [UNSET, UNSET, UNSET];
    assert u[..3][..2] == [UNSET, UNSET];
    assert u[..3][..2][..1] == [UNSET];
    assert u[..3][..2][..1][..0] == [];
    assert SlotFds([UNSET]) == [];
    assert SlotFds([UNSET, UNSET]) == [];
  }

  lemma {:induction false} FilledPrefix(answers: seq<AllocAnswer>, n: nat, k: nat)
    requires k <= n <= MAX_SLOTS && n <= |answers| && forall i :: 0 <= i < n ==> answers[i].Granted?
    ensures BankFds(Filled(answers, n), k) == AnswerFds(answers, k)
  {
    if k > 0 {
      FilledPrefix(answers, n, k - 1);
    }
  }

  lemma OpenFresh(open: set<int>, fds: seq<int>)
    requires Distinct(fds) && forall fd :: fd in fds ==> fd !in open
    ensures multiset(open + set fd | fd in fds) == multiset(open) + multiset(fds)
  {
    DistinctOnce(fds);
    var all := open + set fd | fd in fds;
    forall x ensures multiset(all)[x] == (multiset(open) + multiset(fds))[x] {
      assert x in multiset(fds) <==> x in fds;
    }
  }

  lemma {:induction false} DistinctOnce(fds: seq<int>)
    requires Distinct(fds)
    ensures forall x :: x in fds ==> multiset(fds)[x] == 1
    decreases |fds|
  {
    if fds != [] {
      var init, last := fds[..|fds| - 1], fds[|fds| - 1];
      assert fds == init + [last];
      DistinctOnce(init);
      assert last !in init;
      assert last !in multiset(init);
    }
  }

  /** A run of allocations on a live backend that has none of these slots yet. */
  lemma {:induction false} PerformAllocs(l: Ledger, backend: nat, answers: seq<AllocAnswer>, n: nat)
    requires n <= |answers| && forall i :: 0 <= i < n ==> answers[i].Granted?
    requires Honest(l, Allocs(backend, answers, n)) && backend in l.backends
    requires l.live + l.refused !! Slots(backend, n)
    ensures var r := PerformAll(l, Allocs(backend, answers, n));
            && r == l.(open := r.open, live := l.live + Slots(backend, n))
            && multiset(r.open) == multiset(l.open) + multiset(AnswerFds(answers, n))
  {
    hide PerformAll, Honest, SlotFds;
    PerformNone(l);
    if n > 0 {
      var init, layout := Allocs(backend, answers, n - 1), answers[n - 1].layout;
      var last := [Alloc(backend, n - 1, layout)];
      assert Allocs(backend, answers, n) == init + last;
      HonestParts(l, init, last);
      PerformAllocs(l, backend, answers, n - 1);
      PerformAppend(l, init, last);
      var mid := PerformAll(l, init);
      AllocOne(mid, backend, n - 1, layout);
      var fds, more := AnswerFds(answers, n - 1), SlotFds(layout.plane);
      assert AnswerFds(answers, n) == fds + more;
      JoinFds(multiset(l.open), fds, more);
      assert l.live + Slots(backend, n) == l.live + Slots(backend, n - 1) + {(backend, n - 1)};
    }
  }

  lemma JoinFds(open: multiset<int>, a: seq<int>, b: seq<int>)
    ensures open + multiset(a) + multiset(b) == open + multiset(a + b)
  {
  }

  lemma AllocOne(l: Ledger, backend: nat, slot: nat, layout: Layout)
    requires Honest(l, [Alloc(backend, slot, layout)]) && backend in l.backends && (backend, slot) !in l.live + l.refused
    ensures var r := PerformAll(l, [Alloc(backend, slot, layout)]);
            && r == l.(open := r.open, live := l.live + {(backend, slot)})
            && multiset(r.open) == multiset(l.open) + multiset(SlotFds(layout.plane))
  {
    var e := Alloc(backend, slot, layout);
    PerformOne(l, e);
    assert [e][..0] == [];
    OpenFresh(l.open, SlotFds(layout.plane));
  }

  // ---------------------------------------------------------------- single transfers

  lemma PerformDup(l: Ledger, fd: int)
    requires Honest(l, [Dup(fd)])
    ensures var r := PerformAll(l, [Dup(fd)]);
            fd >= 0 && r == l.(open := r.open) && multiset(r.open) == multiset(l.open) + Unit(fd)
  {
    PerformOne(l, Dup(fd));
    assert [Dup(fd)][..0] == [];
  }

  lemma LatestDropped(a: Account, l: Ledger)
    requires Accounted(a, l)
    ensures Accounted(a.(latestFd := -1), PerformAll(l, CloseIfOpen(a.latestFd)))
  {
    PerformCloseIfOpen(l, a.latestFd);
  }

  /** A fence the caller owns is closed. */
  lemma HeldDropped(a: Account, l: Ledger, fence: int)
    requires Accounted(a, l) && (fence == -1 || fence in a.held)
    ensures Accounted(a.(held := a.held - {fence}), PerformAll(l, CloseIfOpen(fence)))
  {
    hide PerformAll, Kept, CallHolds;
    WithoutFence(a.held, fence);
    TakeAway(Kept(a.bank, a.candidate, a.latestFd, a.drmFd), multiset(a.held), CallHolds(a.call), Unit(fence));
    PerformCloseIfOpen(l, fence);
  }

  lemma TakeAway(rest: multiset<int>, owned: multiset<int>, more: multiset<int>, u: multiset<int>)
    requires u <= owned
    ensures u <= rest + owned + more && rest + (owned - u) + more == rest + owned + more - u
  {
  }

  lemma WithoutFence(held: set<int>, fence: int)
    requires (fence == -1 || fence in held) && forall fd :: fd in held ==> fd >= 0
    ensures Unit(fence) <= multiset(held) && multiset(held - {fence}) == multiset(held) - Unit(fence)
  {
  }

  /** What the caller and the call hold does not touch the banks. */
  lemma SameBanks(a: Account, held: set<int>, call: Call)
    ensures Live(a.(held := held, call := call)) == Live(a) && Backends(a.(held := held, call := call)) == Backends(a)
  {
  }

  /** A fence moves from the caller into the send, and its duplicate is retained. */
  lemma HeldSubmitted(a: Account, l: Ledger, sub: Submission, fence: int, dup: int)
    requires Accounted(a, l) && fence in a.held && a.call.Idle? && Honest(l, [Dup(dup)])
    ensures Accounted(a.(held := a.held - {fence}, call := Sending(sub, fence, dup, false)), PerformAll(l, [Dup(dup)]))
  {
    hide PerformAll, Kept, Honest, Unit, Live, Backends, BankShape;
    SameBanks(a, a.held - {fence}, Sending(sub, fence, dup, false));
    WithoutFence(a.held, fence);
    PerformDup(l, dup);
    Transfer(Kept(a.bank, a.candidate, a.latestFd, a.drmFd), multiset(a.held), Unit(fence), Unit(dup));
  }

  lemma NothingSubmitted(a: Account, l: Ledger, sub: Submission, again: bool)
    requires Accounted(a, l) && CallHolds(a.call) == multiset{}
    ensures Accounted(a.(call := Sending(sub, -1, -1, again)), l)
  {
  }

  /** `u` moves from one owner to another while `v` appears. */
  lemma Transfer(rest: multiset<int>, owned: multiset<int>, u: multiset<int>, v: multiset<int>)
    requires u <= owned
    ensures rest + (owned - u) + (u + v) == rest + owned + multiset{} + v
  {
  }

  lemma CallDropped(a: Account, l: Ledger)
    requires Accounted(a, l) && a.call.Holding?
    ensures Accounted(a.(call := Idle), PerformAll(l, CloseIfOpen(a.call.fence)))
  {
    PerformCloseIfOpen(l, a.call.fence);
  }

  lemma CallSubmitted(a: Account, l: Ledger, sub: Submission, dup: int)
    requires Accounted(a, l) && a.call.Holding?
    requires a.call.fence >= 0 ==> Honest(l, [Dup(dup)])
    ensures
      var fence := a.call.fence;
      var retained := if fence >= 0 then dup else -1;
      Accounted(a.(call := Sending(sub, fence, retained, true)), PerformAll(l, if fence >= 0 then [Dup(dup)] else []))
  {
    if a.call.fence >= 0 { PerformDup(l, dup); }
  }

  lemma CallSent(a: Account, l: Ledger, ok: bool)
    requires Accounted(a, l) && a.call.Sending?
    ensures Accounted(a.(call := Sent(a.call.sub, a.call.retained, a.call.again, ok)),
                      PerformAll(l, CloseIfOpen(a.call.fence)))
  {
    hide PerformAll, Kept, Unit;
    PerformCloseIfOpen(l, a.call.fence);
  }

  lemma CallFailed(a: Account, l: Ledger)
    requires Accounted(a, l) && a.call.Sent?
    ensures Accounted(a.(call := Idle), PerformAll(l, CloseIfOpen(a.call.retained)))
  {
    hide PerformAll, Kept, Unit;
    PerformCloseIfOpen(l, a.call.retained);
  }

  /** A finished submit replaces the retained fence of the latest frame by its own. */
  lemma LatestReplaced(a: Account, l: Ledger)
    requires Accounted(a, l) && a.call.Sent? && a.call.retained >= 0
    ensures Accounted(a.(call := Idle, latestFd := a.call.retained), PerformAll(l, CloseIfOpen(a.latestFd)))
  {
    hide PerformAll, BankHolds, CandidateHolds, Unit;
    LatestIsOpen(a, l);
    PerformCloseIfOpen(l, a.latestFd);
    Replace(BankHolds(a.bank), CandidateHolds(a.candidate), Unit(a.latestFd), Unit(a.drmFd), multiset(a.held),
      Unit(a.call.retained));
  }

  lemma LatestIsOpen(a: Account, l: Ledger)
    requires Accounted(a, l)
    ensures Unit(a.latestFd) <= multiset(l.open)
  {
    hide PerformAll, BankHolds, CandidateHolds, Unit, CallHolds;
  }

  lemma Replace(b: multiset<int>, c: multiset<int>, u: multiset<int>, d: multiset<int>, h: multiset<int>, v: multiset<int>)
    ensures b + c + v + d + h + multiset{} == b + c + u + d + h + v - u
  {
  }

  lemma HeldIsOpen(a: Account, l: Ledger, fd: int)
    requires Accounted(a, l) && fd in a.held
    ensures fd in l.open
  {
    assert fd in multiset(a.held);
    assert fd in Holds(a);
    assert fd in multiset(l.open);
  }

  lemma FenceOpened(a: Account, l: Ledger, fd: int)
    requires Accounted(a, l) && Honest(l, [Dup(fd)])
    ensures Accounted(a.(held := a.held + {fd}), PerformAll(l, [Dup(fd)]))
  {
    PerformDup(l, fd);
    assert fd !in l.open by { assert [Dup(fd)][..0] == []; }
    if fd in a.held { HeldIsOpen(a, l, fd); }
    assert multiset(a.held + {fd}) == multiset(a.held) + Unit(fd);
    var rest := Kept(a.bank, a.candidate, a.latestFd, a.drmFd);
    assert Holds(a) == rest + multiset(a.held) + CallHolds(a.call);
    Inserted(rest, multiset(a.held), CallHolds(a.call), Unit(fd));
  }

  lemma Inserted(a: multiset<int>, b: multiset<int>, c: multiset<int>, u: multiset<int>)
    ensures a + (b + u) + c == a + b + c + u
  {
  }

  lemma LatestDuplicated(a: Account, l: Ledger, id: Identity, dup: int)
    requires Accounted(a, l) && a.call.Idle? && Honest(l, [Dup(dup)])
    ensures Accounted(a.(call := Holding(id, dup)), PerformAll(l, [Dup(dup)]))
  {
    PerformDup(l, dup);
  }

  /** A descriptor held by the unfinished call is in nobody else's hands. */
  lemma FenceNotShared(a: Account, l: Ledger)
    requires Accounted(a, l) && a.call.Holding?
    ensures a.call.fence !in a.held
  {
    var fence := a.call.fence;
    var both := multiset(a.held) + Unit(fence);
    assert both <= Holds(a);
    assert both[fence] <= multiset(l.open)[fence] <= 1;
    assert both[fence] == multiset(a.held)[fence] + Unit(fence)[fence];
  }

  // ---------------------------------------------------------------- banks

  lemma Swapped(a: Account, l: Ledger)
    requires Accounted(a, l) && a.candidate.Some?
    ensures Accounted(a.(bank := a.candidate.value, candidate := Some(a.bank)), l)
  {
    var b, c := BankHolds(a.bank), BankHolds(a.candidate.value);
    assert b + c == c + b;
  }

  /** The active bank goes: `spent` is any empty bank on the same backend. The torn down slots are the bank's
      and those just refused. */
  lemma BankDown(a: Account, l: Ledger, torn: Bank, spent: Bank)
    requires Accounted(a, l.(refused := {})) && BankShape(torn) && BankShape(spent)
    requires torn.backend == spent.backend == a.bank.backend && spent.count == 0
    requires BankHolds(torn) == BankHolds(a.bank) && LiveOf(torn) == LiveOf(a.bank) + l.refused
    ensures Accounted(a.(bank := spent), PerformAll(l, Teardown(torn)))
  {
    hide PerformAll, CallHolds, Unit, Slots, Teardown;
    BankIsOpen(a, l);
    PerformTeardown(l, torn);
    var a' := a.(bank := spent);
    assert BankHolds(spent) == multiset{};
    Removed(BankHolds(a.bank), CandidateHolds(a.candidate), Unit(a.latestFd), Unit(a.drmFd), multiset(a.held), CallHolds(a.call));
    assert l.live - LiveOf(torn) == Live(a');
  }

  lemma BankIsOpen(a: Account, l: Ledger)
    requires Accounted(a, l.(refused := {}))
    ensures BankHolds(a.bank) <= multiset(l.open) && LiveOf(a.bank) <= l.live
  {
    hide BankHolds, CallHolds, Unit, Slots;
  }

  lemma Removed(b: multiset<int>, c: multiset<int>, u: multiset<int>, d: multiset<int>, h: multiset<int>, k: multiset<int>)
    ensures b + c + u + d + h + k - b == multiset{} + c + u + d + h + k
  {
  }

  lemma Added(b: multiset<int>, c: multiset<int>, u: multiset<int>, d: multiset<int>, h: multiset<int>, k: multiset<int>)
    ensures multiset{} + c + u + d + h + k + b == b + c + u + d + h + k
  {
  }

  /** None of the slots of an empty bank's backend is live. */
  lemma SlotsOf(a: Account, n: nat)
    requires Sound(a) && a.bank.count == 0
    ensures Live(a) !! Slots(a.bank.backend, n) && a.bank.backend in Backends(a) && LiveOf(a.bank) == {}
  {
  }

  lemma BankUp(a: Account, l: Ledger, d: Directive, extent: Extent, answers: seq<AllocAnswer>, n: nat)
    requires Accounted(a, l) && a.bank.count == 0 && GoodAnswers(answers) && n <= MAX_SLOTS
    requires forall i :: 0 <= i < n ==> answers[i].Granted?
    requires Honest(l, Allocs(a.bank.backend, answers, n))
    ensures Accounted(a.(bank := Build(a.bank.backend, d, extent, answers, n, n)),
                      PerformAll(l, Allocs(a.bank.backend, answers, n)))
  {
    hide PerformAll, Honest, CallHolds, Unit, Slots;
    var b := Build(a.bank.backend, d, extent, answers, n, n);
    SlotsOf(a, n);
    PerformAllocs(l, a.bank.backend, answers, n);
    FilledFds(answers, n, n);
    assert BankHolds(a.bank) == multiset{};
    Added(BankHolds(b), CandidateHolds(a.candidate), Unit(a.latestFd), Unit(a.drmFd), multiset(a.held), CallHolds(a.call));
    assert l.live + Slots(a.bank.backend, n) == Live(a.(bank := b));
  }

  lemma Forked(a: Account, l: Ledger, bank: Bank)
    requires Accounted(a, l) && a.candidate.None? && BankShape(bank) && bank.count == 0
    requires Honest(l, [Fork(bank.backend)])
    ensures Accounted(a.(candidate := Some(bank)), PerformAll(l, [Fork(bank.backend)]))
  {
    PerformOne(l, Fork(bank.backend));
    assert [Fork(bank.backend)][..0] == [];
    assert BankHolds(bank) == multiset{};
    assert LiveOf(bank) == {};
  }

  lemma Dropped(a: Account, l: Ledger)
    requires Accounted(a, l) && a.candidate.Some? && a.candidate.value.count == 0
    ensures Accounted(a.(candidate := None), PerformAll(l, [Drop(a.candidate.value.backend)]))
  {
    hide PerformAll, CallHolds, Unit;
    var c := a.candidate.value;
    PerformOne(l, Drop(c.backend));
    assert BankHolds(c) == multiset{};
    assert LiveOf(c) == {};
  }

  lemma CandidateUp(a: Account, l: Ledger, d: Directive, extent: Extent, answers: seq<AllocAnswer>, n: nat)
    requires Accounted(a, l) && a.candidate.Some? && a.candidate.value.count == 0 && GoodAnswers(answers) && n <= MAX_SLOTS
    requires forall i :: 0 <= i < n ==> answers[i].Granted?
    requires Honest(l, Allocs(a.candidate.value.backend, answers, n))
    ensures
      var backend := a.candidate.value.backend;
      Accounted(a.(candidate := Some(Build(backend, d, extent, answers, n, n))), PerformAll(l, Allocs(backend, answers, n)))
  {
    var flipped := a.(bank := a.candidate.value, candidate := Some(a.bank));
    Swapped(a, l);
    BankUp(flipped, l, d, extent, answers, n);
    var b := Build(flipped.bank.backend, d, extent, answers, n, n);
    Swapped(flipped.(bank := b), PerformAll(l, Allocs(flipped.bank.backend, answers, n)));
  }

  /** The candidate's next slot is refused: nothing is there, but it will be freed. */
  lemma OneRefused(a: Account, l: Ledger)
    requires Accounted(a, l) && a.candidate.Some?
    ensures
      var c := a.candidate.value;
      && PerformAll(l, [Refuse(c.backend, c.count)]) == l.(refused := {(c.backend, c.count)})
      && Slots(c.backend, c.count + 1) == LiveOf(c) + {(c.backend, c.count)}
  {
    hide PerformAll, Holds, BankHolds;
    var c := a.candidate.value;
    PerformOne(l, Refuse(c.backend, c.count));
    assert (c.backend, c.count) !in Live(a);
  }

  /** The candidate goes: its slots, its descriptors, its backend. */
  lemma CandidateDown(a: Account, l: Ledger, torn: Bank)
    requires Accounted(a, l.(refused := {})) && a.candidate.Some? && BankShape(torn)
    requires torn.backend == a.candidate.value.backend
    requires BankHolds(torn) == BankHolds(a.candidate.value) && LiveOf(torn) == LiveOf(a.candidate.value) + l.refused
    ensures Accounted(a.(candidate := None), PerformAll(l, Teardown(torn) + [Drop(torn.backend)]))
  {
    var flipped := a.(bank := a.candidate.value, candidate := Some(a.bank));
    var spent := torn.(count := 0);
    Swapped(a, l.(refused := {}));
    BankDown(flipped, l, torn, spent);
    var mid := PerformAll(l, Teardown(torn));
    Swapped(flipped.(bank := spent), mid);
    Dropped(a.(candidate := Some(spent)), mid);
    PerformAppend(l, Teardown(torn), [Drop(torn.backend)]);
  }

  lemma CandidateGone(a: Account, l: Ledger)
    requires Accounted(a, l) && a.candidate.Some?
    ensures
      var c := a.candidate.value;
      Accounted(a.(candidate := None), PerformAll(l, Teardown(c) + [Drop(c.backend)]))
  {
    hide PerformAll, Teardown, BankHolds;
    assert l.(refused := {}) == l;
    CandidateDown(a, l, a.candidate.value);
  }

  // ---------------------------------------------------------------- steps

  predicate Balanced(s: Sys) { Accounted(AccountOf(s), s.world.ledger) }

  lemma AcquireTransfer(s: Sys, polls: seq<Reading>, viewRc: int, k: nat)
    requires Inv(s, k) && k < U64_LIMIT - 2 && s.pool.bank.count <= |polls|
    ensures
      var a, a', effects := AccountOf(s), AccountOf(AfterAcquire(s, polls, viewRc)), TryAcquire(s.pool, polls, viewRc).2;
      || (a' == a && effects == [])
      || (a' == a.(latestFd := -1) && effects == CloseIfOpen(a.latestFd))
  {
    AcquireOutcome(s.pool, polls, viewRc);
  }

  lemma AcquireBalanced(s: Sys, polls: seq<Reading>, viewRc: int, k: nat)
    requires Inv(s, k) && k < U64_LIMIT - 2 && Balanced(s) && s.pool.bank.count <= |polls|
    ensures Accounted(AccountOf(AfterAcquire(s, polls, viewRc)),
                      PerformAll(s.world.ledger, TryAcquire(s.pool, polls, viewRc).2))
  {
    AcquireTransfer(s, polls, viewRc, k);
    LatestDropped(AccountOf(s), s.world.ledger);
  }

  lemma ReserveTransfer(s: Sys, id: Identity, fence: int, dup: int, again: bool, k: nat)
    requires Inv(s, k)
    requires again <==> s.world.call.Holding? && id == s.world.call.identity
    ensures
      var a, a', (_, r, effects) := AccountOf(s), AccountOf(AfterReserve(s, id, fence, dup, again)), Reserve(s.pool, id, fence, dup);
      && (r.Reserved? ==>
            && (again || s.world.call.Idle?)
            && effects == (if fence >= 0 then [Dup(dup)] else [])
            && a' == a.(held := a.held - {fence},
                        call := Sending(r.submission, fence, if fence >= 0 then dup else -1, again)))
      && (!r.Reserved? ==>
            && effects == CloseIfOpen(fence)
            && a' == a.(held := a.held - {fence}, call := if again then Idle else a.call))
  {
  }

  lemma ReserveBalanced(s: Sys, id: Identity, fence: int, dup: int, k: nat)
    requires Inv(s, k) && Balanced(s) && (fence == -1 || fence in s.world.held)
    requires s.world.call.Holding? ==> id != s.world.call.identity
    requires Honest(s.world.ledger, Reserve(s.pool, id, fence, dup).2)
    ensures Accounted(AccountOf(AfterReserve(s, id, fence, dup, false)),
                      PerformAll(s.world.ledger, Reserve(s.pool, id, fence, dup).2))
  {
    var a, l, r := AccountOf(s), s.world.ledger, Reserve(s.pool, id, fence, dup).1;
    ReserveTransfer(s, id, fence, dup, false, k);
    if !r.Reserved? {
      HeldDropped(a, l, fence);
    } else if fence >= 0 {
      HeldSubmitted(a, l, r.submission, fence, dup);
    } else {
      assert a.held - {fence} == a.held;
      NothingSubmitted(a, l, r.submission, false);
    }
  }

  lemma ResubmitBalanced(s: Sys, dup: int, k: nat)
    requires Inv(s, k) && Balanced(s) && s.world.call.Holding?
    requires Honest(s.world.ledger, Reserve(s.pool, s.world.call.identity, s.world.call.fence, dup).2)
    ensures
      var id, fence := s.world.call.identity, s.world.call.fence;
      Accounted(AccountOf(AfterReserve(s, id, fence, dup, true)),
                PerformAll(s.world.ledger, Reserve(s.pool, id, fence, dup).2))
  {
    var a, l, id, fence := AccountOf(s), s.world.ledger, s.world.call.identity, s.world.call.fence;
    var r := Reserve(s.pool, id, fence, dup).1;
    ReserveTransfer(s, id, fence, dup, true, k);
    FenceNotShared(a, l);
    assert a.held - {fence} == a.held;
    if r.Reserved? {
      CallSubmitted(a, l, r.submission, dup);
    } else {
      CallDropped(a, l);
    }
  }

  lemma RepublishTransfer(s: Sys, poll: Reading, dup: int, k: nat)
    requires Inv(s, k)
    ensures
      var a, a', (_, r, effects) := AccountOf(s), AccountOf(AfterRepublish(s, poll, dup)), Republish(s.pool, poll, dup);
      if r.Again? then a.call.Idle? && effects == [Dup(dup)] && a' == a.(call := Holding(r.identity, dup))
      else effects == [] && a' == a
  {
  }

  lemma RepublishBalanced(s: Sys, poll: Reading, dup: int, k: nat)
    requires Inv(s, k) && Balanced(s) && Honest(s.world.ledger, Republish(s.pool, poll, dup).2)
    ensures Accounted(AccountOf(AfterRepublish(s, poll, dup)), PerformAll(s.world.ledger, Republish(s.pool, poll, dup).2))
  {
    RepublishTransfer(s, poll, dup, k);
    var r := Republish(s.pool, poll, dup);
    if r.1.Again? {
      LatestDuplicated(AccountOf(s), s.world.ledger, r.1.identity, dup);
    }
  }

  lemma FinishBalanced(s: Sys, rc: int, k: nat)
    requires Inv(s, k) && Balanced(s) && s.world.call.Sent? && (rc == 0 <==> s.world.call.ok)
    ensures Accounted(AccountOf(AfterFinish(s, rc)),
                      PerformAll(s.world.ledger, Finish(s.pool, s.world.call.sub, s.world.call.retained, rc).2))
  {
    if rc != 0 {
      CallFailed(AccountOf(s), s.world.ledger);
    } else {
      LatestReplaced(AccountOf(s), s.world.ledger);
    }
  }

  /** The old bank and the retained fence go, and a new bank comes up in their place. */
  lemma BankReplaced(a: Account, l: Ledger, d: Directive, extent: Extent, answers: seq<AllocAnswer>, n: nat)
    requires Accounted(a, l) && GoodAnswers(answers) && n <= MAX_SLOTS
    requires forall i :: 0 <= i < n ==> answers[i].Granted?
    requires Honest(l, Teardown(a.bank) + CloseIfOpen(a.latestFd) + Allocs(a.bank.backend, answers, n))
    ensures Accounted(a.(bank := Build(a.bank.backend, d, extent, answers, n, n), latestFd := -1),
                      PerformAll(l, Teardown(a.bank) + CloseIfOpen(a.latestFd) + Allocs(a.bank.backend, answers, n)))
  {
    var down, off, made := Teardown(a.bank), CloseIfOpen(a.latestFd), Allocs(a.bank.backend, answers, n);
    var spent := a.bank.(count := 0);
    HonestParts(l, down + off, made);
    PerformAppend(l, down + off, made);
    PerformAppend(l, down, off);
    BankDown(a, l, a.bank, spent);
    LatestDropped(a.(bank := spent), PerformAll(l, down));
    BankUp(a.(bank := spent, latestFd := -1), PerformAll(l, down + off), d, extent, answers, n);
  }

  lemma ApplyTransfer(s: Sys, d: Directive, answers: seq<AllocAnswer>, sendRc: int)
    requires Shape(s) && GoodAnswers(answers) && ApplyRefusal(s.pool, d) == 0
    ensures
      var a, a' := AccountOf(s), AccountOf(Sys(Apply(s.pool, d, answers, sendRc).0, s.world));
      var n := GrantedPrefix(answers, d.count);
      var built := Build(a.bank.backend, d, s.pool.caps.probe, answers, n, n);
      var made := Teardown(a.bank) + CloseIfOpen(a.latestFd) + Allocs(a.bank.backend, answers, n);
      && (n == d.count ==> a' == a.(bank := built, latestFd := -1) && Apply(s.pool, d, answers, sendRc).3 == made)
      && (n < d.count ==>
            && a' == a.(bank := built.(count := 0, slots := EmptySlots()), latestFd := -1)
            && Apply(s.pool, d, answers, sendRc).3 == made + Teardown(built))
  {
  }

  lemma ApplyBalanced(s: Sys, d: Directive, answers: seq<AllocAnswer>, sendRc: int)
    requires Shape(s) && Balanced(s) && GoodAnswers(answers)
    requires Honest(s.world.ledger, Apply(s.pool, d, answers, sendRc).3)
    ensures Accounted(AccountOf(Sys(Apply(s.pool, d, answers, sendRc).0, s.world)),
                      PerformAll(s.world.ledger, Apply(s.pool, d, answers, sendRc).3))
  {
    hide Accounted, PerformAll, Honest, Teardown, CloseIfOpen, Allocs;
    PerformNone(s.world.ledger);
    if ApplyRefusal(s.pool, d) == 0 {
      var a, l := AccountOf(s), s.world.ledger;
      var n := GrantedPrefix(answers, d.count);
      var built := Build(a.bank.backend, d, s.pool.caps.probe, answers, n, n);
      var made := Teardown(a.bank) + CloseIfOpen(a.latestFd) + Allocs(a.bank.backend, answers, n);
      ApplyTransfer(s, d, answers, sendRc);
      if n < d.count {
        HonestParts(l, made, Teardown(built));
        PerformAppend(l, made, Teardown(built));
      }
      BankReplaced(a, l, d, s.pool.caps.probe, answers, n);
      if n < d.count {
        BankDown(a.(bank := built, latestFd := -1), PerformAll(l, made), built, built.(count := 0, slots := EmptySlots()));
      }
    }
  }

  lemma Allocated(a: Account, l: Ledger, backend: nat, d: Directive, extent: Extent, answers: seq<AllocAnswer>)
    requires Accounted(a, l) && a.candidate.None? && GoodAnswers(answers) && d.count <= MAX_SLOTS
    requires Honest(l, [Fork(backend)] + Allocs(backend, answers, GrantedPrefix(answers, d.count)))
    ensures
      var n := GrantedPrefix(answers, d.count);
      Accounted(a.(candidate := Some(Build(backend, d, extent, answers, n, n))),
                PerformAll(l, [Fork(backend)] + Allocs(backend, answers, n)))
  {
    hide Accounted, PerformAll, Honest, Allocs;
    var n := GrantedPrefix(answers, d.count);
    var born, made, bare := [Fork(backend)], Allocs(backend, answers, n), Build(backend, d, extent, answers, 0, 0);
    HonestParts(l, born, made);
    PerformAppend(l, born, made);
    Forked(a, l, bare);
    CandidateUp(a.(candidate := Some(bare)), PerformAll(l, born), d, extent, answers, n);
  }

  /** The way back after a refusal, the refused slot included. */
  lemma Undone(a: Account, l: Ledger, d: Directive, extent: Extent, answers: seq<AllocAnswer>, n: nat)
    requires GoodAnswers(answers) && n < MAX_SLOTS && forall i :: 0 <= i < n ==> answers[i].Granted?
    requires Accounted(a, l) && a.candidate.Some?
    requires a.candidate.value == Build(a.candidate.value.backend, d, extent, answers, n, n)
    ensures
      var b := a.candidate.value.backend;
      Accounted(a.(candidate := None),
                PerformAll(l, [Refuse(b, n)] + (Teardown(Build(b, d, extent, answers, n, n + 1)) + [Drop(b)])))
  {
    hide PerformAll, Teardown, Holds, BankHolds;
    var b := a.candidate.value.backend;
    var torn := Build(b, d, extent, answers, n, n + 1);
    FilledFds(answers, n, n);
    FilledFds(answers, n, n + 1);
    SameHolds(a.candidate.value, torn);
    OneRefused(a, l);
    var refused := PerformAll(l, [Refuse(b, n)]);
    assert refused.(refused := {}) == l;
    CandidateDown(a, refused, torn);
    PerformAppend(l, [Refuse(b, n)], Teardown(torn) + [Drop(b)]);
  }

  lemma SameHolds(b: Bank, c: Bank)
    requires BankShape(b) && BankShape(c) && BankFds(b.slots, b.count) == BankFds(c.slots, c.count)
    ensures BankHolds(b) == BankHolds(c)
  {
  }

  lemma PrepareBalanced(s: Sys, d: Directive, extent: Extent, fork: ForkAnswer, answers: seq<AllocAnswer>)
    requires Shape(s) && Balanced(s) && GoodAnswers(answers)
    requires Honest(s.world.ledger, Prepare(s.pool, d, extent, fork, answers).2)
    ensures Accounted(AccountOf(Sys(Prepare(s.pool, d, extent, fork, answers).0, s.world)),
                      PerformAll(s.world.ledger, Prepare(s.pool, d, extent, fork, answers).2))
  {
    hide Accounted, PerformAll, Honest, Teardown, Allocs;
    PerformNone(s.world.ledger);
    if PrepareRefusal(s.pool, d, extent) == 0 && fork.Forked? {
      var a, l, backend := AccountOf(s), s.world.ledger, fork.backend;
      var n := GrantedPrefix(answers, d.count);
      var made := [Fork(backend)] + Allocs(backend, answers, n);
      var built := Build(backend, d, extent, answers, n, n);
      if n < d.count {
        var undo := [Refuse(backend, n)] + (Teardown(Build(backend, d, extent, answers, n, n + 1)) + [Drop(backend)]);
        assert Prepare(s.pool, d, extent, fork, answers).2 == made + undo;
        HonestParts(l, made, undo);
        Allocated(a, l, backend, d, extent, answers);
        Undone(a.(candidate := Some(built)), PerformAll(l, made), d, extent, answers, n);
        PerformAppend(l, made, undo);
        assert a.(candidate := None) == a;
      } else {
        assert Prepare(s.pool, d, extent, fork, answers).2 == made;
        Allocated(a, l, backend, d, extent, answers);
      }
    }
  }

  lemma AbortTargetBalanced(s: Sys)
    requires Shape(s) && Balanced(s)
    ensures Accounted(AccountOf(Sys(AbortTarget(s.pool).0, s.world)), PerformAll(s.world.ledger, AbortTarget(s.pool).1))
  {
    if s.pool.candidate.Some? {
      CandidateGone(AccountOf(s), s.world.ledger);
    }
  }

  lemma CommitBalanced(s: Sys, sendRc: int)
    requires Shape(s) && Balanced(s) && (s.pool.candidate.Some? ==> s.pool.candidate.value.count > 0)
    ensures Accounted(AccountOf(Sys(Commit(s.pool, sendRc).0, s.world)), PerformAll(s.world.ledger, Commit(s.pool, sendRc).4))
  {
    CommitOutcome(s.pool, sendRc);
    if s.pool.candidate.Some? && !s.pool.rel.lost && !Transacting(s.pool.rel) {
      var a, l := AccountOf(s), s.world.ledger;
      var off := CloseIfOpen(s.pool.rel.latestFd);
      var down := Teardown(s.pool.bank) + [Drop(s.pool.bank.backend)];
      assert Commit(s.pool, sendRc).4 == off + down;
      PerformAppend(l, off, down);
      LatestDropped(a, l);
      var a1, l1 := a.(latestFd := -1), PerformAll(l, off);
      Swapped(a1, l1);
      CandidateGone(a1.(bank := a.candidate.value, candidate := Some(a.bank)), l1);
    }
  }

  lemma PassiveBalanced(s: Sys, step: Step)
    requires Balanced(s) && Enabled(s, step)
    requires step.Render? || step.DoAbort? || step.Signal? || step.Lose? || step.Check?
    ensures Accounted(AccountOf(Move(s, step)), PerformAll(s.world.ledger, Effects(s, step)))
  {
    hide Accounted, PerformAll, Honest, Move, Guard, Effects, Shape;
    PassiveMove(s, step);
    PerformNone(s.world.ledger);
  }

  lemma PassiveMove(s: Sys, step: Step)
    requires Shape(s) && Guard(s, step)
    requires step.Render? || step.DoAbort? || step.Signal? || step.Lose? || step.Check?
    ensures AccountOf(Move(s, step)) == AccountOf(s) && Effects(s, step) == []
  {
  }

  lemma SubmissionBalanced(s: Sys, step: Step, k: nat)
    requires Inv(s, k) && Balanced(s) && Enabled(s, step)
    requires step.DoReserve? || step.DoRepublish? || step.Resubmit? || step.Transmit? || step.DoFinish?
    ensures Accounted(AccountOf(Move(s, step)), PerformAll(s.world.ledger, Effects(s, step)))
  {
    hide Accounted, PerformAll, Honest, Reserve, Republish, Finish;
    match step
    case DoReserve(id, fence, dup) => ReserveBalanced(s, id, fence, dup, k);
    case DoRepublish(poll, dup) => RepublishBalanced(s, poll, dup, k);
    case Resubmit(dup) => ResubmitBalanced(s, dup, k);
    case Transmit(ok, _) => CallSent(AccountOf(s), s.world.ledger, ok);
    case DoFinish(rc) => FinishBalanced(s, rc, k);
    case _ => assert false;
  }

  lemma AllocationBalanced(s: Sys, step: Step, k: nat)
    requires Inv(s, k) && Balanced(s) && Enabled(s, step)
    requires step.DoApply? || step.DoPrepare? || step.DoAbortTarget? || step.DoCommit?
    ensures Accounted(AccountOf(Move(s, step)), PerformAll(s.world.ledger, Effects(s, step)))
  {
    hide Accounted, PerformAll, Honest, Apply, Prepare, Commit, AbortTarget;
    match step
    case DoApply(d, answers, sendRc) => ApplyBalanced(s, d, answers, sendRc);
    case DoPrepare(d, extent, fork, answers) =>
      CalmBalanced(s, k);
      PrepareBalanced(Sys(Calm(s.pool), s.world), d, extent, fork, answers);
      SameAccount(s, Prepare(Calm(s.pool), d, extent, fork, answers).0);
    case DoAbortTarget => AbortTargetBalanced(s);
    case DoCommit(sendRc) =>
      CalmBalanced(s, k);
      CommitBalanced(Sys(Calm(s.pool), s.world), sendRc);
      SameAccount(s, Commit(Calm(s.pool), sendRc).0);
    case _ => assert false;
  }

  /** The accounts know nothing of the session. */
  lemma CalmBalanced(s: Sys, k: nat)
    requires Inv(s, k) && Balanced(s)
    ensures Shape(Sys(Calm(s.pool), s.world)) && Balanced(Sys(Calm(s.pool), s.world))
    ensures s.pool.candidate.Some? ==> s.pool.candidate.value.count > 0
  {
    assert AccountOf(Sys(Calm(s.pool), s.world)) == AccountOf(s);
  }

  lemma SameAccount(s: Sys, q: Pool)
    ensures AccountOf(Sys(StillLost(s.pool, q), s.world.(job := None))) == AccountOf(Sys(q, s.world))
  {
  }

  lemma StepBalanced(s: Sys, step: Step, k: nat)
    requires Inv(s, k) && k < U64_LIMIT - 2 && Balanced(s) && Enabled(s, step)
    ensures Balanced(Next(s, step))
  {
    hide Accounted, PerformAll, Inv;
    assert AccountOf(Next(s, step)) == AccountOf(Move(s, step));
    if step.DoAcquire? {
      AcquireBalanced(s, step.polls, step.viewRc, k);
    } else if step.Fence? {
      FenceOpened(AccountOf(s), s.world.ledger, step.fd);
    } else if step.Render? || step.DoAbort? || step.Signal? || step.Lose? || step.Check? {
      PassiveBalanced(s, step);
    } else if step.DoReserve? || step.DoRepublish? || step.Resubmit? || step.Transmit? || step.DoFinish? {
      SubmissionBalanced(s, step, k);
    } else {
      AllocationBalanced(s, step, k);
    }
  }

  lemma InitBalanced(s: Sys)
    requires Init(s)
    ensures Balanced(s)
  {
    assert BankHolds(s.pool.bank) == multiset{};
  }

  /** In every state of every run nothing has been released twice, no descriptor is open that has no
      owner, none has two owners, and the live slots and backends are those of the two banks. */
  lemma {:induction false} NothingLeaksNothingDoubles(states: seq<Sys>, steps: seq<Step>, i: nat)
    requires Run(states, steps) && i <= |steps| < U64_LIMIT - 2
    ensures Accounted(AccountOf(states[i]), states[i].world.ledger)
    decreases i
  {
    hide Accounted, Inv, Enabled, Next;
    if i == 0 {
      InitBalanced(states[0]);
    } else {
      NothingLeaksNothingDoubles(states, steps, i - 1);
      RunInv(states, steps, i - 1);
      assert StepAt(states, steps, i - 1);
      StepBalanced(states[i - 1], steps[i - 1], i - 1);
    }
  }

  lemma BankDropped(a: Account, l: Ledger)
    requires Accounted(a, l) && a.bank.count == 0 && a.candidate.None? && a.latestFd == -1
    ensures
      var r := PerformAll(l, [Drop(a.bank.backend)] + CloseIfOpen(a.drmFd));
      && !r.fault && r.live == {} && r.refused == {} && r.backends == {}
      && multiset(r.open) == multiset(a.held) + CallHolds(a.call)
  {
    assert BankHolds(a.bank) == multiset{};
    var mid := PerformAll(l, [Drop(a.bank.backend)]);
    PerformOne(l, Drop(a.bank.backend));
    PerformAppend(l, [Drop(a.bank.backend)], CloseIfOpen(a.drmFd));
    PerformCloseIfOpen(mid, a.drmFd);
  }

  /** Destroying the pool after any run, with no send in flight, leaves no slot, no backend and no
      descriptor behind except the fences the caller itself still owns. */
  lemma DestroyReleasesEverything(states: seq<Sys>, steps: seq<Step>, i: nat)
    requires Run(states, steps) && i <= |steps| < U64_LIMIT - 2 && states[i].world.call.Idle?
    ensures Shape(states[i])
    ensures
      var s := states[i];
      var r := PerformAll(s.world.ledger, Destroy(s.pool));
      !r.fault && r.live == {} && r.refused == {} && r.backends == {} && r.open == s.world.held
  {
    NothingLeaksNothingDoubles(states, steps, i);
    RunInv(states, steps, i);
    DestroyBalanced(states[i]);
  }

  /** Both banks and the retained fence go; what is left is the backend and the drm descriptor. */
  lemma BanksDestroyed(s: Sys)
    requires Shape(s) && Balanced(s)
    ensures
      var b := s.pool.bank;
      Accounted(AccountOf(s).(candidate := None, bank := b.(count := 0), latestFd := -1),
                PerformAll(s.world.ledger, AbortTarget(s.pool).1 + Teardown(b) + CloseIfOpen(s.pool.rel.latestFd)))
  {
    hide Accounted, PerformAll, Teardown;
    var a, l, p := AccountOf(s), s.world.ledger, s.pool;
    var abort, down, off := AbortTarget(p).1, Teardown(p.bank), CloseIfOpen(p.rel.latestFd);
    PerformAppend(l, abort + down, off);
    PerformAppend(l, abort, down);
    AbortTargetBalanced(s);
    var a1, spent := a.(candidate := None), p.bank.(count := 0);
    BankGone(a1, PerformAll(l, abort), spent);
    LatestDropped(a1.(bank := spent), PerformAll(l, abort + down));
  }

  lemma BankGone(a: Account, l: Ledger, spent: Bank)
    requires Accounted(a, l) && BankShape(spent) && spent.backend == a.bank.backend && spent.count == 0
    ensures Accounted(a.(bank := spent), PerformAll(l, Teardown(a.bank)))
  {
    hide PerformAll, Teardown, BankHolds;
    assert l.(refused := {}) == l;
    BankDown(a, l, a.bank, spent);
  }

  lemma DestroyBalanced(s: Sys)
    requires Shape(s) && Balanced(s) && s.world.call.Idle?
    ensures
      var r := PerformAll(s.world.ledger, Destroy(s.pool));
      !r.fault && r.live == {} && r.refused == {} && r.backends == {} && r.open == s.world.held
  {
    hide Accounted, PerformAll, Teardown;
    var l, p := s.world.ledger, s.pool;
    var most := AbortTarget(p).1 + Teardown(p.bank) + CloseIfOpen(p.rel.latestFd);
    var last := [Drop(p.bank.backend)] + CloseIfOpen(p.drmFd);
    assert Destroy(p) == most + last;
    PerformAppend(l, most, last);
    BanksDestroyed(s);
    BankDropped(AccountOf(s).(candidate := None, bank := p.bank.(count := 0), latestFd := -1), PerformAll(l, most));
    SameElements(PerformAll(l, Destroy(p)).open, s.world.held);
  }

  lemma SameElements(a: set<int>, b: set<int>)
    requires multiset(a) == multiset(b)
    ensures a == b
  {
    forall x ensures x in a <==> x in b {
      assert x in multiset(a) <==> x in a;
      assert x in multiset(b) <==> x in b;
    }
  }
}
