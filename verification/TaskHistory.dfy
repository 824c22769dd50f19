/** How long tokens, keys and records of the task manager live, exactly, over whole runs. A token or a key
    outlives its task in some cases; each such case is shown at a state that a run reaches. */
module TaskHistory {
  import opened Tasks

  // ---------------------------------------------------------------- history

  /** What a run has done so far: the tasks whose join panicked or was aborted, the tasks still running when
      the supervisor exited, the keyed tasks that were submitted too late and kept their key, and the tasks
      cancelled while they ran. */
  datatype History = History(stuck: set<nat>, swept: set<nat>, late: set<nat>, cancelled: set<nat>)

  const NOTHING := History({}, {}, {}, {})

  predicate Submission(step: Step) {
    step.DoSpawnAsync? || step.DoSpawnBlocking? || step.DoSpawnUnique? || step.DoSpawnOnce? || step.DoSpawnProgress?
  }

  /** A submission of a keyed task that finds the queue closed and still leaves the key on the new task. */
  predicate KeyedLate(s: State, step: Step) {
    && s.phase != Active
    && (step.DoSpawnUnique? || (step.DoSpawnOnce? && !KeyRunning(s, step.key)))
  }

  predicate JoinFailed(step: Step, id: nat) {
    step == DoJoin(id, Panicked) || step == DoJoin(id, Aborted)
  }

  /** The step cancels a running task: by a cancel or a unique submission, which need its token, or by the drain,
      which spares services. */
  predicate Cancels(s: State, step: Step, id: nat) {
    && RunningIn(s.records, id)
    && (|| (step == DoCancel(id) && id in s.tokens)
        || (step.DoSpawnUnique? && step.key in s.keys && s.keys[step.key] == id && id in s.tokens)
        || (step.DoStartDrain? && s.records[id].kind != Service))
  }

  function Record(h: History, s: State, step: Step): History {
    Noted(h, s, step).(cancelled := h.cancelled + set id | id in s.records && Cancels(s, step, id))
  }

  function Noted(h: History, s: State, step: Step): History {
    if step.DoJoin? && (step.outcome.Panicked? || step.outcome.Aborted?) then h.(stuck := h.stuck + {step.id})
    else if step.DoExit? then h.(swept := h.swept + RunningIds(s.records))
    else if KeyedLate(s, step) then h.(late := h.late + {s.nextId})
    else h
  }

  ghost function Past(states: seq<State>, steps: seq<Step>, i: nat): History
    requires Run(states, steps) && i <= |steps|
  {
    if i == 0 then NOTHING else Record(Past(states, steps, i - 1), states[i - 1], steps[i - 1])
  }

  /** The history in terms of the run. */
  lemma {:induction false} PastMeans(states: seq<State>, steps: seq<Step>, i: nat, id: nat)
    requires Run(states, steps) && i <= |steps|
    ensures var h := Past(states, steps, i);
            && (id in h.stuck <==> exists j :: 0 <= j < i && JoinFailed(steps[j], id))
            && (id in h.swept <==> exists j :: 0 <= j < i && steps[j].DoExit? && RunningIn(states[j].records, id))
            && (id in h.late <==> exists j :: 0 <= j < i && KeyedLate(states[j], steps[j]) && states[j].nextId == id)
  {
    hide Cancels;
    if i > 0 {
      PastMeans(states, steps, i - 1, id);
    }
  }

  lemma {:induction false} PastCancels(states: seq<State>, steps: seq<Step>, i: nat, id: nat)
    requires Run(states, steps) && i <= |steps|
    ensures id in Past(states, steps, i).cancelled <==> exists j :: 0 <= j < i && Cancels(states[j], steps[j], id)
  {
    hide Noted, StepAt;
    if i > 0 {
      PastCancels(states, steps, i - 1, id);
      NotedKeepsCancelled(Past(states, steps, i - 1), states[i - 1], steps[i - 1]);
      CancelsRunning(states[i - 1], steps[i - 1], id);
    }
  }

  lemma NotedKeepsCancelled(h: History, s: State, step: Step)
    ensures Noted(h, s, step).cancelled == h.cancelled
  {
  }

  lemma CancelsRunning(s: State, step: Step, id: nat)
    ensures Cancels(s, step, id) ==> id in s.records
  {
  }

  /** The supervisor still has, or never let go of, the task: it is queued, in flight, or its join went wrong
      and it was not running at the exit. */
  ghost predicate Held(s: State, h: History, id: nat) {
    id in s.queue || id in s.inFlight || (id in h.stuck && id !in h.swept)
  }

  /** No later task was submitted under the key. */
  ghost predicate Newest(s: State, id: nat) {
    id in s.keyOf && forall x :: x in s.keyOf && s.keyOf[x] == s.keyOf[id] ==> x <= id
  }

  ghost predicate Maps(s: State, k: string, id: nat) { k in s.keys && s.keys[k] == id }

  // ---------------------------------------------------------------- the invariant

  ghost predicate TokensHeld(s: State, h: History) {
    forall id :: id in s.tokens <==> id in s.asyncs && Held(s, h, id)
  }

  ghost predicate KeysHeld(s: State, h: History) {
    forall k, id :: Maps(s, k, id) <==>
      id in s.keyOf && s.keyOf[id] == k && Newest(s, id) && (Held(s, h, id) || id in h.late)
  }

  ghost predicate RunningHeld(s: State, h: History) {
    forall id :: RunningIn(s.records, id) ==> Held(s, h, id)
  }

  ghost predicate StuckApart(s: State, h: History) {
    && (forall id :: id in h.stuck ==> id < s.nextId && id !in s.queue && id !in s.inFlight && Unfinished(s, id))
    && (s.phase != Exited ==> h.swept == {})
  }

  ghost predicate LateApart(s: State, h: History) {
    forall id :: id in h.late ==> id < s.nextId && !Held(s, h, id) && id !in h.stuck && !RunningIn(s.records, id)
  }

  ghost predicate Traced(s: State, h: History) {
    TokensHeld(s, h) && KeysHeld(s, h) && RunningHeld(s, h) && StuckApart(s, h) && LateApart(s, h)
  }

  // ---------------------------------------------------------------- submissions

  lemma SentTraced(s: State, h: History, t: State)
    requires Inv(s) && Traced(s, h) && Grown(s, t)
    ensures Traced(Sent(t, s.nextId), h)
    ensures Held(Sent(t, s.nextId), h, s.nextId) <==> s.phase == Active
  {
    var u := Sent(t, s.nextId);
    SentHeld(s, h, t);
    SentRunning(s, t);
    SentTokens(s, h, t);
    SentKeys(s, h, t);
    SentApart(s, h, t);
  }

  lemma SentHeld(s: State, h: History, t: State)
    requires Pending(s) && StuckApart(s, h) && Grown(s, t)
    ensures forall x :: Held(Sent(t, s.nextId), h, x) <==> Held(s, h, x) || (x == s.nextId && s.phase == Active)
    ensures !Held(s, h, s.nextId)
  {
    hide RunningIn;
    var u := Sent(t, s.nextId);
    forall x ensures x in u.queue <==> x in s.queue || (x == s.nextId && s.phase == Active) {
    }
  }

  lemma SentRunning(s: State, t: State)
    requires Grown(s, t)
    ensures forall x :: RunningIn(Sent(t, s.nextId).records, x) ==> RunningIn(s.records, x) || (x == s.nextId && s.phase == Active)
  {
  }

  lemma SentTokens(s: State, h: History, t: State)
    requires Pending(s) && TokensHeld(s, h) && Grown(s, t)
    requires forall x :: Held(Sent(t, s.nextId), h, x) <==> Held(s, h, x) || (x == s.nextId && s.phase == Active)
    requires !Held(s, h, s.nextId)
    ensures TokensHeld(Sent(t, s.nextId), h)
  {
    hide Held, RunningIn, Queued;
  }

  lemma SentKeys(s: State, h: History, t: State)
    requires Pending(s) && KeyHistory(s) && KeysHeld(s, h) && Grown(s, t)
    requires forall x :: Held(Sent(t, s.nextId), h, x) <==> Held(s, h, x) || (x == s.nextId && s.phase == Active)
    ensures KeysHeld(Sent(t, s.nextId), h)
  {
    hide Held, RunningIn, Queued;
    var u := Sent(t, s.nextId);
    forall id ensures Newest(u, id) <==> Newest(s, id) {
    }
    forall k, id ensures Maps(u, k, id) <==> Maps(s, k, id) {
    }
  }

  lemma SentApart(s: State, h: History, t: State)
    requires Pending(s) && RunningHeld(s, h) && StuckApart(s, h) && LateApart(s, h) && Grown(s, t)
    requires forall x :: Held(Sent(t, s.nextId), h, x) <==> Held(s, h, x) || (x == s.nextId && s.phase == Active)
    requires forall x :: RunningIn(Sent(t, s.nextId).records, x) ==> RunningIn(s.records, x) || (x == s.nextId && s.phase == Active)
    ensures RunningHeld(Sent(t, s.nextId), h) && StuckApart(Sent(t, s.nextId), h) && LateApart(Sent(t, s.nextId), h)
  {
    hide Held;
  }

  lemma SpawnTraced(s: State, h: History, kind: Kind, name: string, now: int)
    requires Inv(s) && Traced(s, h)
    ensures Traced(SpawnAsync(s, kind, name, now), h) && Traced(SpawnBlocking(s, kind, name, now), h)
    ensures Held(SpawnAsync(s, kind, name, now), h, s.nextId) <==> s.phase == Active
  {
    hide Trim, Traced, Sent, Held, Inv;
    StartedKeeps(s, kind, name, now);
    StartedGrown(s, kind, name, now);
    SentTraced(s, h, Started(s, kind, name, now));
    SentTraced(s, h, Begun(s, kind, name, now));
  }

  lemma StartedGrown(s: State, kind: Kind, name: string, now: int)
    requires Inv(s)
    ensures Grown(s, Started(s, kind, name, now)) && Grown(s, Begun(s, kind, name, now))
  {
    hide Trim, Inv;
    StartedKeeps(s, kind, name, now);
  }

  /** The newest task gets a key; a task the supervisor does not have is late. */
  lemma KeyedTraced(t: State, h: History, key: string, id: nat)
    requires Pending(t) && KeyHistory(t) && Traced(t, h) && t.nextId == id + 1 && id !in t.keyOf && id in t.asyncs
    requires id !in h.stuck
    ensures Traced(Keyed(t, key, id), if Held(t, h, id) then h else h.(late := h.late + {id}))
  {
    var u, h' := Keyed(t, key, id), if Held(t, h, id) then h else h.(late := h.late + {id});
    assert forall x :: Held(u, h', x) <==> Held(t, h, x);
    KeyedKeys(t, h, key, id);
    hide Held, Newest, Maps, KeysHeld, Queued, KeyHistory;
  }

  lemma KeyedKeys(t: State, h: History, key: string, id: nat)
    requires Pending(t) && KeyHistory(t) && KeysHeld(t, h) && t.nextId == id + 1 && id !in t.keyOf
    ensures KeysHeld(Keyed(t, key, id), if Held(t, h, id) then h else h.(late := h.late + {id}))
  {
    var u, h' := Keyed(t, key, id), if Held(t, h, id) then h else h.(late := h.late + {id});
    KeyedNewest(t, key, id);
    assert forall x :: Held(u, h', x) <==> Held(t, h, x);
    hide Held, Queued;
    forall k, x ensures Maps(u, k, x) <==>
      x in u.keyOf && u.keyOf[x] == k && Newest(u, x) && (Held(u, h', x) || x in h'.late)
    {
      if k != key { assert Maps(u, k, x) <==> Maps(t, k, x); }
    }
  }

  lemma KeyedNewest(t: State, key: string, id: nat)
    requires Pending(t) && KeyHistory(t) && t.nextId == id + 1 && id !in t.keyOf
    ensures forall x :: Newest(Keyed(t, key, id), x) <==>
              x == id || (x in t.keyOf && t.keyOf[x] != key && Newest(t, x))
  {
    var u := Keyed(t, key, id);
    assert forall y :: y in u.keyOf <==> y in t.keyOf || y == id;
    assert forall y :: y in t.keyOf ==> u.keyOf[y] == t.keyOf[y] && y < id;
    forall x: nat ensures Newest(u, x) <==> x == id || (x in t.keyOf && t.keyOf[x] != key && Newest(t, x)) {
      if x in t.keyOf && t.keyOf[x] == key {
        assert id in u.keyOf && u.keyOf[id] == u.keyOf[x];
      } else if x in t.keyOf {
        if Newest(u, x) {
          forall y | y in t.keyOf && t.keyOf[y] == t.keyOf[x] ensures y <= x { assert u.keyOf[y] == u.keyOf[x]; }
        }
      }
    }
  }

  /** The newest task gets a key, and loses it because the queue is closed. */
  lemma UnkeyedTraced(t: State, h: History, key: string, id: nat)
    requires Pending(t) && KeyHistory(t) && Traced(t, h) && t.nextId == id + 1 && id !in t.keyOf && id in t.asyncs
    requires id !in h.stuck && !Held(t, h, id) && id !in h.late
    ensures var u := Keyed(t, key, id); Traced(u.(keys := WithoutId(u.keys, id)), h)
  {
    var k1 := Keyed(t, key, id);
    var u := k1.(keys := WithoutId(k1.keys, id));
    UnkeyedMaps(t, key, id);
    KeyedNewest(t, key, id);
    UnkeyedSame(t, h, k1, u);
    hide Held, Newest, Maps, WithoutId, Queued, KeyHistory;
    assert KeysHeld(u, h) by { hide TokensHeld, RunningHeld, StuckApart, LateApart, Pending; }
    hide KeysHeld;
  }

  lemma UnkeyedSame(t: State, h: History, k1: State, u: State)
    requires u == k1.(keys := u.keys) && k1 == t.(keys := k1.keys, keyOf := k1.keyOf)
    ensures forall x :: Newest(u, x) <==> Newest(k1, x)
    ensures forall x :: Held(u, h, x) <==> Held(t, h, x)
  {
  }

  lemma UnkeyedMaps(t: State, key: string, id: nat)
    requires KeyHistory(t) && id !in t.keyOf
    ensures var k1 := Keyed(t, key, id);
            forall k, x :: Maps(k1.(keys := WithoutId(k1.keys, id)), k, x) <==> k != key && Maps(t, k, x)
  {
  }

  lemma CancelTraced(s: State, h: History, id: nat)
    requires Traced(s, h)
    ensures Traced(Cancel(s, id).0, h)
  {
    var t := Cancel(s, id).0;
    assert forall x :: Held(t, h, x) <==> Held(s, h, x);
    assert forall x :: Newest(t, x) <==> Newest(s, x);
    assert forall k, x :: Maps(t, k, x) <==> Maps(s, k, x);
  }

  lemma UniqueTraced(s: State, h: History, kind: Kind, key: string, name: string, now: int)
    requires Inv(s) && Traced(s, h)
    ensures Traced(SpawnUnique(s, kind, key, name, now), if s.phase == Active then h else h.(late := h.late + {s.nextId}))
  {
    hide Traced, SpawnAsync;
    var s' := if key in s.keys then Cancel(s, s.keys[key]).0 else s;
    if key in s.keys {
      CancelKeeps(s, s.keys[key]);
      CancelTraced(s, h, s.keys[key]);
    }
    FreshTraced(s', h, kind, key, name, now);
  }

  /** A fresh keyed task, however its key was freed. */
  lemma FreshTraced(s: State, h: History, kind: Kind, key: string, name: string, now: int)
    requires Inv(s) && Traced(s, h)
    ensures
      var u := Keyed(SpawnAsync(s, kind, name, now), key, s.nextId);
      && Traced(u, if s.phase == Active then h else h.(late := h.late + {s.nextId}))
      && (s.phase != Active ==> Traced(u.(keys := WithoutId(u.keys, s.nextId)), h))
  {
    hide SpawnAsync, WithoutId, Held, TokensHeld, KeysHeld, RunningHeld;
    var t := SpawnAsync(s, kind, name, now);
    SpawnTraced(s, h, kind, name, now);
    SpawnAsyncKeeps(s, kind, name, now);
    SpawnAsyncFrame(s, kind, name, now);
    KeyedTraced(t, h, key, s.nextId);
    if s.phase != Active { UnkeyedTraced(t, h, key, s.nextId); }
  }

  lemma SubmissionTraced(s: State, h: History, step: Step)
    requires Inv(s) && Traced(s, h) && Enabled(s, step) && Submission(step)
    ensures Traced(Next(s, step), Noted(h, s, step))
  {
    hide Inv, Traced, SpawnAsync, SpawnBlocking, SpawnUnique;
    match step
    case DoSpawnAsync(kind, name, now) => SpawnTraced(s, h, kind, name, now);
    case DoSpawnBlocking(kind, name, now) => SpawnTraced(s, h, kind, name, now);
    case DoSpawnUnique(kind, key, name, now) => UniqueTraced(s, h, kind, key, name, now);
    case DoSpawnOnce(kind, key, name, now) => FreshTraced(s, h, kind, key, name, now);
    case DoSpawnProgress(kind, key, name, now) => FreshTraced(s, h, kind, key, name, now);
    case _ => assert false;
  }

  // ---------------------------------------------------------------- the supervisor

  lemma ReceiveTraced(s: State, h: History)
    requires Inv(s) && Traced(s, h) && Enabled(s, DoReceive)
    ensures Traced(Receive(s), h)
  {
    var t := Receive(s);
    assert s.queue == [s.queue[0]] + t.queue;
    SameHolders(s, h, t, h);
  }

  /** Tokens and keys as they were, and the same tasks held. */
  lemma SameHolders(s: State, h: History, t: State, g: History)
    requires TokensHeld(s, h) && KeysHeld(s, h) && g.late == h.late
    requires t.keys == s.keys && t.keyOf == s.keyOf && t.tokens.Keys == s.tokens.Keys && t.asyncs == s.asyncs
    requires forall x :: Held(t, g, x) <==> Held(s, h, x)
    ensures TokensHeld(t, g) && KeysHeld(t, g)
  {
    hide Held;
    assert forall x :: Newest(t, x) <==> Newest(s, x);
    assert forall k, x :: Maps(t, k, x) <==> Maps(s, k, x);
  }

  /** Some tasks let go, their tokens and keys with them. */
  lemma FewerHolders(s: State, h: History, t: State, g: History, gone: set<nat>)
    requires TokensHeld(s, h) && KeysHeld(s, h) && g.late == h.late && gone !! h.late
    requires t.keyOf == s.keyOf && t.tokens.Keys == s.tokens.Keys - gone && t.asyncs == s.asyncs
    requires t.keys == map k | k in s.keys && s.keys[k] !in gone :: s.keys[k]
    requires forall x :: Held(t, g, x) <==> Held(s, h, x) && x !in gone
    ensures TokensHeld(t, g) && KeysHeld(t, g)
  {
    hide Held;
    assert forall x :: Newest(t, x) <==> Newest(s, x);
    assert forall k, x :: Maps(t, k, x) <==> Maps(s, k, x) && x !in gone;
  }

  lemma JoinTraced(s: State, h: History, id: nat, outcome: Outcome)
    requires Inv(s) && Traced(s, h) && Enabled(s, DoJoin(id, outcome))
    ensures Traced(Join(s, id, outcome), Noted(h, s, DoJoin(id, outcome)))
  {
    var t, g := Join(s, id, outcome), Noted(h, s, DoJoin(id, outcome));
    assert forall x :: x in s.queue ==> x != id;
    if outcome.Panicked? || outcome.Aborted? {
      SameHolders(s, h, t, g);
    } else {
      LeftHeld(s, h, t, id);
      FewerHolders(s, h, t, g, {id});
      assert forall x :: RunningIn(t.records, x) ==> RunningIn(s.records, x) && x != id;
    }
  }

  /** A pending task leaves for good. */
  lemma LeftHeld(s: State, h: History, t: State, id: nat)
    requires StuckApart(s, h) && (id in s.queue || id in s.inFlight)
    requires t.inFlight == s.inFlight - {id} && forall x :: x in t.queue <==> x in s.queue && x != id
    ensures forall x :: Held(t, h, x) <==> Held(s, h, x) && x != id
  {
  }

  lemma DropTraced(s: State, h: History)
    requires Inv(s) && Traced(s, h) && Enabled(s, DoDropQueued)
    ensures Traced(DropQueued(s), h)
  {
    var t, id := DropQueued(s), s.queue[0];
    DropFrame(s);
    LeftHeld(s, h, t, id);
    FewerHolders(s, h, t, h, {id});
  }

  lemma DropFrame(s: State)
    requires Queued(s) && s.queue != []
    ensures var t, id := DropQueued(s), s.queue[0];
            && (forall x :: x in t.queue <==> x in s.queue && x != id)
            && (forall x :: RunningIn(t.records, x) ==> RunningIn(s.records, x) && x != id)
  {
    assert s.queue == [s.queue[0]] + DropQueued(s).queue;
  }

  lemma DrainTraced(s: State, h: History)
    requires Inv(s) && Traced(s, h) && Enabled(s, DoStartDrain)
    ensures Traced(StartDrain(s), h)
  {
    var t := StartDrain(s);
    assert t.tokens.Keys == s.tokens.Keys;
    SameHolders(s, h, t, h);
  }

  lemma ExitTraced(s: State, h: History)
    requires Inv(s) && Traced(s, h) && Enabled(s, DoExit)
    ensures Traced(Exit(s), Noted(h, s, DoExit))
  {
    var t, g := Exit(s), Noted(h, s, DoExit);
    assert forall x :: Held(t, g, x) <==> Held(s, h, x) && x !in RunningIds(s.records);
    FewerHolders(s, h, t, g, RunningIds(s.records));
    assert forall x :: !RunningIn(t.records, x);
  }

  lemma StepTraced(s: State, h: History, step: Step)
    requires Inv(s) && Traced(s, h) && Enabled(s, step)
    ensures Traced(Next(s, step), Noted(h, s, step))
  {
    hide Inv, SpawnAsync, SpawnBlocking, SpawnUnique, SpawnOnce, SpawnProgress, Receive, Join, DropQueued, StartDrain, Exit, Cancel;
    if Submission(step) {
      SubmissionTraced(s, h, step);
    } else {
      match step
      case DoCancel(id) => CancelTraced(s, h, id);
      case DoReceive => ReceiveTraced(s, h);
      case DoJoin(id, outcome) => JoinTraced(s, h, id, outcome);
      case DoDropQueued => DropTraced(s, h);
      case DoStartDrain => DrainTraced(s, h);
      case DoExit => ExitTraced(s, h);
      case DoShutdown => SameHolders(s, h, Shutdown(s), h);
      case DoTimeOut => SameHolders(s, h, TimeOut(s), h);
      case _ => assert false;
    }
  }

  // ---------------------------------------------------------------- cancellation

  /** A task the supervisor holds runs unless it was cancelled. */
  ghost predicate CancelledHeld(s: State, h: History) {
    && (forall id :: Held(s, h, id) ==> (RunningIn(s.records, id) <==> id !in h.cancelled))
    && (forall id :: id in h.cancelled ==> id < s.nextId)
  }

  /** Held before or just started, and running as before but for what was cancelled. */
  ghost predicate OnlyCancelled(s: State, h: History, t: State, g: History, c: set<nat>) {
    && s.nextId <= t.nextId
    && (forall x: nat :: Held(t, g, x) ==> Held(s, h, x) || (s.nextId <= x && RunningIn(t.records, x)))
    && (forall x: nat :: Held(t, g, x) && x < s.nextId ==> (RunningIn(t.records, x) <==> RunningIn(s.records, x) && x !in c))
    && (forall x :: x in c ==> x < s.nextId)
  }

  lemma OnlyCancelledKeeps(s: State, h: History, t: State, g: History, c: set<nat>)
    requires CancelledHeld(s, h) && OnlyCancelled(s, h, t, g, c) && g.cancelled == h.cancelled + c
    requires forall x: nat :: Held(s, h, x) ==> x < s.nextId
    ensures CancelledHeld(t, g)
  {
    hide Held, RunningIn;
    forall x: nat | Held(t, g, x) ensures RunningIn(t.records, x) <==> x !in g.cancelled {
      if x >= s.nextId {
        assert !Held(s, h, x);
      }
    }
  }

  lemma HeldKnown(s: State, h: History)
    requires Pending(s) && StuckApart(s, h)
    ensures forall x: nat :: Held(s, h, x) ==> x < s.nextId
  {
  }

  lemma SentOnlyCancels(s: State, h: History, t: State)
    requires Pending(s) && StuckApart(s, h) && Grown(s, t)
    ensures OnlyCancelled(s, h, Sent(t, s.nextId), h, {})
  {
    hide Held;
    SentHeld(s, h, t);
    SentRunsExactly(s, t);
    SentNext(t, s.nextId);
  }

  lemma SentRunsExactly(s: State, t: State)
    requires Grown(s, t)
    ensures forall x: nat :: x < s.nextId ==> (RunningIn(Sent(t, s.nextId).records, x) <==> RunningIn(s.records, x))
    ensures s.phase == Active ==> RunningIn(Sent(t, s.nextId).records, s.nextId)
  {
  }

  lemma SentNext(t: State, id: nat)
    ensures Sent(t, id).nextId == t.nextId
  {
  }

  lemma SpawnOnlyCancels(s: State, h: History, kind: Kind, name: string, now: int)
    requires Inv(s) && Traced(s, h)
    ensures OnlyCancelled(s, h, SpawnAsync(s, kind, name, now), h, {})
    ensures OnlyCancelled(s, h, SpawnBlocking(s, kind, name, now), h, {})
  {
    hide Trim, Sent, Held, OnlyCancelled, TokensHeld, KeysHeld, RunningHeld, LateApart, PendingUnfinished, Reachable, Phased;
    StartedGrown(s, kind, name, now);
    SentOnlyCancels(s, h, Started(s, kind, name, now));
    SentOnlyCancels(s, h, Begun(s, kind, name, now));
  }

  /** Keys and the other parts of the history do not matter. */
  lemma KeysIrrelevant(s: State, h: History, t: State, g: History, c: set<nat>, u: State, k: History)
    requires OnlyCancelled(s, h, t, g, c)
    requires u == t.(keys := u.keys, keyOf := u.keyOf) && k.stuck == g.stuck && k.swept == g.swept
    ensures OnlyCancelled(s, h, u, k, c)
  {
  }

  function CancelledNow(s: State, step: Step): set<nat> { set id | id in s.records && Cancels(s, step, id) }

  lemma FreshOnlyCancels(s: State, h: History, step: Step)
    requires Inv(s) && Traced(s, h) && Enabled(s, step) && Submission(step) && !step.DoSpawnUnique?
    ensures OnlyCancelled(s, h, Next(s, step), Record(h, s, step), CancelledNow(s, step))
  {
    hide Inv, Traced, SpawnAsync, SpawnBlocking, WithoutId, OnlyCancelled, RunningIn;
    assert CancelledNow(s, step) == {};
    SpawnOnlyCancels(s, h, step.kind, step.name, step.now);
    var g := Record(h, s, step);
    var t := if step.DoSpawnBlocking? then SpawnBlocking(s, step.kind, step.name, step.now)
             else SpawnAsync(s, step.kind, step.name, step.now);
    if Next(s, step) == s {
      NothingCancelled(s, h, g);
    } else {
      KeysIrrelevant(s, h, t, h, {}, Next(s, step), g);
    }
  }

  lemma NothingCancelled(s: State, h: History, g: History)
    requires Inv(s) && Traced(s, h) && g.stuck == h.stuck && g.swept == h.swept
    ensures OnlyCancelled(s, h, s, g, {})
  {
    HeldKnown(s, h);
  }

  lemma UniqueOnlyCancels(s: State, h: History, step: Step)
    requires Inv(s) && Traced(s, h) && step.DoSpawnUnique?
    ensures OnlyCancelled(s, h, Next(s, step), Record(h, s, step), CancelledNow(s, step))
  {
    hide Inv, Traced, SpawnAsync, OnlyCancelled;
    var s' := if step.key in s.keys then Cancel(s, s.keys[step.key]).0 else s;
    var c := CancelledNow(s, step);
    if step.key in s.keys {
      CancelKeeps(s, s.keys[step.key]);
      CancelTraced(s, h, s.keys[step.key]);
    }
    OldTaskCancelled(s, h, step);
    SpawnOnlyCancels(s', h, step.kind, step.name, step.now);
    var t := SpawnAsync(s', step.kind, step.name, step.now);
    CancelledThen(s, h, s', h, c, t);
    KeysIrrelevant(s, h, t, h, c, Next(s, step), Record(h, s, step));
  }

  lemma OldTaskCancelled(s: State, h: History, step: Step)
    requires Inv(s) && Traced(s, h) && step.DoSpawnUnique?
    ensures var s' := if step.key in s.keys then Cancel(s, s.keys[step.key]).0 else s;
            && OnlyCancelled(s, h, s', h, CancelledNow(s, step)) && s'.nextId == s.nextId
            && forall x: nat :: Held(s', h, x) ==> Held(s, h, x)
  {
    HeldKnown(s, h);
  }

  lemma CancelledThen(s: State, h: History, t: State, g: History, c: set<nat>, u: State)
    requires OnlyCancelled(s, h, t, g, c) && OnlyCancelled(t, g, u, g, {}) && t.nextId == s.nextId
    requires forall x: nat :: Held(t, g, x) ==> Held(s, h, x)
    ensures OnlyCancelled(s, h, u, g, c)
  {
    hide Held, RunningIn;
  }

  lemma SupervisorOnlyCancels(s: State, h: History, step: Step)
    requires Inv(s) && Traced(s, h) && Enabled(s, step) && !Submission(step)
    ensures OnlyCancelled(s, h, Next(s, step), Record(h, s, step), CancelledNow(s, step))
  {
    if step.DoCancel? {
      CancelOnlyCancels(s, h, step.id);
    } else if step.DoStartDrain? {
      DrainOnlyCancels(s, h);
    } else {
      hide Inv, Traced, OnlyCancelled, Held, Receive, Join, DropQueued, Exit, StartDrain;
      assert CancelledNow(s, step) == {};
      match step
      case DoReceive => ReceiveOnlyCancels(s, h);
      case DoJoin(id, outcome) => JoinOnlyCancels(s, h, id, outcome);
      case DoShutdown => NothingMoved(s, h, Shutdown(s), Record(h, s, step));
      case DoDropQueued =>
        DropOnlyCancels(s, h);
        KeysIrrelevant(s, h, DropQueued(s), h, {}, DropQueued(s), Record(h, s, step));
      case DoTimeOut => NothingMoved(s, h, TimeOut(s), Record(h, s, step));
      case DoExit => ExitOnlyCancels(s, h);
      case _ => assert false;
    }
  }

  lemma NothingMoved(s: State, h: History, t: State, g: History)
    requires Inv(s) && Traced(s, h) && g.stuck == h.stuck && g.swept == h.swept
    requires t == s.(phase := t.phase, aborted := t.aborted)
    ensures OnlyCancelled(s, h, t, g, {})
  {
    HeldKnown(s, h);
  }

  lemma CancelOnlyCancels(s: State, h: History, id: nat)
    requires Inv(s) && Traced(s, h)
    ensures OnlyCancelled(s, h, Cancel(s, id).0, Record(h, s, DoCancel(id)), CancelledNow(s, DoCancel(id)))
  {
    HeldKnown(s, h);
  }

  lemma DrainOnlyCancels(s: State, h: History)
    requires Inv(s) && Traced(s, h)
    ensures OnlyCancelled(s, h, StartDrain(s), Record(h, s, DoStartDrain), CancelledNow(s, DoStartDrain))
  {
    hide KeysHeld, TokensHeld, RunningHeld, LateApart, Reachable;
    HeldKnown(s, h);
  }

  lemma ReceiveOnlyCancels(s: State, h: History)
    requires Inv(s) && Traced(s, h) && Enabled(s, DoReceive)
    ensures OnlyCancelled(s, h, Receive(s), Record(h, s, DoReceive), {})
  {
    hide KeysHeld, TokensHeld, RunningHeld, LateApart, Reachable;
    HeldKnown(s, h);
    assert s.queue == [s.queue[0]] + Receive(s).queue;
  }

  lemma JoinOnlyCancels(s: State, h: History, id: nat, outcome: Outcome)
    requires Inv(s) && Traced(s, h) && Enabled(s, DoJoin(id, outcome))
    ensures OnlyCancelled(s, h, Join(s, id, outcome), Record(h, s, DoJoin(id, outcome)), {})
  {
    hide KeysHeld, TokensHeld, RunningHeld, LateApart, Reachable, WithoutId;
    HeldKnown(s, h);
  }

  lemma ExitOnlyCancels(s: State, h: History)
    requires Inv(s) && Traced(s, h) && Enabled(s, DoExit)
    ensures OnlyCancelled(s, h, Exit(s), Record(h, s, DoExit), {})
  {
    hide KeysHeld, TokensHeld, LateApart, Reachable;
    HeldKnown(s, h);
  }

  lemma DropOnlyCancels(s: State, h: History)
    requires Inv(s) && Traced(s, h) && Enabled(s, DoDropQueued)
    ensures OnlyCancelled(s, h, DropQueued(s), h, {})
  {
    HeldKnown(s, h);
    DropFrame(s);
    LeftHeld(s, h, DropQueued(s), s.queue[0]);
  }

  lemma StepCancelled(s: State, h: History, step: Step)
    requires Inv(s) && Traced(s, h) && CancelledHeld(s, h) && Enabled(s, step)
    ensures CancelledHeld(Next(s, step), Record(h, s, step))
  {
    hide Next, OnlyCancelled, CancelledHeld, Held;
    if step.DoSpawnUnique? {
      UniqueOnlyCancels(s, h, step);
    } else if Submission(step) {
      FreshOnlyCancels(s, h, step);
    } else {
      SupervisorOnlyCancels(s, h, step);
    }
    HeldKnown(s, h);
    OnlyCancelledKeeps(s, h, Next(s, step), Record(h, s, step), CancelledNow(s, step));
  }

  // ---------------------------------------------------------------- tripped tokens

  /** A token is tripped exactly when its task no longer runs. */
  ghost predicate TokensTell(s: State) {
    forall id :: id in s.tokens ==> (s.tokens[id] <==> !RunningIn(s.records, id))
  }

  /** The tokens of `t` are tokens of `s`, or new and untripped, and say the truth as before where nothing
      changed. */
  lemma SentTells(s: State, t: State)
    requires Inv(s) && TokensTell(s) && Grown(s, t)
    ensures TokensTell(Sent(t, s.nextId))
  {
    hide Queued, PendingUnfinished, Reachable, Phased;
    SentRunsExactly(s, t);
    var u := Sent(t, s.nextId);
    forall id | id in u.tokens ensures u.tokens[id] <==> !RunningIn(u.records, id) {
      if id < s.nextId { assert id in s.tokens; }
    }
  }

  lemma SpawnTells(s: State, kind: Kind, name: string, now: int)
    requires Inv(s) && TokensTell(s)
    ensures TokensTell(SpawnAsync(s, kind, name, now)) && TokensTell(SpawnBlocking(s, kind, name, now))
  {
    hide Trim, Sent, Inv, TokensTell;
    StartedGrown(s, kind, name, now);
    SentTells(s, Started(s, kind, name, now));
    SentTells(s, Begun(s, kind, name, now));
  }

  lemma KeysTellNothing(s: State, t: State)
    requires TokensTell(s) && t == s.(keys := t.keys, keyOf := t.keyOf)
    ensures TokensTell(t)
  {
  }

  /** A cancel that answers true trips the task's token and no other, and the task runs no more. */
  lemma CancelTrips(s: State, id: nat)
    ensures
      var (t, ok) := Cancel(s, id);
      && (ok <==> id in s.tokens) && t.tokens.Keys == s.tokens.Keys
      && (ok ==> t.tokens[id] && !RunningIn(t.records, id))
      && (forall x :: x in s.tokens && x != id ==> t.tokens[x] == s.tokens[x])
      && (forall x :: x != id ==> (RunningIn(t.records, x) <==> RunningIn(s.records, x)))
      && (!ok ==> t == s)
  {
  }

  lemma CancelTells(s: State, id: nat)
    requires TokensTell(s)
    ensures TokensTell(Cancel(s, id).0)
  {
    hide Cancel;
    CancelTrips(s, id);
  }

  lemma SubmissionTells(s: State, step: Step)
    requires Inv(s) && TokensTell(s) && Enabled(s, step) && Submission(step)
    ensures TokensTell(Next(s, step))
  {
    hide Inv, TokensTell, SpawnAsync, SpawnBlocking, WithoutId, Cancel;
    SpawnTells(s, step.kind, step.name, step.now);
    if step.DoSpawnUnique? {
      if step.key in s.keys {
        var s' := Cancel(s, s.keys[step.key]).0;
        CancelKeeps(s, s.keys[step.key]);
        CancelTells(s, s.keys[step.key]);
        SpawnTells(s', step.kind, step.name, step.now);
        KeysTellNothing(SpawnAsync(s', step.kind, step.name, step.now), Next(s, step));
      } else {
        KeysTellNothing(SpawnAsync(s, step.kind, step.name, step.now), Next(s, step));
      }
    } else if step.DoSpawnOnce? || step.DoSpawnProgress? {
      if Next(s, step) != s { KeysTellNothing(SpawnAsync(s, step.kind, step.name, step.now), Next(s, step)); }
    }
  }

  lemma StepTells(s: State, step: Step)
    requires Inv(s) && TokensTell(s) && Enabled(s, step)
    ensures TokensTell(Next(s, step))
  {
    if Submission(step) {
      SubmissionTells(s, step);
    } else {
      hide Inv, WithoutId, SpawnAsync, SpawnBlocking, SpawnUnique, SpawnOnce, SpawnProgress;
    }
  }

  // ---------------------------------------------------------------- what runs promise

  lemma {:induction false} RunTraced(states: seq<State>, steps: seq<Step>, i: nat)
    requires Run(states, steps) && i <= |steps|
    ensures Traced(states[i], Past(states, steps, i)) && CancelledHeld(states[i], Past(states, steps, i))
  {
    hide Traced, Inv, CancelledHeld, Next;
    if i == 0 {
      StartTraced();
    } else {
      var s, h, step := states[i - 1], Past(states, steps, i - 1), steps[i - 1];
      RunTraced(states, steps, i - 1);
      RunInv(states, steps, i - 1);
      assert StepAt(states, steps, i - 1);
      StepTraced(s, h, step);
      CancelledIrrelevant(states[i], Noted(h, s, step), Record(h, s, step));
      StepCancelled(s, h, step);
    }
  }

  lemma StartTraced()
    ensures Traced(START, NOTHING) && CancelledHeld(START, NOTHING)
  {
  }

  lemma CancelledIrrelevant(s: State, h: History, g: History)
    requires Traced(s, h) && g.stuck == h.stuck && g.swept == h.swept && g.late == h.late
    ensures Traced(s, g)
  {
    assert forall x :: Held(s, g, x) <==> Held(s, h, x);
    hide Held, Newest, Maps;
  }

  /** In every state of every run a task has a token if and only if it is async and is queued, or in flight, or
      its join panicked or was aborted and it was not running when the supervisor exited. */
  lemma TokensExactly(states: seq<State>, steps: seq<Step>, i: nat, id: nat)
    requires Run(states, steps) && i <= |steps|
    ensures
      var s := states[i];
      id in s.tokens <==>
        && id in s.asyncs
        && (|| id in s.queue || id in s.inFlight
            || ((exists j :: 0 <= j < i && JoinFailed(steps[j], id))
                && !exists j :: 0 <= j < i && steps[j].DoExit? && RunningIn(states[j].records, id)))
  {
    RunTraced(states, steps, i);
    PastMeans(states, steps, i, id);
  }

  /** In every state of every run a key maps to a task if and only if that task is the last one submitted under
      the key and is queued, or in flight, or was left behind by its join and not running at the exit, or was
      submitted to a closed queue by a call that leaves the key in place. */
  lemma KeysExactly(states: seq<State>, steps: seq<Step>, i: nat, key: string, id: nat)
    requires Run(states, steps) && i <= |steps|
    ensures
      var s := states[i];
      Maps(s, key, id) <==>
        && id in s.keyOf && s.keyOf[id] == key && Newest(s, id)
        && (|| id in s.queue || id in s.inFlight
            || ((exists j :: 0 <= j < i && JoinFailed(steps[j], id))
                && !exists j :: 0 <= j < i && steps[j].DoExit? && RunningIn(states[j].records, id))
            || exists j :: 0 <= j < i && KeyedLate(states[j], steps[j]) && states[j].nextId == id)
  {
    RunTraced(states, steps, i);
    PastMeans(states, steps, i, id);
  }

  /** In every state of every run a task that has a token runs if and only if no step cancelled it while it ran. */
  lemma TokenOfRunningExactly(states: seq<State>, steps: seq<Step>, i: nat, id: nat)
    requires Run(states, steps) && i <= |steps| && id in states[i].tokens
    ensures RunningIn(states[i].records, id) <==> !exists j :: 0 <= j < i && Cancels(states[j], steps[j], id)
  {
    RunTraced(states, steps, i);
    PastCancels(states, steps, i, id);
  }

  lemma {:induction false} RunTells(states: seq<State>, steps: seq<Step>, i: nat)
    requires Run(states, steps) && i <= |steps|
    ensures TokensTell(states[i])
  {
    hide TokensTell, Inv, Next;
    if i == 0 {
      StartTells();
    } else {
      RunTells(states, steps, i - 1);
      RunInv(states, steps, i - 1);
      assert StepAt(states, steps, i - 1);
      StepTells(states[i - 1], steps[i - 1]);
    }
  }

  lemma StartTells()
    ensures TokensTell(START)
  {
  }

  /** In every state of every run a token is tripped if and only if some step cancelled its task while it ran; so is
      the token of every task whose record says cancelled. */
  lemma TrippedExactly(states: seq<State>, steps: seq<Step>, i: nat, id: nat)
    requires Run(states, steps) && i <= |steps| && id in states[i].tokens
    ensures states[i].tokens[id] <==> exists j :: 0 <= j < i && Cancels(states[j], steps[j], id)
    ensures id in states[i].records && states[i].records[id].state == Cancelled ==> states[i].tokens[id]
  {
    RunTells(states, steps, i);
    TokenOfRunningExactly(states, steps, i, id);
  }

  /** A tripped token stays tripped as long as it is there. */
  lemma TrippedForever(states: seq<State>, steps: seq<Step>, i: nat, j: nat, id: nat)
    requires Run(states, steps) && i <= j <= |steps| && id in states[i].tokens && id in states[j].tokens
    requires states[i].tokens[id]
    ensures states[j].tokens[id]
  {
    TrippedExactly(states, steps, i, id);
    TrippedExactly(states, steps, j, id);
  }

  /** In every state of every run a key names a running task if and only if no step cancelled that task while it
      ran and it was not submitted too late. */
  lemma KeyOfRunningExactly(states: seq<State>, steps: seq<Step>, i: nat, key: string)
    requires Run(states, steps) && i <= |steps| && key in states[i].keys
    ensures
      var s, id := states[i], states[i].keys[key];
      RunningIn(s.records, id) <==>
        && (!exists j :: 0 <= j < i && Cancels(states[j], steps[j], id))
        && !exists j :: 0 <= j < i && KeyedLate(states[j], steps[j]) && states[j].nextId == id
  {
    var s, h, id := states[i], Past(states, steps, i), states[i].keys[key];
    RunTraced(states, steps, i);
    PastMeans(states, steps, i, id);
    PastCancels(states, steps, i, id);
    assert Maps(s, key, id);
  }
}
