/** The task manager as values: every public call and every turn of the supervisor as a function from
    state to state, taken as one step each, and what all runs of such steps keep. */
module Tasks {
  import opened Arithmetic

  const TRIM_ABOVE: nat := 512
  const GONE := "supervisor gone"

  datatype Kind = Startup | Apply | Service | Generic
  datatype TaskState = Running | Completed | Failed(message: string) | Cancelled
  datatype Record = Record(kind: Kind, name: string, startedAt: int, state: TaskState)
  type Records = map<nat, Record>

  datatype Phase = Active | Closed | Draining | Exited

  /** The manager's maps, its queue and the supervisor's join set. Tokens map to whether they were
      tripped. The last two fields are history: the key a task was submitted under, if any, and which
      tasks are async. */
  datatype State = State(
    nextId: nat,
    records: Records,
    tokens: map<nat, bool>,
    keys: map<string, nat>,
    queue: seq<nat>,
    inFlight: set<nat>,
    phase: Phase,
    aborted: bool,
    keyOf: map<nat, string>,
    asyncs: set<nat>)

  const START := State(1, map[], map[], map[], [], {}, Active, false, map[], {})

  // ---------------------------------------------------------------- trimming

  predicate RunningIn(records: Records, id: nat) { id in records && records[id].state == Running }

  function RunningIds(records: Records): set<nat> { set id | id in records && records[id].state == Running }
  function FinishedIds(records: Records): set<nat> { set id | id in records && records[id].state != Running }

  lemma HasLeast(s: set<nat>)
    requires s != {}
    ensures exists m :: m in s && forall x :: x in s ==> m <= x
  {
    var m := LeastOf(s);
  }

  function Least(s: set<nat>): (m: nat)
    requires s != {}
    ensures m in s && forall x :: x in s ==> m <= x
  {
    HasLeast(s);
    var m: nat :| m in s && forall x :: x in s ==> m <= x;
    m
  }

  /** The `n` smallest elements, or all. */
  function Smallest(s: set<nat>, n: nat): set<nat>
    decreases n
  {
    if n == 0 || s == {} then {} else {Least(s)} + Smallest(s - {Least(s)}, n - 1)
  }

  lemma SmallestNext(s: set<nat>, n: nat, taken: set<nat>)
    requires n > 0 && s != {}
    ensures taken + Smallest(s, n) == taken + {Least(s)} + Smallest(s - {Least(s)}, n - 1)
  {
  }

  lemma {:induction false} SmallestAre(s: set<nat>, n: nat)
    ensures Smallest(s, n) <= s && |Smallest(s, n)| == if n < |s| then n else |s|
    ensures forall x, y :: x in Smallest(s, n) && y in s - Smallest(s, n) ==> x < y
    decreases n
  {
    if n > 0 && s != {} {
      var rest := s - {Least(s)};
      SmallestAre(rest, n - 1);
      assert s - Smallest(s, n) == rest - Smallest(rest, n - 1);
    }
  }

  /** `trim_finished`: the oldest finished records go until the cap is met or none is left. */
  function Trim(records: Records): Records {
    if |records| <= TRIM_ABOVE then records
    else records - Smallest(FinishedIds(records), |records| - TRIM_ABOVE)
  }

  lemma CountRecords(records: Records)
    ensures |records| == |RunningIds(records)| + |FinishedIds(records)|
  {
    assert records.Keys == RunningIds(records) + FinishedIds(records);
    assert RunningIds(records) !! FinishedIds(records);
  }

  /** Trimming drops no running task, keeps what it keeps as it was, leaves at most the cap or the running
      tasks, and drops older finished tasks before newer ones. */
  lemma TrimKeeps(records: Records)
    ensures RunningIds(Trim(records)) == RunningIds(records)
    ensures forall id :: id in Trim(records) ==> id in records && Trim(records)[id] == records[id]
    ensures |Trim(records)| <= if |RunningIds(records)| > TRIM_ABOVE then |RunningIds(records)| else TRIM_ABOVE
    ensures forall x, y :: x in records && x !in Trim(records) && y in Trim(records) && records[y].state != Running ==> x < y
  {
    if |records| > TRIM_ABOVE {
      hide Smallest, RunningIds, FinishedIds;
      var gone := Smallest(FinishedIds(records), |records| - TRIM_ABOVE);
      SmallestAre(FinishedIds(records), |records| - TRIM_ABOVE);
      CountRecords(records);
      OnlyFinishedGo(records, gone);
      CountWithout(records, gone);
      OldestGo(records, gone);
    }
  }

  lemma OnlyFinishedGo(records: Records, gone: set<nat>)
    requires gone <= FinishedIds(records)
    ensures RunningIds(records - gone) == RunningIds(records) && gone <= records.Keys
  {
  }

  lemma OldestGo(records: Records, gone: set<nat>)
    requires gone <= FinishedIds(records)
    requires forall x, y :: x in gone && y in FinishedIds(records) - gone ==> x < y
    ensures var r := records - gone;
            forall x, y :: x in records && x !in r && y in r && records[y].state != Running ==> x < y
  {
    forall x, y | x in gone && y in records && y !in gone && records[y].state != Running ensures x < y {
      assert y in FinishedIds(records) - gone;
    }
  }

  lemma CountWithout(records: Records, gone: set<nat>)
    requires gone <= records.Keys
    ensures |records - gone| == |records| - |gone|
  {
    assert (records - gone).Keys == records.Keys - gone;
  }

  // ---------------------------------------------------------------- public calls

  function WithState(records: Records, id: nat, state: TaskState): Records {
    if id in records then records[id := records[id].(state := state)] else records
  }

  /** `record_started`. */
  function Started(s: State, kind: Kind, name: string, now: int): State {
    s.(nextId := s.nextId + 1, records := Trim(s.records[s.nextId := Record(kind, name, now, Running)]))
  }

  /** Handing the task to the supervisor; once the queue is closed the task fails at once. */
  function Sent(s: State, id: nat): State {
    if s.phase == Active then s.(queue := s.queue + [id])
    else s.(tokens := s.tokens - {id}, records := WithState(s.records, id, Failed(GONE)))
  }

  function SpawnAsync(s: State, kind: Kind, name: string, now: int): State {
    var id := s.nextId;
    Sent(Started(s.(tokens := s.tokens[id := false], asyncs := s.asyncs + {id}), kind, name, now), id)
  }

  function SpawnBlocking(s: State, kind: Kind, name: string, now: int): State {
    Sent(Started(s, kind, name, now), s.nextId)
  }

  /** `cancel`: true when the task had a token. */
  function Cancel(s: State, id: nat): (State, bool) {
    if id !in s.tokens then (s, false)
    else
      (s.(tokens := s.tokens[id := true],
          records := if RunningIn(s.records, id) then WithState(s.records, id, Cancelled) else s.records), true)
  }

  function Keyed(s: State, key: string, id: nat): State {
    s.(keys := s.keys[key := id], keyOf := s.keyOf[id := key])
  }

  function SpawnUnique(s: State, kind: Kind, key: string, name: string, now: int): State {
    var s' := if key in s.keys then Cancel(s, s.keys[key]).0 else s;
    Keyed(SpawnAsync(s', kind, name, now), key, s.nextId)
  }

  predicate KeyRunning(s: State, key: string) { key in s.keys && RunningIn(s.records, s.keys[key]) }

  /** `spawn_async_once`, with the id it returns. */
  function SpawnOnce(s: State, kind: Kind, key: string, name: string, now: int): (State, nat) {
    if KeyRunning(s, key) then (s, s.keys[key])
    else (Keyed(SpawnAsync(s, kind, name, now), key, s.nextId), s.nextId)
  }

  function WithoutId(keys: map<string, nat>, id: nat): map<string, nat> {
    map k | k in keys && keys[k] != id :: keys[k]
  }

  /** `spawn_progress_async_once`, with the id it returns and whether it is new. */
  function SpawnProgress(s: State, kind: Kind, key: string, name: string, now: int): (State, nat, bool) {
    if KeyRunning(s, key) then (s, s.keys[key], false)
    else
      var id := s.nextId;
      var spawned := Keyed(SpawnAsync(s, kind, name, now), key, id);
      (if s.phase == Active then spawned else spawned.(keys := WithoutId(spawned.keys, id)), id, true)
  }

  /** A key given before the send or after it. */
  lemma KeyedSent(s: State, key: string, id: nat)
    ensures Sent(Keyed(s, key, id), id) == Keyed(Sent(s, id), key, id)
  {
    hide WithState;
    if s.phase == Active {
    } else {
    }
  }

  /** A new async task with its token, before it is sent. */
  function Begun(s: State, kind: Kind, name: string, now: int): State {
    Started(s.(tokens := s.tokens[s.nextId := false], asyncs := s.asyncs + {s.nextId}), kind, name, now)
  }

  /** A progress submission in the order of the code: the stale key goes, record, key, send. */
  lemma ProgressInOrder(s: State, kind: Kind, key: string, name: string, now: int)
    requires !KeyRunning(s, key)
    ensures
      var id := s.nextId;
      var t := Keyed(Begun(s.(keys := s.keys - {key}), kind, name, now), key, id);
      SpawnProgress(s, kind, key, name, now)
      == (if s.phase == Active then Sent(t, id) else Sent(t, id).(keys := WithoutId(t.keys, id)), id, true)
  {
    hide WithoutId, Trim, WithState;
    var id := s.nextId;
    assert (s.keys - {key})[key := id] == s.keys[key := id];
    KeyedSent(Begun(s, kind, name, now), key, id);
  }

  // ---------------------------------------------------------------- the supervisor

  datatype Outcome = Done | Error(message: string) | Panicked | Aborted

  /** The next message becomes a task in flight. */
  function Receive(s: State): State
    requires s.queue != []
  {
    s.(queue := s.queue[1..], inFlight := s.inFlight + {s.queue[0]})
  }

  /** `handle_join`; a panicked or aborted task leaves record, token and key as they are. */
  function Join(s: State, id: nat, outcome: Outcome): State {
    var left := s.(inFlight := s.inFlight - {id});
    if outcome.Panicked? || outcome.Aborted? then left
    else
      left.(tokens := s.tokens - {id}, keys := WithoutId(s.keys, id),
            records := if id in s.records && s.records[id].state == Cancelled then s.records
                       else WithState(s.records, id, if outcome.Done? then Completed else Failed(outcome.message)))
  }

  function SetCancelled(records: Records, id: nat): Records {
    if RunningIn(records, id) then WithState(records, id, Cancelled) else records
  }

  /** `mark_cancelled`. */
  function MarkCancelled(s: State, id: nat): State {
    s.(tokens := s.tokens - {id}, keys := WithoutId(s.keys, id), records := SetCancelled(s.records, id))
  }

  function Shutdown(s: State): State { s.(phase := Closed) }

  function DropQueued(s: State): State
    requires s.queue != []
  {
    MarkCancelled(s.(queue := s.queue[1..]), s.queue[0])
  }

  /** The records, with some running ones cancelled. */
  function CancelledWhere(records: Records, ids: set<nat>): Records {
    map id | id in records :: if id in ids && records[id].state == Running then records[id].(state := Cancelled) else records[id]
  }

  function NonService(records: Records): set<nat> {
    set id | id in records && records[id].state == Running && records[id].kind != Service
  }

  /** Some running tasks cancelled, their tokens tripped. */
  function Tripped(s: State, ids: set<nat>): State {
    s.(records := CancelledWhere(s.records, ids), tokens := map id | id in s.tokens :: s.tokens[id] || id in ids)
  }

  /** `cancel_non_service`, at the start of the drain. */
  function StartDrain(s: State): State { Tripped(s, NonService(s.records)).(phase := Draining) }

  /** The deadline passed: everything still in flight is aborted. */
  function TimeOut(s: State): State { s.(aborted := true) }

  /** Some running tasks cancelled, their tokens and keys gone. */
  function Removed(s: State, ids: set<nat>): State {
    s.(records := CancelledWhere(s.records, ids), tokens := s.tokens - ids,
       keys := map k | k in s.keys && s.keys[k] !in ids :: s.keys[k])
  }

  /** `cancel_all_running`, the supervisor's last act. */
  function Exit(s: State): State { Removed(s, RunningIds(s.records)).(phase := Exited) }

  // What the loops of the two do, one task at a time.

  function TripOne(s: State, id: nat): State {
    s.(tokens := if id in s.tokens then s.tokens[id := true] else s.tokens, records := SetCancelled(s.records, id))
  }

  lemma NoneCancelled(records: Records)
    ensures CancelledWhere(records, {}) == records
  {
  }

  lemma OneMoreCancelled(records: Records, done: set<nat>, id: nat)
    requires id !in done && RunningIn(records, id)
    ensures SetCancelled(CancelledWhere(records, done), id) == CancelledWhere(records, done + {id})
  {
  }

  lemma OneMoreTripped(tokens: map<nat, bool>, done: set<nat>, id: nat)
    ensures var some := map x | x in tokens :: tokens[x] || x in done;
            (if id in some then some[id := true] else some) == map x | x in tokens :: tokens[x] || x in done + {id}
    ensures (map x | x in tokens :: tokens[x] || x in {}) == tokens
  {
  }

  lemma TrippedNext(s: State, done: set<nat>, id: nat)
    requires id !in done && RunningIn(s.records, id)
    ensures Tripped(s, {}) == s && TripOne(Tripped(s, done), id) == Tripped(s, done + {id})
  {
    hide CancelledWhere, SetCancelled;
    NoneCancelled(s.records);
    OneMoreCancelled(s.records, done, id);
    OneMoreTripped(s.tokens, done, id);
  }

  lemma OneMoreRemoved(tokens: map<nat, bool>, keys: map<string, nat>, done: set<nat>, id: nat)
    ensures tokens - {} == tokens && tokens - done - {id} == tokens - (done + {id})
    ensures WithoutId(map k | k in keys && keys[k] !in done :: keys[k], id)
         == map k | k in keys && keys[k] !in done + {id} :: keys[k]
    ensures (map k | k in keys && keys[k] !in {} :: keys[k]) == keys
  {
  }

  lemma RemovedNext(s: State, done: set<nat>, id: nat)
    requires id !in done && RunningIn(s.records, id)
    ensures Removed(s, {}) == s && MarkCancelled(Removed(s, done), id) == Removed(s, done + {id})
  {
    hide CancelledWhere, SetCancelled, WithoutId;
    NoneCancelled(s.records);
    OneMoreCancelled(s.records, done, id);
    OneMoreRemoved(s.tokens, s.keys, done, id);
  }

  // ---------------------------------------------------------------- steps

  datatype Step =
    | DoSpawnAsync(kind: Kind, name: string, now: int)
    | DoSpawnBlocking(kind: Kind, name: string, now: int)
    | DoSpawnUnique(kind: Kind, key: string, name: string, now: int)
    | DoSpawnOnce(kind: Kind, key: string, name: string, now: int)
    | DoSpawnProgress(kind: Kind, key: string, name: string, now: int)
    | DoCancel(id: nat)
    | DoReceive
    | DoJoin(id: nat, outcome: Outcome)
    | DoShutdown
    | DoDropQueued
    | DoStartDrain
    | DoTimeOut
    | DoExit

  /** Public calls can come at any time; the supervisor goes through its phases. */
  predicate Enabled(s: State, step: Step) {
    match step
    case DoReceive => s.phase == Active && s.queue != []
    case DoJoin(id, outcome) =>
      id in s.inFlight && (s.phase == Active || s.phase == Draining) && (outcome.Aborted? ==> s.aborted)
    case DoShutdown => s.phase == Active
    case DoDropQueued => s.phase == Closed && s.queue != []
    case DoStartDrain => s.phase == Closed && s.queue == []
    case DoTimeOut => s.phase == Draining
    case DoExit => s.phase == Draining && s.inFlight == {}
    case _ => true
  }

  function Next(s: State, step: Step): State
    requires Enabled(s, step)
  {
    match step
    case DoSpawnAsync(kind, name, now) => SpawnAsync(s, kind, name, now)
    case DoSpawnBlocking(kind, name, now) => SpawnBlocking(s, kind, name, now)
    case DoSpawnUnique(kind, key, name, now) => SpawnUnique(s, kind, key, name, now)
    case DoSpawnOnce(kind, key, name, now) => SpawnOnce(s, kind, key, name, now).0
    case DoSpawnProgress(kind, key, name, now) => SpawnProgress(s, kind, key, name, now).0
    case DoCancel(id) => Cancel(s, id).0
    case DoReceive => Receive(s)
    case DoJoin(id, outcome) => Join(s, id, outcome)
    case DoShutdown => Shutdown(s)
    case DoDropQueued => DropQueued(s)
    case DoStartDrain => StartDrain(s)
    case DoTimeOut => TimeOut(s)
    case DoExit => Exit(s)
  }

  // ---------------------------------------------------------------- what every step keeps

  predicate Terminal(r: Record) { r.state != Running }

  /** The supervisor's own data: known ids, queued and in flight at most once and not finished. */
  ghost predicate Pending(s: State) {
    && (forall id :: id in s.records ==> id < s.nextId)
    && (forall id :: id in s.tokens ==> id < s.nextId)
    && (forall id :: id in s.asyncs ==> id < s.nextId)
    && (forall id :: id in s.inFlight ==> id < s.nextId)
    && Queued(s)
  }

  ghost predicate Queued(s: State) {
    && (forall i :: 0 <= i < |s.queue| ==> s.queue[i] < s.nextId && s.queue[i] !in s.inFlight)
    && (forall i, j :: 0 <= i < j < |s.queue| ==> s.queue[i] != s.queue[j])
  }

  ghost predicate Unfinished(s: State, id: nat) {
    id in s.records ==> s.records[id].state == Running || s.records[id].state == Cancelled
  }

  ghost predicate PendingUnfinished(s: State) {
    && (forall id :: id in s.inFlight ==> Unfinished(s, id))
    && (forall i :: 0 <= i < |s.queue| ==> Unfinished(s, s.queue[i]))
  }

  /** Every running async task has a token, and every running task with a key is the key's task. */
  ghost predicate Reachable(s: State) { Cancellable(s) && KeyHolders(s) && KeyHistory(s) }

  ghost predicate Cancellable(s: State) {
    forall id :: RunningIn(s.records, id) && id in s.asyncs ==> id in s.tokens
  }

  ghost predicate KeyHolders(s: State) {
    forall id :: RunningIn(s.records, id) && id in s.keyOf ==> s.keyOf[id] in s.keys && s.keys[s.keyOf[id]] == id
  }

  ghost predicate KeyHistory(s: State) {
    && (forall id :: id in s.keyOf ==> id in s.asyncs)
    && (forall k :: k in s.keys ==> s.keys[k] < s.nextId && s.keys[k] in s.keyOf && s.keyOf[s.keys[k]] == k)
  }

  ghost predicate Phased(s: State) {
    && (s.phase == Draining || s.phase == Exited ==> s.queue == [])
    && (s.phase == Exited ==> s.inFlight == {} && RunningIds(s.records) == {})
    && s.nextId > 0
  }

  ghost predicate Inv(s: State) { Pending(s) && PendingUnfinished(s) && Reachable(s) && Phased(s) }

  /** Finished records do not change, dropped ones do not come back, and the end is the end. */
  ghost predicate Onward(s: State, t: State) {
    && s.nextId <= t.nextId
    && (forall id :: id in s.records && id in t.records && Terminal(s.records[id]) ==> t.records[id] == s.records[id])
    && (forall id :: id in t.records && id !in s.records ==> id >= s.nextId)
    && (s.phase == Exited ==> t.phase == Exited)
  }

  lemma StartInv()
    ensures Inv(START)
  {
  }

  /** A new task, before it is sent. */
  lemma StartedKeeps(s: State, kind: Kind, name: string, now: int)
    requires Inv(s)
    ensures var t := Started(s, kind, name, now);
            && t.records.Keys <= s.records.Keys + {s.nextId}
            && (forall id :: id in t.records && id != s.nextId ==> t.records[id] == s.records[id])
            && RunningIn(t.records, s.nextId)
            && (forall id :: RunningIn(t.records, id) <==> RunningIn(s.records, id) || id == s.nextId)
  {
    var more := s.records[s.nextId := Record(kind, name, now, Running)];
    TrimKeeps(more);
    assert s.nextId in RunningIds(more);
    forall id ensures RunningIn(Trim(more), id) <==> RunningIn(more, id) {
      assert id in RunningIds(Trim(more)) <==> id in RunningIds(more);
    }
  }

  /** What the state of a task just started has in common with the one before. */
  ghost predicate Grown(s: State, t: State) {
    var id := s.nextId;
    && t.nextId == id + 1 && t.queue == s.queue && t.inFlight == s.inFlight && t.phase == s.phase
    && t.keys == s.keys && t.keyOf == s.keyOf
    && ((t.tokens == s.tokens && t.asyncs == s.asyncs) || (t.tokens == s.tokens[id := false] && t.asyncs == s.asyncs + {id}))
    && t.records.Keys <= s.records.Keys + {id}
    && (forall x :: x in t.records && x != id ==> t.records[x] == s.records[x])
    && RunningIn(t.records, id)
    && (forall x :: RunningIn(t.records, x) <==> RunningIn(s.records, x) || x == id)
  }

  lemma SentPending(s: State, t: State)
    requires Inv(s) && Grown(s, t)
    ensures Pending(Sent(t, s.nextId))
  {
    hide PendingUnfinished, Reachable, Phased, RunningIn, Queued;
    SentQueued(s, t);
  }

  lemma SentQueued(s: State, t: State)
    requires Queued(s) && (forall id :: id in s.inFlight ==> id < s.nextId) && Grown(s, t)
    ensures Queued(Sent(t, s.nextId))
  {
    hide RunningIn, Queued, WithState;
    SentShape(s, t);
    if s.phase == Active {
      OneMoreQueued(s, Sent(t, s.nextId));
    } else {
      SameQueue(s, Sent(t, s.nextId));
    }
  }

  lemma SentShape(s: State, t: State)
    requires Grown(s, t)
    ensures var u := Sent(t, s.nextId);
            && u.nextId == s.nextId + 1 && u.inFlight == s.inFlight
            && u.queue == if s.phase == Active then s.queue + [s.nextId] else s.queue
  {
    hide RunningIn, WithState;
  }

  lemma OneMoreQueued(s: State, u: State)
    requires Queued(s) && (forall id :: id in s.inFlight ==> id < s.nextId)
    requires u.nextId == s.nextId + 1 && u.inFlight == s.inFlight && u.queue == s.queue + [s.nextId]
    ensures Queued(u)
  {
  }

  lemma SameQueue(s: State, u: State)
    requires Queued(s) && u.nextId >= s.nextId && u.inFlight == s.inFlight && u.queue == s.queue
    ensures Queued(u)
  {
  }

  lemma SentUnfinished(s: State, t: State)
    requires Inv(s) && Grown(s, t)
    ensures PendingUnfinished(Sent(t, s.nextId))
  {
    hide Reachable, Phased;
  }

  lemma SentPhased(s: State, t: State)
    requires Inv(s) && Grown(s, t)
    ensures Phased(Sent(t, s.nextId))
  {
    hide Pending, PendingUnfinished, Reachable;
    var u := Sent(t, s.nextId);
    forall x ensures s.phase != Active && RunningIn(u.records, x) ==> RunningIn(s.records, x) {
    }
    assert forall x :: x in RunningIds(s.records) <==> RunningIn(s.records, x);
  }

  lemma SentReachable(s: State, t: State)
    requires Inv(s) && Grown(s, t)
    ensures Reachable(Sent(t, s.nextId))
  {
    hide Cancellable, KeyHolders, KeyHistory, Grown, Sent, Pending, PendingUnfinished, Phased;
    SentCancellable(s, t);
    SentKeys(s, t);
  }

  lemma SentCancellable(s: State, t: State)
    requires Cancellable(s) && Pending(s) && Grown(s, t)
    ensures Cancellable(Sent(t, s.nextId))
  {
    var u := Sent(t, s.nextId);
    forall x ensures RunningIn(u.records, x) ==> RunningIn(t.records, x) && (x == s.nextId ==> t.phase == Active) {
    }
  }

  lemma SentKeys(s: State, t: State)
    requires KeyHolders(s) && KeyHistory(s) && Pending(s) && Grown(s, t)
    ensures KeyHolders(Sent(t, s.nextId)) && KeyHistory(Sent(t, s.nextId))
  {
    hide Queued;
    var u := Sent(t, s.nextId);
    forall x ensures RunningIn(u.records, x) ==> RunningIn(t.records, x) {
    }
  }

  lemma SentOnward(s: State, t: State)
    requires Inv(s) && Grown(s, t)
    ensures Onward(s, Sent(t, s.nextId))
  {
    hide PendingUnfinished, Reachable, Phased;
  }

  lemma SentKeeps(s: State, t: State)
    requires Inv(s) && Grown(s, t)
    ensures Inv(Sent(t, s.nextId)) && Onward(s, Sent(t, s.nextId))
  {
    hide Grown, Sent, Pending, PendingUnfinished, Reachable, Phased, Onward;
    SentPending(s, t);
    SentUnfinished(s, t);
    SentReachable(s, t);
    SentPhased(s, t);
    SentOnward(s, t);
  }

  lemma SpawnAsyncKeeps(s: State, kind: Kind, name: string, now: int)
    requires Inv(s)
    ensures Inv(SpawnAsync(s, kind, name, now)) && Onward(s, SpawnAsync(s, kind, name, now))
  {
    hide Trim;
    var s' := s.(tokens := s.tokens[s.nextId := false], asyncs := s.asyncs + {s.nextId});
    StartedKeeps(s, kind, name, now);
    assert Grown(s, Started(s', kind, name, now));
    SentKeeps(s, Started(s', kind, name, now));
  }

  lemma SpawnBlockingKeeps(s: State, kind: Kind, name: string, now: int)
    requires Inv(s)
    ensures Inv(SpawnBlocking(s, kind, name, now)) && Onward(s, SpawnBlocking(s, kind, name, now))
  {
    hide Trim;
    StartedKeeps(s, kind, name, now);
    assert Grown(s, Started(s, kind, name, now));
    SentKeeps(s, Started(s, kind, name, now));
  }

  lemma CancelKeeps(s: State, id: nat)
    requires Inv(s)
    ensures Inv(Cancel(s, id).0) && Onward(s, Cancel(s, id).0) && Cancel(s, id).0.nextId == s.nextId
  {
  }

  /** A key may be given to a new task when no running task has it. */
  lemma KeyedKeeps(t: State, key: string, id: nat)
    requires Inv(t) && id in t.asyncs && id !in t.keyOf
    requires forall x :: RunningIn(t.records, x) && x in t.keyOf ==> t.keyOf[x] != key
    ensures Inv(Keyed(t, key, id))
  {
  }

  /** What a spawn leaves of the tasks that were there. */
  lemma SpawnAsyncFrame(s: State, kind: Kind, name: string, now: int)
    requires Inv(s)
    ensures var t := SpawnAsync(s, kind, name, now);
            && t.keys == s.keys && t.keyOf == s.keyOf && t.nextId == s.nextId + 1 && t.asyncs == s.asyncs + {s.nextId}
            && (forall x :: RunningIn(t.records, x) ==> RunningIn(s.records, x) || x == s.nextId)
            && t.phase == s.phase && (s.phase == Active <==> RunningIn(t.records, s.nextId))
  {
    hide Trim;
    StartedKeeps(s, kind, name, now);
  }

  /** A key whose task is not running is no running task's key. */
  lemma FreeKey(s: State, key: string)
    requires Inv(s) && !KeyRunning(s, key)
    ensures forall x :: RunningIn(s.records, x) && x in s.keyOf ==> s.keyOf[x] != key
  {
  }

  lemma SpawnKeyedKeeps(s: State, kind: Kind, key: string, name: string, now: int)
    requires Inv(s) && !KeyRunning(s, key)
    ensures var t := Keyed(SpawnAsync(s, kind, name, now), key, s.nextId);
            Inv(t) && Onward(s, t)
  {
    hide SpawnAsync;
    SpawnAsyncKeeps(s, kind, name, now);
    SpawnAsyncFrame(s, kind, name, now);
    FreeKey(s, key);
    KeyedKeeps(SpawnAsync(s, kind, name, now), key, s.nextId);
  }

  lemma SpawnUniqueKeeps(s: State, kind: Kind, key: string, name: string, now: int)
    requires Inv(s)
    ensures Inv(SpawnUnique(s, kind, key, name, now)) && Onward(s, SpawnUnique(s, kind, key, name, now))
  {
    hide SpawnAsync;
    var s' := if key in s.keys then Cancel(s, s.keys[key]).0 else s;
    if key in s.keys { CancelKeeps(s, s.keys[key]); }
    SpawnKeyedKeeps(s', kind, key, name, now);
    OnwardTwice(s, s', SpawnUnique(s, kind, key, name, now));
  }

  lemma OnwardTwice(s: State, t: State, u: State)
    requires Pending(s) && Onward(s, t) && Onward(t, u)
    ensures Onward(s, u)
  {
  }

  lemma SpawnOnceKeeps(s: State, kind: Kind, key: string, name: string, now: int)
    requires Inv(s)
    ensures Inv(SpawnOnce(s, kind, key, name, now).0) && Onward(s, SpawnOnce(s, kind, key, name, now).0)
  {
    hide SpawnAsync;
    if !KeyRunning(s, key) { SpawnKeyedKeeps(s, kind, key, name, now); }
  }

  /** Dropping a task that is not running from the keys. */
  lemma WithoutIdKeeps(s: State, id: nat)
    requires Inv(s) && !RunningIn(s.records, id)
    ensures Inv(s.(keys := WithoutId(s.keys, id)))
  {
  }

  lemma SpawnProgressKeeps(s: State, kind: Kind, key: string, name: string, now: int)
    requires Inv(s)
    ensures Inv(SpawnProgress(s, kind, key, name, now).0) && Onward(s, SpawnProgress(s, kind, key, name, now).0)
  {
    hide SpawnAsync;
    if !KeyRunning(s, key) {
      SpawnKeyedKeeps(s, kind, key, name, now);
      SpawnAsyncFrame(s, kind, name, now);
      if s.phase != Active { WithoutIdKeeps(Keyed(SpawnAsync(s, kind, name, now), key, s.nextId), s.nextId); }
    }
  }

  lemma ReceiveKeeps(s: State)
    requires Inv(s) && Enabled(s, DoReceive)
    ensures Inv(Receive(s)) && Onward(s, Receive(s))
  {
    var t := Receive(s);
    assert s.queue[0] in t.inFlight;
    assert forall i :: 0 <= i < |t.queue| ==> t.queue[i] == s.queue[i + 1];
  }

  /** A task that is no longer pending, finished or gone. */
  lemma FinishKeeps(s: State, id: nat, state: TaskState, left: State)
    requires Pending(s) && PendingUnfinished(s) && Reachable(s) && Phased(s) && Unfinished(s, id)
    requires state != Running && id !in left.inFlight && (forall i :: 0 <= i < |left.queue| ==> left.queue[i] != id)
    requires left == s.(queue := left.queue, inFlight := left.inFlight)
    requires Queued(left) && left.inFlight <= s.inFlight
    requires forall i :: 0 <= i < |left.queue| ==> left.queue[i] in s.queue
    requires s.phase == Draining || s.phase == Exited ==> left.queue == []
    requires s.phase == Exited ==> left.inFlight == {}
    ensures var t := left.(tokens := s.tokens - {id}, keys := WithoutId(s.keys, id),
                           records := if RunningIn(s.records, id) then WithState(s.records, id, state) else s.records);
            Inv(t) && Onward(s, t)
  {
    var t := left.(tokens := s.tokens - {id}, keys := WithoutId(s.keys, id),
                   records := if RunningIn(s.records, id) then WithState(s.records, id, state) else s.records);
    forall i | 0 <= i < |t.queue| ensures Unfinished(t, t.queue[i]) {
      assert t.queue[i] in s.queue;
    }
    FinishReachable(s, id, state, t);
    assert forall x :: x in RunningIds(t.records) ==> x in RunningIds(s.records);
  }

  lemma FinishReachable(s: State, id: nat, state: TaskState, t: State)
    requires Reachable(s) && state != Running
    requires t.tokens == s.tokens - {id} && t.keys == WithoutId(s.keys, id) && t.keyOf == s.keyOf && t.asyncs == s.asyncs
    requires t.records == (if RunningIn(s.records, id) then WithState(s.records, id, state) else s.records)
    requires t.nextId == s.nextId
    ensures Reachable(t)
  {
    forall x ensures RunningIn(t.records, x) <==> RunningIn(s.records, x) && x != id {
    }
  }

  lemma JoinKeeps(s: State, id: nat, outcome: Outcome)
    requires Inv(s) && Enabled(s, DoJoin(id, outcome))
    ensures Inv(Join(s, id, outcome)) && Onward(s, Join(s, id, outcome))
  {
    var left := s.(inFlight := s.inFlight - {id});
    if outcome.Done? || outcome.Error? {
      FinishKeeps(s, id, if outcome.Done? then Completed else Failed(outcome.message), left);
    }
  }

  lemma DropQueuedKeeps(s: State)
    requires Inv(s) && Enabled(s, DoDropQueued)
    ensures Inv(DropQueued(s)) && Onward(s, DropQueued(s))
  {
    var left := s.(queue := s.queue[1..]);
    assert forall i :: 0 <= i < |left.queue| ==> left.queue[i] == s.queue[i + 1];
    FinishKeeps(s, s.queue[0], Cancelled, left);
  }

  /** Cancelling running tasks where they stand. */
  lemma CancelledWhereKeeps(s: State, ids: set<nat>, t: State)
    requires Inv(s) && ids <= RunningIds(s.records)
    requires t.records == CancelledWhere(s.records, ids) && t.nextId == s.nextId && t.asyncs == s.asyncs && t.keyOf == s.keyOf
    requires t.queue == s.queue && t.inFlight == s.inFlight
    requires t.tokens.Keys <= s.tokens.Keys && s.tokens.Keys - ids <= t.tokens.Keys
    requires forall k :: k in t.keys ==> k in s.keys && t.keys[k] == s.keys[k]
    requires forall k :: k in s.keys && s.keys[k] !in ids ==> k in t.keys
    ensures Pending(t) && PendingUnfinished(t) && Reachable(t)
    ensures RunningIds(t.records) == RunningIds(s.records) - ids
    ensures forall id :: id in t.records <==> id in s.records
    ensures forall id :: id in s.records && Terminal(s.records[id]) ==> t.records[id] == s.records[id]
  {
    forall x ensures RunningIn(t.records, x) <==> RunningIn(s.records, x) && x !in ids {
    }
  }

  lemma StartDrainKeeps(s: State)
    requires Inv(s) && Enabled(s, DoStartDrain)
    ensures Inv(StartDrain(s)) && Onward(s, StartDrain(s))
  {
    CancelledWhereKeeps(s, NonService(s.records), StartDrain(s));
  }

  lemma ExitKeeps(s: State)
    requires Inv(s) && Enabled(s, DoExit)
    ensures Inv(Exit(s)) && Onward(s, Exit(s))
  {
    CancelledWhereKeeps(s, RunningIds(s.records), Exit(s));
  }

  lemma StepKeeps(s: State, step: Step)
    requires Inv(s) && Enabled(s, step)
    ensures Inv(Next(s, step)) && Onward(s, Next(s, step))
  {
    hide Inv, Onward, SpawnAsync, SpawnBlocking, SpawnUnique, SpawnOnce, SpawnProgress, Receive, Join, DropQueued, StartDrain, Exit, Cancel;
    match step
    case DoSpawnAsync(kind, name, now) => SpawnAsyncKeeps(s, kind, name, now);
    case DoSpawnBlocking(kind, name, now) => SpawnBlockingKeeps(s, kind, name, now);
    case DoSpawnUnique(kind, key, name, now) => SpawnUniqueKeeps(s, kind, key, name, now);
    case DoSpawnOnce(kind, key, name, now) => SpawnOnceKeeps(s, kind, key, name, now);
    case DoSpawnProgress(kind, key, name, now) => SpawnProgressKeeps(s, kind, key, name, now);
    case DoCancel(id) => CancelKeeps(s, id);
    case DoReceive => ReceiveKeeps(s);
    case DoJoin(id, outcome) => JoinKeeps(s, id, outcome);
    case DoShutdown => PhaseKeeps(s);
    case DoDropQueued => DropQueuedKeeps(s);
    case DoStartDrain => StartDrainKeeps(s);
    case DoTimeOut => PhaseKeeps(s);
    case DoExit => ExitKeeps(s);
  }

  lemma PhaseKeeps(s: State)
    requires Inv(s)
    ensures s.phase == Active ==> Inv(Shutdown(s)) && Onward(s, Shutdown(s))
    ensures Inv(TimeOut(s)) && Onward(s, TimeOut(s))
  {
  }

  /** Dropping the whole queue, message by message. */
  function Dropped(s: State): State
    decreases |s.queue|
  {
    if s.queue == [] then s else Dropped(DropQueued(s))
  }

  lemma {:induction false} DroppedKeeps(s: State)
    requires Inv(s) && s.phase == Closed
    ensures Inv(Dropped(s)) && Onward(s, Dropped(s)) && Dropped(s).phase == Closed && Dropped(s).queue == []
    decreases |s.queue|
  {
    hide Inv, Onward;
    if s.queue == [] {
      OnwardSelf(s);
    } else {
      DropQueuedKeeps(s);
      DroppedKeeps(DropQueued(s));
      DroppedOnward(s);
    }
  }

  lemma OnwardSelf(s: State)
    ensures Onward(s, s)
  {
  }

  lemma DroppedOnward(s: State)
    requires Inv(s) && s.queue != [] && Onward(s, DropQueued(s)) && Onward(DropQueued(s), Dropped(s))
    ensures Onward(s, Dropped(s))
  {
    OnwardTwice(s, DropQueued(s), Dropped(s));
  }

  // ---------------------------------------------------------------- runs

  ghost predicate StepAt(states: seq<State>, steps: seq<Step>, i: nat)
    requires |states| == |steps| + 1 && i < |steps|
  {
    Enabled(states[i], steps[i]) && states[i + 1] == Next(states[i], steps[i])
  }

  ghost predicate Run(states: seq<State>, steps: seq<Step>) {
    && |states| == |steps| + 1 && states[0] == START
    && forall i {:trigger StepAt(states, steps, i)} :: 0 <= i < |steps| ==> StepAt(states, steps, i)
  }

  lemma {:induction false} RunInv(states: seq<State>, steps: seq<Step>, i: nat)
    requires Run(states, steps) && i <= |steps|
    ensures Inv(states[i])
  {
    if i == 0 {
      StartInv();
    } else {
      RunInv(states, steps, i - 1);
      assert StepAt(states, steps, i - 1);
      StepKeeps(states[i - 1], steps[i - 1]);
    }
  }

  lemma {:induction false} RunOnward(states: seq<State>, steps: seq<Step>, i: nat, j: nat)
    requires Run(states, steps) && i <= j <= |steps|
    ensures Onward(states[i], states[j])
    decreases j
  {
    if i < j {
      RunOnward(states, steps, i, j - 1);
      RunInv(states, steps, i);
      RunInv(states, steps, j - 1);
      assert StepAt(states, steps, j - 1);
      StepKeeps(states[j - 1], steps[j - 1]);
      OnwardTwice(states[i], states[j - 1], states[j]);
    }
  }

  /** In no run does a finished record change again, or a dropped one come back. */
  lemma FinishedForever(states: seq<State>, steps: seq<Step>, i: nat, j: nat, id: nat)
    requires Run(states, steps) && i <= j <= |steps|
    ensures id in states[i].records && Terminal(states[i].records[id]) && id in states[j].records ==>
              states[j].records[id] == states[i].records[id]
    ensures id < states[i].nextId && id !in states[i].records ==> id !in states[j].records
  {
    RunOnward(states, steps, i, j);
  }

  /** In every state of a run at most one running task has a given key, and it is the one the key maps to. */
  lemma OneRunningPerKey(states: seq<State>, steps: seq<Step>, i: nat, a: nat, b: nat)
    requires Run(states, steps) && i <= |steps|
    requires RunningIn(states[i].records, a) && RunningIn(states[i].records, b)
    requires a in states[i].keyOf && b in states[i].keyOf && states[i].keyOf[a] == states[i].keyOf[b]
    ensures a == b && states[i].keyOf[a] in states[i].keys && states[i].keys[states[i].keyOf[a]] == a
  {
    RunInv(states, steps, i);
  }

  /** Cancelling a running async task works in every state of a run: it has a token, which the call trips, and its
      record is finished by the call. */
  lemma RunningCanBeCancelled(states: seq<State>, steps: seq<Step>, i: nat, id: nat)
    requires Run(states, steps) && i <= |steps| && RunningIn(states[i].records, id) && id in states[i].asyncs
    ensures Cancel(states[i], id).1 && Cancel(states[i], id).0.records[id].state == Cancelled
    ensures id in Cancel(states[i], id).0.tokens && Cancel(states[i], id).0.tokens[id]
  {
    RunInv(states, steps, i);
  }

  /** Once the supervisor has exited no task is running, and none ever is again. */
  lemma NothingRunsAfterExit(states: seq<State>, steps: seq<Step>, i: nat, j: nat, id: nat)
    requires Run(states, steps) && i <= j <= |steps| && states[i].phase == Exited
    ensures !RunningIn(states[j].records, id)
  {
    RunOnward(states, steps, i, j);
    RunInv(states, steps, j);
    assert id !in RunningIds(states[j].records);
  }

  /** A submission that is to reuse a task returns the running one under the key, changing nothing, when
      there is one, and else a new task; what it returns is running unless the supervisor has closed the
      queue and nothing ran under the key. */
  lemma OnceReuses(s: State, kind: Kind, key: string, name: string, now: int)
    requires Inv(s)
    ensures var (t, id) := SpawnOnce(s, kind, key, name, now);
            && key in t.keys && t.keys[key] == id
            && (id < s.nextId <==> exists x :: RunningIn(s.records, x) && x in s.keyOf && s.keyOf[x] == key)
            && (id < s.nextId ==> t == s)
            && (RunningIn(t.records, id) <==> s.phase == Active || id < s.nextId)
  {
    hide SpawnAsync;
    if KeyRunning(s, key) {
      assert s.keyOf[s.keys[key]] == key;
    } else {
      SpawnAsyncFrame(s, kind, name, now);
      FreeKey(s, key);
    }
  }

  /** A unique submission leaves no other running task under its key; its own task runs exactly when the
      queue was open, although the key points to it in any case. */
  lemma UniqueReplaces(s: State, kind: Kind, key: string, name: string, now: int, x: nat)
    requires Inv(s)
    ensures var t := SpawnUnique(s, kind, key, name, now);
            && key in t.keys && t.keys[key] == s.nextId && (RunningIn(t.records, s.nextId) <==> s.phase == Active)
            && (RunningIn(t.records, x) && x in t.keyOf && t.keyOf[x] == key ==> x == s.nextId)
  {
    hide SpawnAsync;
    var s' := if key in s.keys then Cancel(s, s.keys[key]).0 else s;
    if key in s.keys { CancelKeeps(s, s.keys[key]); }
    SpawnAsyncFrame(s', kind, name, now);
    SpawnUniqueKeeps(s, kind, key, name, now);
  }
}
