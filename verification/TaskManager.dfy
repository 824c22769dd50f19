/** The task manager as the code has it: an object whose maps the calls and the supervisor change in
    place. Every method does what the function of the same name in `Tasks` says. */
module TaskManagerObject {
  import opened Common
  import opened Tasks

  class TaskManager {
    var nextId: nat
    var records: Records
    var tokens: map<nat, bool>
    var keys: map<string, nat>
    var queue: seq<nat>
    var inFlight: set<nat>
    var phase: Phase
    var aborted: bool
    ghost var keyOf: map<nat, string>
    ghost var asyncs: set<nat>

    ghost function Snap(): State
      reads this
    {
      State(nextId, records, tokens, keys, queue, inFlight, phase, aborted, keyOf, asyncs)
    }

    ghost predicate Valid()
      reads this
    {
      Inv(Snap())
    }

    constructor ()
      ensures Snap() == START && Valid()
    {
      nextId, records, tokens, keys, queue, inFlight := 1, map[], map[], map[], [], {};
      phase, aborted, keyOf, asyncs := Active, false, map[], {};
      StartInv();
    }

    /** `trim_finished`: sorted by id, the first of the finished tasks are removed. */
    method TrimFinished()
      modifies this`records
      ensures records == Trim(old(records))
    {
      hide Smallest, Trim;
      TrimShape(records);
      if |records| <= TRIM_ABOVE { return; }
      var finished := FinishedIds(records);
      var toDrop: nat := |records| - TRIM_ABOVE;
      ghost var dropped: set<nat> := {};
      ghost var all := Smallest(finished, toDrop);
      Minus(records, {}, 0);
      while toDrop > 0 && finished != {}
        invariant records == old(records) - dropped
        invariant all == dropped + Smallest(finished, toDrop)
      {
        var id := Least(finished);
        SmallestNext(finished, toDrop, dropped);
        Minus(old(records), dropped, id);
        finished, toDrop := finished - {id}, toDrop - 1;
        records := records - {id};
        dropped := dropped + {id};
      }
      assert all == dropped;
    }

    static lemma TrimShape(records: Records)
      ensures Trim(records) == if |records| <= TRIM_ABOVE then records
                               else records - Smallest(FinishedIds(records), |records| - TRIM_ABOVE)
      ensures forall s, n: nat :: n == 0 || s == {} ==> Smallest(s, n) == {}
    {
    }

    static lemma Minus(records: Records, dropped: set<nat>, id: nat)
      ensures records - {} == records
      ensures records - dropped - {id} == records - (dropped + {id})
    {
    }

    method RecordStarted(id: nat, kind: Kind, name: string, now: int)
      modifies this`records
      ensures records == Trim(old(records)[id := Record(kind, name, now, Running)])
    {
      records := records[id := Record(kind, name, now, Running)];
      TrimFinished();
    }

    /** `finalize`. */
    method Finalize(id: nat, state: TaskState)
      modifies this`records
      ensures records == WithState(old(records), id, state)
    {
      if id in records { records := records[id := records[id].(state := state)]; }
    }

    /** The send on the queue; it fails once the supervisor has closed it. */
    method Send(id: nat) returns (ok: bool)
      modifies this`queue
      ensures ok == (phase == Active)
      ensures queue == if ok then old(queue) + [id] else old(queue)
    {
      ok := phase == Active;
      if ok { queue := queue + [id]; }
    }

    /** Id, token and record of a new async task. */
    method Begin(kind: Kind, name: string, now: int) returns (id: nat)
      modifies this
      ensures id == old(nextId) && Snap() == Begun(old(Snap()), kind, name, now)
    {
      hide Trim;
      id, nextId := nextId, nextId + 1;
      asyncs := asyncs + {id};
      tokens := tokens[id := false];
      RecordStarted(id, kind, name, now);
    }

    method SpawnAsync(kind: Kind, name: string, now: int) returns (id: nat)
      requires Valid()
      modifies this
      ensures Valid() && Onward(old(Snap()), Snap())
      ensures id == old(nextId) && Snap() == Tasks.SpawnAsync(old(Snap()), kind, name, now)
    {
      hide Inv, Onward, Trim, WithState;
      SpawnAsyncKeeps(Snap(), kind, name, now);
      id := Begin(kind, name, now);
      var ok := Send(id);
      if !ok {
        tokens := tokens - {id};
        Finalize(id, Failed(GONE));
      }
    }

    lemma FreshId()
      requires Valid()
      ensures nextId !in tokens
    {
    }

    method SpawnBlocking(kind: Kind, name: string, now: int) returns (id: nat)
      requires Valid()
      modifies this
      ensures Valid() && Onward(old(Snap()), Snap())
      ensures id == old(nextId) && Snap() == Tasks.SpawnBlocking(old(Snap()), kind, name, now)
    {
      hide Inv, Onward, Trim, WithState;
      SpawnBlockingKeeps(Snap(), kind, name, now);
      FreshId();
      id, nextId := nextId, nextId + 1;
      RecordStarted(id, kind, name, now);
      var ok := Send(id);
      if !ok {
        assert tokens == tokens - {id};
        Finalize(id, Failed(GONE));
      }
    }

    method Cancel(id: nat) returns (ok: bool)
      requires Valid()
      modifies this`tokens, this`records
      ensures Valid() && Onward(old(Snap()), Snap())
      ensures (Snap(), ok) == Tasks.Cancel(old(Snap()), id)
    {
      hide Inv, Onward;
      CancelKeeps(Snap(), id);
      if id !in tokens { return false; }
      tokens := tokens[id := true];
      if id in records && records[id].state == Running {
        records := records[id := records[id].(state := Cancelled)];
      }
      ok := true;
    }

    method SpawnAsyncUnique(kind: Kind, key: string, name: string, now: int) returns (id: nat)
      requires Valid()
      modifies this
      ensures Valid() && Onward(old(Snap()), Snap())
      ensures id == old(nextId) && Snap() == SpawnUnique(old(Snap()), kind, key, name, now)
    {
      hide Inv, Onward, Tasks.SpawnAsync;
      SpawnUniqueKeeps(Snap(), kind, key, name, now);
      if key in keys { var _ := Cancel(keys[key]); }
      id := SpawnAsync(kind, name, now);
      keys, keyOf := keys[key := id], keyOf[id := key];
    }

    method SpawnAsyncOnce(kind: Kind, key: string, name: string, now: int) returns (id: nat)
      requires Valid()
      modifies this
      ensures Valid() && Onward(old(Snap()), Snap())
      ensures (Snap(), id) == SpawnOnce(old(Snap()), kind, key, name, now)
    {
      hide Inv, Onward, Tasks.SpawnAsync;
      SpawnOnceKeeps(Snap(), kind, key, name, now);
      if key in keys {
        var known := keys[key];
        if known in records && records[known].state == Running { return known; }
      }
      id := SpawnAsync(kind, name, now);
      keys, keyOf := keys[key := id], keyOf[id := key];
    }

    /** `running_unique_task_id`: forgets a key whose task is not running. */
    method RunningUnique(key: string) returns (id: Option<nat>)
      modifies this`keys
      ensures if KeyRunning(old(Snap()), key) then id == Some(old(keys)[key]) && keys == old(keys)
              else id == None && keys == old(keys) - {key}
    {
      if key !in keys {
        assert keys == keys - {key};
        return None;
      }
      var known := keys[key];
      if known in records && records[known].state == Running { return Some(known); }
      keys := keys - {key};
      id := None;
    }

    /** Removes every key of a task. */
    method Forget(id: nat)
      modifies this`keys
      ensures keys == WithoutId(old(keys), id)
    {
      keys := map k | k in keys && keys[k] != id :: keys[k];
    }

    method SpawnProgressOnce(kind: Kind, key: string, name: string, now: int) returns (id: nat, spawned: bool)
      requires Valid()
      modifies this
      ensures Valid() && Onward(old(Snap()), Snap())
      ensures (Snap(), id, spawned) == SpawnProgress(old(Snap()), kind, key, name, now)
    {
      hide Inv, Onward, Trim, WithState, WithoutId, Sent;
      SpawnProgressKeeps(Snap(), kind, key, name, now);
      var known := RunningUnique(key);
      if known.Some? { return known.value, false; }
      spawned := true;
      ProgressInOrder(old(Snap()), kind, key, name, now);
      id := StartProgress(kind, key, name, now);
    }

    /** A progress task once its key is free: token, record, key, send. */
    method StartProgress(kind: Kind, key: string, name: string, now: int) returns (id: nat)
      modifies this
      ensures id == old(nextId)
      ensures
        var t := Keyed(Begun(old(Snap()), kind, name, now), key, id);
        Snap() == if t.phase == Active then Sent(t, id) else Sent(t, id).(keys := WithoutId(t.keys, id))
    {
      hide Sent, WithoutId, Begun;
      id := Begin(kind, name, now);
      keys, keyOf := keys[key := id], keyOf[id := key];
      Deliver(id);
    }

    /** The send of a progress task, and what is undone when it fails. */
    method Deliver(id: nat)
      modifies this`queue, this`tokens, this`keys, this`records
      ensures
        var s := old(Snap());
        Snap() == if s.phase == Active then Sent(s, id) else Sent(s, id).(keys := WithoutId(s.keys, id))
    {
      hide WithState, WithoutId;
      var ok := Send(id);
      if !ok {
        tokens := tokens - {id};
        Forget(id);
        Finalize(id, Failed(GONE));
      }
    }

    // -------------------------------------------------------------- the supervisor's turns

    method Receive()
      requires Valid() && Enabled(Snap(), DoReceive)
      modifies this
      ensures Valid() && Onward(old(Snap()), Snap())
      ensures Snap() == Tasks.Receive(old(Snap()))
    {
      hide Inv, Onward;
      ReceiveKeeps(Snap());
      inFlight := inFlight + {queue[0]};
      queue := queue[1..];
    }

    /** `handle_join`, after the join set has let the task go. */
    method Join(id: nat, outcome: Outcome)
      requires Valid() && Enabled(Snap(), DoJoin(id, outcome))
      modifies this
      ensures Valid() && Onward(old(Snap()), Snap())
      ensures Snap() == Tasks.Join(old(Snap()), id, outcome)
    {
      hide Inv, Onward, WithState;
      JoinKeeps(Snap(), id, outcome);
      inFlight := inFlight - {id};
      if outcome.Panicked? || outcome.Aborted? { return; }
      var observed := if outcome.Done? then Completed else Failed(outcome.message);
      tokens := tokens - {id};
      Forget(id);
      if id in records && records[id].state == Cancelled { return; }
      Finalize(id, observed);
    }

    method MarkCancelled(id: nat)
      modifies this
      ensures Snap() == Tasks.MarkCancelled(old(Snap()), id)
    {
      tokens := tokens - {id};
      Forget(id);
      if id in records && records[id].state == Running { Finalize(id, Cancelled); }
    }

    /** Closes the queue and cancels what is left in it. */
    method CloseAndDrop()
      requires Valid() && Enabled(Snap(), DoShutdown)
      modifies this
      ensures Valid() && Onward(old(Snap()), Snap())
      ensures phase == Closed && queue == [] && Snap() == Dropped(Tasks.Shutdown(old(Snap())))
    {
      hide Inv, Onward;
      PhaseKeeps(Snap());
      DroppedKeeps(Tasks.Shutdown(Snap()));
      DroppedOnward(Snap());
      phase := Closed;
      while queue != []
        invariant phase == Closed && Dropped(Snap()) == Dropped(Tasks.Shutdown(old(Snap())))
        decreases |queue|
      {
        var id := queue[0];
        queue := queue[1..];
        MarkCancelled(id);
      }
    }

    static lemma DroppedOnward(s: State)
      requires Inv(s) && s.phase == Active
      ensures Onward(s, Dropped(Tasks.Shutdown(s)))
    {
      PhaseKeeps(s);
      DroppedKeeps(Tasks.Shutdown(s));
      OnwardTwice(s, Tasks.Shutdown(s), Dropped(Tasks.Shutdown(s)));
    }

    method TripOne(id: nat)
      modifies this`tokens, this`records
      ensures Snap() == Tasks.TripOne(old(Snap()), id)
    {
      if id in tokens { tokens := tokens[id := true]; }
      if id in records && records[id].state == Running { Finalize(id, Cancelled); }
    }

    /** `cancel_non_service`: collects the ids, then goes through them. */
    method StartDrain()
      requires Valid() && Enabled(Snap(), DoStartDrain)
      modifies this
      ensures Valid() && Onward(old(Snap()), Snap())
      ensures Snap() == Tasks.StartDrain(old(Snap()))
    {
      hide Inv, Onward, Tripped, Tasks.TripOne, NonService, RunningIn;
      StartDrainKeeps(Snap());
      var ids := NonService(records);
      ghost var done: set<nat> := {};
      NothingTripped(Snap());
      ghost var all := ids;
      ghost var before := Snap();
      while ids != {}
        invariant done + ids == all && done !! ids
        invariant Snap() == Tripped(before, done)
        decreases |ids|
      {
        var id := Least(ids);
        Runs(before.records, id);
        TrippedNext(before, done, id);
        ids := ids - {id};
        TripOne(id);
        done := done + {id};
      }
      phase := Draining;
      assert done == all;
    }

    static lemma Runs(records: Records, id: nat)
      ensures id in NonService(records) ==> RunningIn(records, id)
      ensures id in RunningIds(records) ==> RunningIn(records, id)
    {
    }

    static lemma NothingTripped(s: State)
      ensures Tripped(s, {}) == s && Removed(s, {}) == s
    {
      NoneCancelled(s.records);
      OneMoreTripped(s.tokens, {}, 0);
      OneMoreRemoved(s.tokens, s.keys, {}, 0);
    }

    /** `cancel_all_running`. */
    method Exit()
      requires Valid() && Enabled(Snap(), DoExit)
      modifies this
      ensures Valid() && Onward(old(Snap()), Snap())
      ensures Snap() == Tasks.Exit(old(Snap()))
    {
      hide Inv, Onward, Removed, Tasks.MarkCancelled, RunningIds, RunningIn;
      ExitKeeps(Snap());
      var ids := RunningIds(records);
      ghost var done: set<nat> := {};
      NothingTripped(Snap());
      ghost var all := ids;
      ghost var before := Snap();
      while ids != {}
        invariant done + ids == all && done !! ids
        invariant Snap() == Removed(before, done)
        decreases |ids|
      {
        var id := Least(ids);
        Runs(before.records, id);
        RemovedNext(before, done, id);
        ids := ids - {id};
        MarkCancelled(id);
        done := done + {id};
      }
      phase := Exited;
      assert done == all;
    }
  }
}
