/** What becomes of each task: every step of every run, record by record. */
module TaskFate {
  import opened Tasks
  import opened TaskHistory
  import opened TaskBounds

  /** What a step makes of a running task, if it ends it. */
  datatype End = Goes(state: TaskState) | Stays

  function EndOf(s: State, step: Step, id: nat): End {
    if !RunningIn(s.records, id) then Stays
    else if step == DoJoin(id, Done) then Goes(Completed)
    else if step.DoJoin? && step.id == id && step.outcome.Error? then Goes(Failed(step.outcome.message))
    else if Cancels(s, step, id) || step.DoExit? then Goes(Cancelled)
    else if step.DoDropQueued? && s.queue != [] && s.queue[0] == id then Goes(Cancelled)
    else Stays
  }

  /** A record that is there before and after a step. */
  ghost predicate Follows(s: State, step: Step, t: State, id: nat) {
    id in s.records && id in t.records ==>
      t.records[id] == match EndOf(s, step, id)
        case Goes(state) => s.records[id].(state := state)
        case Stays => s.records[id]
  }

  /** A record that is new. */
  ghost predicate Appears(s: State, step: Step, t: State, id: nat) {
    id !in s.records && id in t.records ==>
      && id == s.nextId && Starts(s, step)
      && t.records[id] == NewRecord(step).(state := if s.phase == Active then Running else Failed(GONE))
  }

  lemma NewAt(s: State, record: Tasks.Record, id: nat)
    requires Inv(s) && record.state == Running
    ensures
      var r := WithNew(s, record);
      && (id in s.records && id in r ==> r[id] == s.records[id])
      && (id !in s.records && id in r ==>
            id == s.nextId && r[id] == record.(state := if s.phase == Active then Running else Failed(GONE)))
  {
    hide Trim;
    TrimKeeps(s.records[s.nextId := record]);
  }

  lemma SubmissionFollows(s: State, step: Step, id: nat)
    requires Inv(s) && Enabled(s, step) && Submission(step)
    ensures Follows(s, step, Next(s, step), id) && Appears(s, step, Next(s, step), id)
  {
    hide WithNew, Inv, SpawnAsync, SpawnBlocking, SpawnUnique, Cancel, Cancels;
    OnlyUniqueEnds(s, step);
    if Starts(s, step) {
      StartedRecords(s, step);
      BaseFollows(s, step, id);
      NewAt(Base(s, step), NewRecord(step), id);
    }
  }

  lemma OnlyUniqueEnds(s: State, step: Step)
    requires Enabled(s, step) && Submission(step)
    ensures !step.DoSpawnUnique? ==> Base(s, step) == s && forall id :: EndOf(s, step, id).Stays?
    ensures !Starts(s, step) ==> !step.DoSpawnUnique? && Next(s, step) == s
  {
  }

  lemma BaseFollows(s: State, step: Step, id: nat)
    requires Inv(s) && Enabled(s, step) && Submission(step)
    ensures Inv(Base(s, step)) && Follows(s, step, Base(s, step), id) && Base(s, step).records.Keys == s.records.Keys
    ensures Base(s, step).nextId == s.nextId && Base(s, step).phase == s.phase
  {
    hide Inv;
    if step.DoSpawnUnique? && step.key in s.keys {
      CancelKeeps(s, s.keys[step.key]);
      if RunningIn(s.records, s.keys[step.key]) { KeyHasToken(s, step.key); }
    }
  }

  lemma KeyHasToken(s: State, key: string)
    requires Inv(s) && key in s.keys && RunningIn(s.records, s.keys[key])
    ensures s.keys[key] in s.tokens
  {
  }

  lemma SupervisorFollows(s: State, step: Step, id: nat)
    requires Inv(s) && Enabled(s, step) && !Submission(step)
    ensures Follows(s, step, Next(s, step), id) && Next(s, step).records.Keys == s.records.Keys
  {
    hide WithoutId, SpawnAsync, SpawnBlocking, SpawnUnique, SpawnOnce, SpawnProgress;
    JoinsUnfinished(s, step);
  }

  /** What is joined or dropped has not finished of itself. */
  lemma JoinsUnfinished(s: State, step: Step)
    requires Inv(s) && Enabled(s, step)
    ensures step.DoJoin? ==> Unfinished(s, step.id)
    ensures step.DoDropQueued? ==> Unfinished(s, s.queue[0])
  {
  }

  /** In every step of every run a record changes exactly as `EndOf` says: a running task is completed or failed
      by its join, cancelled by a cancel, a unique submission over its key, the drain, the closing of the queue or
      the exit, and by nothing else; a finished one does not change. A new record is running, or failed if the
      queue was closed. */
  lemma RecordFate(states: seq<State>, steps: seq<Step>, i: nat, id: nat)
    requires Run(states, steps) && i < |steps|
    ensures Follows(states[i], steps[i], states[i + 1], id) && Appears(states[i], steps[i], states[i + 1], id)
  {
    hide Next, Follows, Inv;
    RunInv(states, steps, i);
    assert StepAt(states, steps, i);
    if Submission(steps[i]) {
      SubmissionFollows(states[i], steps[i], id);
    } else {
      SupervisorFollows(states[i], steps[i], id);
    }
  }

  // ---------------------------------------------------------------- the queue

  /** Ids in the queue increase: it holds the tasks in the order of their submission. */
  ghost predicate InOrder(s: State) { forall i, j :: 0 <= i < j < |s.queue| ==> s.queue[i] < s.queue[j] }

  lemma QueueMoves(s: State, step: Step)
    requires Inv(s) && Enabled(s, step)
    ensures
      var t := Next(s, step);
      || t.queue == s.queue
      || (Submission(step) && t.queue == s.queue + [s.nextId])
      || ((step.DoReceive? || step.DoDropQueued?) && s.queue != [] && t.queue == s.queue[1..])
    ensures step.DoReceive? ==>
              s.queue != [] && Next(s, step).queue == s.queue[1..] && Next(s, step).inFlight == s.inFlight + {s.queue[0]}
  {
    hide Inv, Trim, WithState, WithoutId, CancelledWhere, SetCancelled;
  }

  lemma {:induction false} RunInOrder(states: seq<State>, steps: seq<Step>, i: nat)
    requires Run(states, steps) && i <= |steps|
    ensures InOrder(states[i])
  {
    hide Next, Enabled;
    if i > 0 {
      RunInOrder(states, steps, i - 1);
      RunInv(states, steps, i - 1);
      assert StepAt(states, steps, i - 1);
      QueueMoves(states[i - 1], steps[i - 1]);
      KnownQueued(states[i - 1]);
    }
  }

  lemma KnownQueued(s: State)
    requires Inv(s)
    ensures forall i :: 0 <= i < |s.queue| ==> s.queue[i] < s.nextId
  {
  }

  /** In every run the supervisor takes up tasks in the order of their submission: the one it takes is older than
      all that stay in the queue, and a new one is younger than all that are there. */
  lemma FirstComeFirstServed(states: seq<State>, steps: seq<Step>, i: nat)
    requires Run(states, steps) && i < |steps|
    ensures
      var s, t := states[i], states[i + 1];
      && (steps[i].DoReceive? ==>
            exists id :: id in s.queue && t.inFlight == s.inFlight + {id} && id !in t.queue
              && (forall x :: x in s.queue ==> id <= x) && (forall x :: x in s.queue ==> x == id || x in t.queue))
      && (forall x :: x in t.queue && x !in s.queue ==> x == s.nextId && forall y :: y in s.queue ==> y < x)
  {
    hide Next, Enabled;
    var s, t := states[i], states[i + 1];
    RunInOrder(states, steps, i);
    RunInv(states, steps, i);
    assert StepAt(states, steps, i);
    QueueMoves(s, steps[i]);
    KnownQueued(s);
    if steps[i].DoReceive? {
      var id := s.queue[0];
      assert id in s.queue && s.queue == [id] + t.queue;
    }
  }

  // ---------------------------------------------------------------- progress submissions

  /** A progress submission returns the running task of its key and changes nothing if there is one; else it says
      that it started a new task, which runs, with the key on it, exactly when the queue is open, and which has failed
      and left no key when it is closed. */
  lemma ProgressAnswers(s: State, kind: Kind, key: string, name: string, now: int)
    requires Inv(s)
    ensures
      var (t, id, spawned) := SpawnProgress(s, kind, key, name, now);
      && (spawned <==> !exists x :: RunningIn(s.records, x) && x in s.keyOf && s.keyOf[x] == key)
      && (!spawned ==> t == s && RunningIn(s.records, id) && id in s.keyOf && s.keyOf[id] == key)
      && (spawned ==>
            && id == s.nextId && (RunningIn(t.records, id) <==> s.phase == Active)
            && (Maps(t, key, id) <==> s.phase == Active) && (s.phase != Active ==> key !in t.keys))
  {
    hide SpawnAsync;
    if KeyRunning(s, key) {
      KeyedByHistory(s, key);
    } else {
      SpawnAsyncFrame(s, kind, name, now);
      FreeKey(s, key);
    }
  }

  lemma KeyedByHistory(s: State, key: string)
    requires Inv(s) && key in s.keys
    ensures s.keys[key] in s.keyOf && s.keyOf[s.keys[key]] == key
  {
  }
}
