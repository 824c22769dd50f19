/** How many records the task manager keeps. Records are trimmed when a task is submitted and at no other time:
    the number after a submission is known exactly, and finished records exceed the cap later on exactly when
    there were more records than the cap. */
module TaskBounds {
  import opened Common
  import opened Tasks
  import opened TaskHistory

  // ---------------------------------------------------------------- submissions

  /** The submission makes a new task; else a running one is reused. */
  predicate Starts(s: State, step: Step) {
    Submission(step) && !((step.DoSpawnOnce? || step.DoSpawnProgress?) && KeyRunning(s, step.key))
  }

  /** A unique submission cancels the key's task first. */
  function Base(s: State, step: Step): State {
    if step.DoSpawnUnique? && step.key in s.keys then Cancel(s, s.keys[step.key]).0 else s
  }

  function NewRecord(step: Step): Tasks.Record
    requires Submission(step)
  {
    Tasks.Record(step.kind, step.name, step.now, Running)
  }

  /** The records once the new one is in, trimmed; the new one fails if the queue is closed. */
  function WithNew(s: State, record: Tasks.Record): Records {
    var more := Trim(s.records[s.nextId := record]);
    if s.phase == Active then more else WithState(more, s.nextId, Failed(GONE))
  }

  lemma SpawnedRecords(s: State, kind: Kind, name: string, now: int)
    ensures SpawnAsync(s, kind, name, now).records == WithNew(s, Tasks.Record(kind, name, now, Running))
    ensures SpawnBlocking(s, kind, name, now).records == WithNew(s, Tasks.Record(kind, name, now, Running))
  {
    hide Trim, WithState;
  }

  lemma StartedRecords(s: State, step: Step)
    requires Starts(s, step) && Enabled(s, step)
    ensures Next(s, step).records == WithNew(Base(s, step), NewRecord(step))
  {
    hide WithNew, SpawnAsync, SpawnBlocking;
    SpawnedRecords(Base(s, step), step.kind, step.name, step.now);
  }

  function Max(a: nat, b: nat): nat { if a < b then b else a }

  /** Trimming leaves as many records as there were, the cap, or the running tasks, whichever is to be. */
  lemma TrimSize(records: Records)
    ensures |Trim(records)| == if |records| <= TRIM_ABOVE then |records| else Max(TRIM_ABOVE, |RunningIds(records)|)
  {
    if |records| > TRIM_ABOVE {
      hide Smallest;
      var finished := FinishedIds(records);
      SmallestAre(finished, |records| - TRIM_ABOVE);
      CountRecords(records);
      CountWithout(records, Smallest(finished, |records| - TRIM_ABOVE));
    }
  }

  lemma OneMore(records: Records, id: nat, record: Tasks.Record)
    requires id !in records && record.state == Running
    ensures RunningIds(records[id := record]) == RunningIds(records) + {id}
    ensures |RunningIds(records[id := record])| == |RunningIds(records)| + 1
    ensures |records[id := record]| == |records| + 1
  {
    assert records[id := record].Keys == records.Keys + {id};
    assert RunningIds(records[id := record]) == RunningIds(records) + {id};
  }

  lemma OneFails(records: Records, id: nat)
    requires RunningIn(records, id)
    ensures var r := WithState(records, id, Failed(GONE));
            r.Keys == records.Keys && |r| == |records| && |RunningIds(r)| + 1 == |RunningIds(records)|
  {
    var r := WithState(records, id, Failed(GONE));
    assert r.Keys == records.Keys;
    assert RunningIds(records) == RunningIds(r) + {id};
  }

  lemma SizeWithNew(s: State, record: Tasks.Record)
    requires s.nextId !in s.records && record.state == Running
    ensures
      var r := WithNew(s, record);
      |r| == Max(if |s.records| < TRIM_ABOVE then |s.records| + 1 else TRIM_ABOVE,
                 |RunningIds(r)| + if s.phase == Active then 0 else 1)
  {
    hide Trim, WithState, RunningIds;
    var more := s.records[s.nextId := record];
    OneMore(s.records, s.nextId, record);
    TrimKeeps(more);
    TrimSize(more);
    CountRecords(s.records);
    StillRuns(more, s.nextId);
    OneFails(Trim(more), s.nextId);
  }

  /** After every submission of a new task, by any of the five calls, the records number one more than before
      or the cap, or exactly the tasks now running if those are more; a task that failed because the queue was
      closed counts besides the running ones. */
  lemma RecordsAfterSubmission(s: State, step: Step)
    requires Inv(s) && Enabled(s, step) && Submission(step)
    ensures
      var t := Next(s, step);
      var running := |RunningIds(t.records)| + if s.phase == Active then 0 else 1;
      && (Starts(s, step) ==> |t.records| == Max(if |s.records| < 512 then |s.records| + 1 else 512, running))
      && (!Starts(s, step) ==> t == s)
  {
    if Starts(s, step) {
      hide WithNew, RunningIds, Next, Inv;
      BaseKeeps(s, step);
      StartedRecords(s, step);
      SizeWithNew(Base(s, step), NewRecord(step));
    }
  }

  lemma BaseKeeps(s: State, step: Step)
    requires Inv(s)
    ensures Base(s, step).nextId == s.nextId && s.nextId !in Base(s, step).records
    ensures Base(s, step).phase == s.phase && Base(s, step).records.Keys == s.records.Keys && |Base(s, step).records| == |s.records|
  {
    var b := Base(s, step);
    assert b.records.Keys == s.records.Keys;
    assert |b.records| == |b.records.Keys| && |s.records| == |s.records.Keys|;
  }

  lemma StillRuns(records: Records, id: nat)
    requires RunningIn(records, id)
    ensures RunningIn(Trim(records), id)
  {
    TrimKeeps(records);
    assert id in RunningIds(records);
    assert id in RunningIds(Trim(records));
  }

  // ---------------------------------------------------------------- runs

  lemma SameIds(a: Records, b: Records)
    requires a.Keys == b.Keys
    ensures |a| == |b|
  {
    assert |a| == |a.Keys| && |b| == |b.Keys|;
  }

  lemma OneStateIds(records: Records, id: nat, state: TaskState)
    ensures WithState(records, id, state).Keys == records.Keys && SetCancelled(records, id).Keys == records.Keys
  {
  }

  lemma ManyStateIds(records: Records, ids: set<nat>)
    ensures CancelledWhere(records, ids).Keys == records.Keys
  {
  }

  /** A step that starts no task keeps the ids of the records. */
  lemma RecordIdsStay(s: State, step: Step)
    requires Enabled(s, step) && !Starts(s, step)
    ensures Next(s, step).records.Keys == s.records.Keys && |Next(s, step).records| == |s.records|
  {
    hide WithState, SetCancelled, CancelledWhere, WithoutId, SpawnAsync, SpawnBlocking, SpawnUnique;
    match step {
      case DoCancel(id) => OneStateIds(s.records, id, Cancelled);
      case DoJoin(id, outcome) =>
        OneStateIds(s.records, id, if outcome.Error? then Failed(outcome.message) else Completed);
      case DoDropQueued => OneStateIds(s.records, s.queue[0], Cancelled);
      case DoStartDrain => ManyStateIds(s.records, NonService(s.records));
      case DoExit => ManyStateIds(s.records, RunningIds(s.records));
      case _ =>
    }
    SameIds(Next(s, step).records, s.records);
  }

  /** In every state of every run the records number at most the cap, or they are those left by the last
      submission, when as many tasks were running, the one a closed queue failed counted in. */
  lemma {:induction false} RecordsBounded(states: seq<State>, steps: seq<Step>, i: nat)
    requires Run(states, steps) && i <= |steps|
    ensures |states[i].records| > 512 ==>
      exists j :: 0 <= j < i && Starts(states[j], steps[j]) && states[i].records.Keys == states[j + 1].records.Keys
        && |states[i].records| == |RunningIds(states[j + 1].records)| + if states[j].phase == Active then 0 else 1
  {
    hide Next, Starts, RunningIds;
    if i > 0 {
      var j := i - 1;
      RecordsBounded(states, steps, j);
      RunInv(states, steps, j);
      assert StepAt(states, steps, j);
      if Starts(states[j], steps[j]) {
        StartsSubmits(states[j], steps[j]);
        RecordsAfterSubmission(states[j], steps[j]);
      } else {
        RecordIdsStay(states[j], steps[j]);
      }
    }
  }

  lemma StartsSubmits(s: State, step: Step)
    requires Starts(s, step)
    ensures Submission(step)
  {
  }

  // ---------------------------------------------------------------- what can follow

  predicate Quiet(steps: seq<Step>) { forall i :: 0 <= i < |steps| ==> !Submission(steps[i]) }

  /** Where the steps lead, if each can be taken. */
  function Follow(s: State, steps: seq<Step>): Option<State>
    decreases |steps|
  {
    if steps == [] then Some(s)
    else if Enabled(s, steps[0]) then Follow(Next(s, steps[0]), steps[1..])
    else None
  }

  /** `t` can follow `s` without another submission. */
  ghost predicate Leads(s: State, t: State) { exists steps :: Quiet(steps) && Follow(s, steps) == Some(t) }

  lemma LeadsSelf(s: State)
    ensures Leads(s, s)
  {
    assert Quiet([]) && Follow(s, []) == Some(s);
  }

  lemma LeadsStep(s: State, step: Step, t: State)
    requires Enabled(s, step) && !Submission(step) && Leads(Next(s, step), t)
    ensures Leads(s, t)
  {
    hide Next;
    var rest :| Quiet(rest) && Follow(Next(s, step), rest) == Some(t);
    var steps := [step] + rest;
    assert steps[1..] == rest;
    assert Quiet(steps) && Follow(s, steps) == Some(t);
  }

  lemma {:induction false} LeadsKeepsIds(s: State, steps: seq<Step>)
    requires Quiet(steps) && Follow(s, steps).Some?
    ensures Follow(s, steps).value.records.Keys == s.records.Keys
    decreases |steps|
  {
    hide Next;
    if steps != [] {
      assert !Submission(steps[0]);
      RecordIdsStay(s, steps[0]);
      LeadsKeepsIds(Next(s, steps[0]), steps[1..]);
    }
  }

  /** How far the supervisor is from its end. */
  function Rank(s: State): nat {
    match s.phase
    case Active => 4
    case Closed => 3
    case Draining => if s.aborted then 1 else 2
    case Exited => 0
  }

  /** From every state of a run the supervisor can get to its end without another submission. */
  lemma {:induction false} CanExit(s: State) returns (t: State)
    requires Inv(s)
    ensures Leads(s, t) && t.phase == Exited && Inv(t)
    decreases Rank(s), |s.queue| + |s.inFlight|
  {
    if s.phase == Exited {
      LeadsSelf(s);
      t := s;
    } else {
      hide Inv;
      var step := Onwards(s);
      StepKeeps(s, step);
      t := CanExit(Next(s, step));
      LeadsStep(s, step, t);
    }
  }

  /** A step of the supervisor that brings it nearer its end. */
  lemma Onwards(s: State) returns (step: Step)
    requires Inv(s) && s.phase != Exited
    ensures Enabled(s, step) && !Submission(step)
    ensures var t := Next(s, step);
            Rank(t) < Rank(s) || (Rank(t) == Rank(s) && |t.queue| + |t.inFlight| < |s.queue| + |s.inFlight|)
  {
    match s.phase
    case Active => step := DoShutdown;
    case Closed => step := if s.queue == [] then DoStartDrain else DoDropQueued;
    case Draining =>
      if s.inFlight == {} {
        step := DoExit;
      } else if !s.aborted {
        step := DoTimeOut;
      } else {
        var id := Least(s.inFlight);
        step := DoJoin(id, Aborted);
      }
  }

  /** Without another submission at most the cap's number of finished records can come about, if and only if
      there are at most that many records now, running or not. */
  lemma CapExactly(s: State)
    requires Inv(s)
    ensures |s.records| <= 512 <==> forall t :: Leads(s, t) ==> |FinishedIds(t.records)| <= 512
  {
    forall t | Leads(s, t) ensures |FinishedIds(t.records)| <= |s.records| {
      var steps :| Quiet(steps) && Follow(s, steps) == Some(t);
      LeadsKeepsIds(s, steps);
      CountRecords(t.records);
      assert |t.records| == |t.records.Keys| && |s.records| == |s.records.Keys|;
    }
    var t := CanExit(s);
    var steps :| Quiet(steps) && Follow(s, steps) == Some(t);
    LeadsKeepsIds(s, steps);
    CountRecords(t.records);
    assert RunningIds(t.records) == {};
    assert |t.records| == |t.records.Keys| && |s.records| == |s.records.Keys|;
  }

  // ---------------------------------------------------------------- reached states

  ghost predicate Reached(s: State) {
    exists states, steps :: Run(states, steps) && states[|steps|] == s
  }

  lemma StartReached()
    ensures Reached(START)
  {
    var none: seq<Step> := [];
    assert Run([START], none) && [START][|none|] == START;
  }

  lemma StepReached(s: State, step: Step)
    requires Reached(s) && Enabled(s, step)
    ensures Reached(Next(s, step))
  {
    hide Next, Enabled;
    var states, steps :| Run(states, steps) && states[|steps|] == s;
    var more, taken := states + [Next(s, step)], steps + [step];
    forall i | 0 <= i < |taken| ensures StepAt(more, taken, i) {
      if i < |steps| { assert StepAt(states, steps, i); }
    }
    assert Run(more, taken) && more[|taken|] == Next(s, step);
  }

  lemma ReachedInv(s: State)
    requires Reached(s)
    ensures Inv(s)
  {
    var states, steps :| Run(states, steps) && states[|steps|] == s;
    RunInv(states, steps, |steps|);
  }

  lemma {:induction false} FollowReached(s: State, steps: seq<Step>)
    requires Reached(s) && Follow(s, steps).Some?
    ensures Reached(Follow(s, steps).value)
    decreases |steps|
  {
    hide Reached, Next;
    if steps != [] {
      StepReached(s, steps[0]);
      FollowReached(Next(s, steps[0]), steps[1..]);
    }
  }

  /** A manager with `n` running tasks and no finished one. */
  lemma {:induction false} AllRunning(n: nat) returns (s: State)
    ensures Reached(s) && s.phase == Active && |s.records| == n && RunningIds(s.records) == s.records.Keys
  {
    hide Reached;
    if n == 0 {
      StartReached();
      s := START;
      assert RunningIds(s.records) == s.records.Keys;
    } else {
      var before := AllRunning(n - 1);
      var step := DoSpawnAsync(Generic, "", 0);
      ReachedInv(before);
      StepReached(before, step);
      s := Next(before, step);
      OneMoreRuns(before, step);
    }
  }

  lemma OneMoreRuns(s: State, step: Step)
    requires Inv(s) && s.phase == Active && step.DoSpawnAsync? && RunningIds(s.records) == s.records.Keys
    ensures var t := Next(s, step);
            t.phase == Active && |t.records| == |s.records| + 1 && RunningIds(t.records) == t.records.Keys
  {
    hide Trim, Inv, RunningIds;
    BaseKeeps(s, step);
    StartedRecords(s, step);
    AllStillRun(s.records, s.nextId, NewRecord(step));
  }

  lemma AllStillRun(records: Records, id: nat, record: Tasks.Record)
    requires RunningIds(records) == records.Keys && id !in records && record.state == Running
    ensures var r := Trim(records[id := record]); |r| == |records| + 1 && RunningIds(r) == r.Keys
  {
    hide Trim;
    var more := records[id := record];
    OneMore(records, id, record);
    assert more.Keys == records.Keys + {id};
    TrimKeeps(more);
    var r := Trim(more);
    assert r.Keys == more.Keys;
    SameIds(r, more);
  }

  /** Finished records are not bounded by the cap: a run reaches any number of them above it. */
  lemma CapExceeded(n: nat) returns (s: State)
    requires n > 512
    ensures Reached(s) && |FinishedIds(s.records)| == n
  {
    var full := AllRunning(n);
    ReachedInv(full);
    s := CanExit(full);
    var steps :| Quiet(steps) && Follow(full, steps) == Some(s);
    LeadsKeepsIds(full, steps);
    FollowReached(full, steps);
    CountRecords(s.records);
    assert RunningIds(s.records) == {};
    assert |s.records| == |s.records.Keys| && |full.records| == |full.records.Keys|;
  }
}
