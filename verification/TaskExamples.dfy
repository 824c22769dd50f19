/** States that runs of the task manager do reach, where a token or a key outlives its task. */
module TaskExamples {
  import opened Tasks
  import opened TaskHistory
  import opened TaskBounds

  /** One task under a key, taken up by the supervisor. */
  lemma OneInFlight(kind: Kind) returns (s: State)
    ensures Reached(s) && s == State(2, map[1 := Record(kind, "t", 0, Running)], map[1 := false], map["k" := 1], [], {1},
                                     Active, false, map[1 := "k"], {1})
  {
    hide Reached;
    StartReached();
    var spawn := DoSpawnUnique(kind, "k", "t", 0);
    StepReached(START, spawn);
    StepReached(Next(START, spawn), DoReceive);
    s := Receive(Next(START, spawn));
  }

  /** A cancelled task that has not been joined yet: its token and its key are still there. */
  lemma CancelLeavesBoth() returns (s: State)
    ensures Reached(s) && s.phase == Active
    ensures 1 in s.records && s.records[1].state == Cancelled && 1 in s.tokens && Maps(s, "k", 1)
  {
    hide Reached;
    var before := OneInFlight(Generic);
    StepReached(before, DoCancel(1));
    s := Next(before, DoCancel(1));
  }

  /** From the supervisor's loop to the deadline. */
  lemma ToDeadline(s: State) returns (t: State)
    requires Reached(s) && s.phase == Active && s.queue == []
    ensures Reached(t) && t == TimeOut(StartDrain(Shutdown(s)))
  {
    hide Reached;
    StepReached(s, DoShutdown);
    StepReached(Shutdown(s), DoStartDrain);
    StepReached(StartDrain(Shutdown(s)), DoTimeOut);
    t := TimeOut(StartDrain(Shutdown(s)));
  }

  /** A task cancelled by the drain and aborted at the deadline: token and key are there after the exit. */
  lemma AbortLeavesBoth() returns (s: State)
    ensures Reached(s) && s.phase == Exited
    ensures 1 in s.records && s.records[1].state == Cancelled && 1 in s.tokens && Maps(s, "k", 1)
  {
    hide Reached;
    var before := OneInFlight(Generic);
    var late := ToDeadline(before);
    StepReached(late, DoJoin(1, Aborted));
    var joined := Join(late, 1, Aborted);
    StepReached(joined, DoExit);
    s := Exit(joined);
  }

  /** A service, which the drain spares, and which panicked counts as running and keeps token and key until the
      supervisor exits, which takes both. */
  lemma PanicLeavesBothUntilExit() returns (s: State, t: State)
    ensures Reached(s) && s.inFlight == {} && s.queue == [] && RunningIn(s.records, 1) && 1 in s.tokens && Maps(s, "k", 1)
    ensures Reached(t) && t.phase == Exited && t.records.Keys == s.records.Keys && 1 !in t.tokens && "k" !in t.keys
  {
    hide Reached;
    var before := OneInFlight(Service);
    StepReached(before, DoJoin(1, Panicked));
    s := Join(before, 1, Panicked);
    var late := ToDeadline(s);
    StepReached(late, DoExit);
    t := Exit(late);
  }

  /** A keyed task submitted to a closed queue: failed at once, the key on it for as long as no other
      submission takes the key. */
  lemma LateKeepsKey() returns (s: State)
    ensures Reached(s) && 1 in s.records && s.records[1].state == Failed(GONE) && 1 !in s.tokens && Maps(s, "k", 1)
  {
    hide Reached;
    StartReached();
    StepReached(START, DoShutdown);
    var spawn := DoSpawnUnique(Generic, "k", "t", 0);
    StepReached(Shutdown(START), spawn);
    s := Next(Shutdown(START), spawn);
  }
}
