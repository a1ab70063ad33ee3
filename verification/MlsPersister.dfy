/**
 The debounced persister: a background task that writes the MLS state some time after the last `schedule`.

 The MLS state in memory, its exports and the stored copy are represented by version numbers; `scheduled` is the version
 that was current at the last call of `Schedule`. The task advances in atomic steps (`Poll`), between which any other
 call may happen; its notifications follow `tokio::sync::Notify`: a waiting task is woken, otherwise one permit is kept.
 Storage succeeds, and `Flush` is one step.
*/
module MlsPersister {

  /** Where the task is. `Await...(woken)` is a wait that a notification may already have ended. */
  datatype Stage =
    | CheckRunning
    | First
    | AwaitFirst(woken: bool)
    | Debounce
    | AwaitMore(woken: bool)
    | Export
    | Store(snapshot: nat)
    | Done

  datatype State = State(memory: nat, scheduled: nat, disk: nat, permit: bool, running: bool, stage: Stage)

  datatype Event = Mutate | Schedule | Flush | Stop | Poll | Timeout

  function Woken(stage: Stage): Stage {
    match stage
    case AwaitFirst(_) => AwaitFirst(true)
    case AwaitMore(_) => AwaitMore(true)
    case _ => stage
  }

  predicate Waiting(stage: Stage) {
    stage == AwaitFirst(false) || stage == AwaitMore(false)
  }

  function Polled(s: State): State {
    match s.stage
    case CheckRunning => s.(stage := if s.running then First else Done)
    case First => if s.permit then s.(permit := false, stage := Debounce) else s.(stage := AwaitFirst(false))
    case AwaitFirst(woken) => if woken then s.(stage := Debounce) else s
    case Debounce => if s.permit then s.(permit := false) else s.(stage := AwaitMore(false))
    case AwaitMore(woken) => if woken then s.(stage := Debounce) else s
    case Export => s.(stage := Store(s.memory))
    case Store(snapshot) => s.(disk := snapshot, stage := CheckRunning)
    case Done => s
  }

  function Next(s: State, e: Event): State {
    match e
    case Mutate => s.(memory := s.memory + 1)
    case Schedule =>
      var t := s.(scheduled := s.memory);
      if Waiting(s.stage) then t.(stage := Woken(s.stage)) else t.(permit := true)
    case Flush => s.(disk := s.memory)
    case Stop => s.(running := false, stage := if Waiting(s.stage) then Woken(s.stage) else s.stage)
    case Poll => Polled(s)
    case Timeout => if s.stage == AwaitMore(false) then s.(stage := Export) else s
  }

  const INITIAL := State(0, 0, 0, false, true, CheckRunning)

  class Persister {
    var memory: nat
    ghost var scheduled: nat
    var disk: nat
    var permit: bool
    var running: bool
    var stage: Stage

    ghost function Value(): State
      reads this
    {
      State(memory, scheduled, disk, permit, running, stage)
    }

    constructor ()
      ensures Value() == INITIAL
    {
      memory, scheduled, disk, permit, running, stage := 0, 0, 0, false, true, CheckRunning;
    }

    /** Any MLS operation. */
    method Mutate()
      modifies this
      ensures Value() == Next(old(Value()), Event.Mutate)
    {
      memory := memory + 1;
    }

    method Schedule()
      modifies this
      ensures Value() == Next(old(Value()), Event.Schedule)
    {
      scheduled := memory;
      if Waiting(stage) {
        stage := Woken(stage);
      } else {
        permit := true;
      }
    }

    method Flush()
      modifies this
      ensures Value() == Next(old(Value()), Event.Flush)
    {
      disk := memory;
    }

    /** Wakes the task if it waits; unlike `Schedule` it stores no permit. */
    method Stop()
      modifies this
      ensures Value() == Next(old(Value()), Event.Stop)
    {
      running := false;
      if Waiting(stage) {
        stage := Woken(stage);
      }
    }

    /** The next atomic step of the task. */
    method Poll()
      modifies this
      ensures Value() == Next(old(Value()), Event.Poll)
    {
      match stage
      case CheckRunning =>
        stage := if running then First else Done;
      case First =>
        if permit {
          permit, stage := false, Debounce;
        } else {
          stage := AwaitFirst(false);
        }
      case AwaitFirst(woken) =>
        if woken {
          stage := Debounce;
        }
      case Debounce =>
        if permit {
          permit := false;
        } else {
          stage := AwaitMore(false);
        }
      case AwaitMore(woken) =>
        if woken {
          stage := Debounce;
        }
      case Export =>
        stage := Store(memory);
      case Store(snapshot) =>
        disk, stage := snapshot, CheckRunning;
      case Done =>
    }

    /** The debounce timer runs out before another notification. */
    method Timeout()
      modifies this
      ensures Value() == Next(old(Value()), Event.Timeout)
    {
      if stage == AwaitMore(false) {
        stage := Export;
      }
    }
  }

  // ---- Runs ----

  function Run(s: State, es: seq<Event>): State {
    if es == [] then s else Next(Run(s, es[..|es| - 1]), es[|es| - 1])
  }

  /** The task is bound to export the state before it next rests. */
  predicate Debouncing(stage: Stage) {
    stage == AwaitFirst(true) || stage.Debounce? || stage.AwaitMore? || stage.Export?
  }

  /** Nothing scheduled is lost: it is on disk, or a permit is kept, or the task will export it or already has. */
  predicate Covered(s: State) {
    || s.disk >= s.scheduled
    || s.permit
    || Debouncing(s.stage)
    || (s.stage.Store? && s.stage.snapshot >= s.scheduled)
  }

  /** The same, with what makes it inductive: a waiting task has no permit to miss, and a write cannot undo a flush. */
  predicate Inv(s: State) {
    && s.scheduled <= s.memory && s.disk <= s.memory
    && (Waiting(s.stage) ==> !s.permit)
    && (s.stage.Store? ==> s.stage.snapshot <= s.memory && (s.permit || s.stage.snapshot >= s.scheduled))
    && (s.stage.CheckRunning? || s.stage.First? || s.stage == AwaitFirst(false) ==> s.permit || s.disk >= s.scheduled)
  }

  lemma {:induction false} InvAlways(es: seq<Event>)
    requires Stop !in es
    ensures Inv(Run(INITIAL, es)) && Run(INITIAL, es).running && !Run(INITIAL, es).stage.Done?
  {
    if es != [] {
      InvAlways(es[..|es| - 1]);
    }
  }

  /** In every run before `stop` nothing scheduled is lost; in particular an idle task has written all of it. */
  lemma NoLostPersist(es: seq<Event>)
    requires Stop !in es
    ensures Covered(Run(INITIAL, es))
    ensures Run(INITIAL, es).stage == AwaitFirst(false) ==> Run(INITIAL, es).disk >= Run(INITIAL, es).scheduled
  {
    InvAlways(es);
  }

  /** The two moments at which `stop` drops what a permit stands for: during a write, and before the loop test. */
  predicate DropsPermit(s: State) {
    || (s.stage.CheckRunning? && s.disk < s.scheduled)
    || (s.stage.Store? && s.stage.snapshot < s.scheduled)
  }

  /** Where a stopped task can be, seen from a version `v` that was scheduled before the stop and is to be written. */
  predicate WillWrite(s: State, v: nat) {
    && !s.running && s.memory >= v
    && (Waiting(s.stage) ==> !s.permit)
    && match s.stage
       case First => s.permit || s.disk >= v
       case AwaitFirst(woken) => woken || s.disk >= v
       case Store(snapshot) => snapshot >= v
       case CheckRunning => s.disk >= v
       case Done => s.disk >= v
       case _ => true
  }

  predicate WillDrop(s: State, v: nat) {
    !s.running && match s.stage
    case Store(snapshot) => snapshot < v
    case CheckRunning => s.disk < v
    case Done => s.disk < v
    case _ => false
  }

  lemma {:induction false} WritesAfterStop(s: State, es: seq<Event>, v: nat)
    requires WillWrite(s, v)
    ensures WillWrite(Run(s, es), v)
  {
    if es != [] {
      WritesAfterStop(s, es[..|es| - 1], v);
    }
  }

  /** A flush of `es` comes when the task does not hold a snapshot older than `v`, which would be written over it. */
  predicate FlushedInTime(s: State, es: seq<Event>, v: nat) {
    exists i :: 0 <= i < |es| && es[i] == Flush && !HoldsOlder(Run(s, es[..i]), v)
  }

  predicate HoldsOlder(s: State, v: nat) {
    s.stage.Store? && s.stage.snapshot < v
  }

  predicate Written(s: State, v: nat) {
    !s.running && s.disk >= v && (s.stage.CheckRunning? || s.stage.Done?) && s.memory >= v
  }

  lemma FlushedInTimeStep(s: State, es: seq<Event>, v: nat)
    requires es != []
    ensures var init, last := es[..|es| - 1], es[|es| - 1];
      FlushedInTime(s, es, v) <==> FlushedInTime(s, init, v) || (last == Flush && !HoldsOlder(Run(s, init), v))
  {
    var init := es[..|es| - 1];
    assert forall i :: 0 <= i < |init| ==> init[i] == es[i] && init[..i] == es[..i];
    if FlushedInTime(s, init, v) {
      var i :| 0 <= i < |init| && init[i] == Flush && !HoldsOlder(Run(s, init[..i]), v);
      assert es[i] == Flush && !HoldsOlder(Run(s, es[..i]), v);
    }
  }

  /** What a stop has dropped reaches the disk by such a flush only, and then it stays there. */
  lemma {:induction false} DroppedUnlessFlushed(s: State, es: seq<Event>, v: nat)
    requires WillDrop(s, v) && s.memory >= v
    ensures var t := Run(s, es); t.memory >= v && if FlushedInTime(s, es, v) then Written(t, v) else WillDrop(t, v)
  {
    if es != [] {
      DroppedUnlessFlushed(s, es[..|es| - 1], v);
      FlushedInTimeStep(s, es, v);
    }
  }

  /**
   When the task has ended after a `stop`, whatever was scheduled before the stop is on disk if and only if the stop did
   not fall into one of the two moments, or a later flush came when no older snapshot was about to be written.
  */
  lemma StopKeepsIff(before: seq<Event>, after: seq<Event>)
    requires Stop !in before && Run(Next(Run(INITIAL, before), Stop), after).stage.Done?
    ensures var s := Run(INITIAL, before);
      Run(Next(s, Stop), after).disk >= s.scheduled <==>
        !DropsPermit(s) || FlushedInTime(Next(s, Stop), after, s.scheduled)
  {
    InvAlways(before);
    var s := Run(INITIAL, before);
    if DropsPermit(s) {
      DroppedUnlessFlushed(Next(s, Stop), after, s.scheduled);
    } else {
      WritesAfterStop(Next(s, Stop), after, s.scheduled);
    }
  }

  lemma RunStep(s: State, es: seq<Event>, k: nat)
    requires k < |es|
    ensures Run(s, es[..k + 1]) == Next(Run(s, es[..k]), es[k])
  {
    assert es[..k + 1][..k] == es[..k];
  }

  // Steps of the task alone, with its timer running out: enough to finish any debounce cycle.
  const COMPLETION: seq<Event> := [Poll, Poll, Poll, Poll, Timeout, Poll, Poll, Poll]

  /** A debounce cycle in progress when `stop` arrives completes and ends the task, with the current state on disk. */
  lemma DebounceInProgressWrites(before: seq<Event>)
    requires Stop !in before && Debouncing(Run(INITIAL, before).stage)
    ensures var s := Run(INITIAL, before);
      var end := Run(Next(s, Stop), COMPLETION);
      end.stage.Done? && end.disk == s.memory
  {
    InvAlways(before);
    CompletionEnds(Next(Run(INITIAL, before), Stop), COMPLETION);
  }

  /** The task waits for its timer to run out, or has ended with everything written. */
  predicate AtTimer(s: State, memory: nat) {
    !s.running && s.memory == memory && (s.stage == AwaitMore(false) || (s.stage.Done? && s.disk == memory))
  }

  predicate IsCompletion(es: seq<Event>) {
    |es| == 8 && es[0] == es[1] == es[2] == es[3] == Poll && es[4] == Timeout && es[5] == es[6] == es[7] == Poll
  }

  lemma CompletionEnds(s: State, es: seq<Event>)
    requires IsCompletion(es) && !s.running && Debouncing(s.stage) && s.stage != AwaitMore(false)
    ensures Run(s, es).stage.Done? && Run(s, es).disk == s.memory
  {
    ReachesTimer(s, es);
    TimerRunsOut(Run(s, es[..4]), s.memory);
    LastFour(s, es);
  }

  lemma ReachesTimer(s: State, es: seq<Event>)
    requires IsCompletion(es) && !s.running && Debouncing(s.stage) && s.stage != AwaitMore(false)
    ensures AtTimer(Run(s, es[..4]), s.memory)
  {
    RunStep(s, es, 0);
    RunStep(s, es, 1);
    RunStep(s, es, 2);
    RunStep(s, es, 3);
  }

  lemma TimerRunsOut(t: State, memory: nat)
    requires AtTimer(t, memory)
    ensures var end := Polled(Polled(Polled(Next(t, Timeout)))); end.stage.Done? && end.disk == memory
  {
  }

  lemma LastFour(s: State, es: seq<Event>)
    requires IsCompletion(es)
    ensures Run(s, es) == Polled(Polled(Polled(Next(Run(s, es[..4]), Timeout))))
  {
    RunStep(s, es, 4);
    RunStep(s, es, 5);
    RunStep(s, es, 6);
    RunStep(s, es, 7);
    assert es[..8] == es;
  }

  // ---- Whether a stopped task ends ----

  /** No further notification: neither `schedule` nor `stop` is called again. */
  predicate Quiet(es: seq<Event>) {
    Schedule !in es && Stop !in es
  }

  /** The task has passed the loop test, and nothing is left to wake it. */
  predicate Stuck(s: State) {
    !s.running && !s.permit && (s.stage.First? || s.stage == AwaitFirst(false))
  }

  lemma {:induction false} StaysStuck(s: State, es: seq<Event>)
    requires Stuck(s) && Quiet(es)
    ensures Stuck(Run(s, es))
  {
    if es != [] {
      StaysStuck(s, es[..|es| - 1]);
    }
  }

  lemma {:induction false} RunFrom(s: State, e: Event, es: seq<Event>)
    ensures Run(s, [e] + es) == Run(Next(s, e), es)
  {
    var all := [e] + es;
    if es == [] {
      assert all[..|all| - 1] == [] && all[|all| - 1] == e;
    } else {
      assert all[..|all| - 1] == [e] + es[..|es| - 1] && all[|all| - 1] == es[|es| - 1];
      RunFrom(s, e, es[..|es| - 1]);
    }
  }

  /** Left alone, the task of any other stopped state has an end. */
  lemma FindEnding(s: State) returns (es: seq<Event>)
    requires !s.running && !Waiting(s.stage) && !Stuck(s)
    ensures Quiet(es) && Run(s, es).stage.Done?
  {
    match s.stage
    case Done => es := [];
    case CheckRunning => es := [Poll] + [];
      RunFrom(s, Poll, []);
    case Store(_) => es := [Poll] + ([Poll] + []);
      RunFrom(s, Poll, [Poll] + []);
      RunFrom(Next(s, Poll), Poll, []);
    case First => es := [Poll] + COMPLETION;
      RunFrom(s, Poll, COMPLETION);
      CompletionEnds(Next(s, Poll), COMPLETION);
    case _ => es := COMPLETION;
      CompletionEnds(s, COMPLETION);
  }

  /**
   After a `stop` the task can end, without being notified again, if and only if the stop did not fall between the loop
   test and the wait with no permit kept; there the task waits for ever, with all that was scheduled on disk.
  */
  lemma StoppedTaskEndsIff(before: seq<Event>)
    requires Stop !in before
    ensures var s := Run(INITIAL, before);
      && ((exists after :: Quiet(after) && Run(Next(s, Stop), after).stage.Done?) <==> !(s.stage.First? && !s.permit))
      && (s.stage.First? && !s.permit ==>
           s.disk >= s.scheduled && forall after :: Quiet(after) ==> Stuck(Run(Next(s, Stop), after)))
  {
    InvAlways(before);
    var s := Run(INITIAL, before);
    if s.stage.First? && !s.permit {
      forall after | Quiet(after) ensures Stuck(Run(Next(s, Stop), after)) {
        StaysStuck(Next(s, Stop), after);
      }
    } else {
      var after := FindEnding(Next(s, Stop));
    }
  }

  // A write is in progress when a newer version is scheduled.
  const DURING_WRITE: seq<Event> := [Poll, Poll, Mutate, Schedule, Poll, Poll, Timeout, Poll, Mutate, Schedule]

  lemma WriteBegins()
    ensures Run(INITIAL, DURING_WRITE[..5]) == State(1, 1, 0, false, true, Debounce)
  {
    assert DURING_WRITE[..0] == [];
    RunStep(INITIAL, DURING_WRITE, 0);
    RunStep(INITIAL, DURING_WRITE, 1);
    RunStep(INITIAL, DURING_WRITE, 2);
    RunStep(INITIAL, DURING_WRITE, 3);
    RunStep(INITIAL, DURING_WRITE, 4);
  }

  lemma DuringWrite()
    ensures Run(INITIAL, DURING_WRITE) == State(2, 2, 0, true, true, Store(1))
  {
    WriteBegins();
    RunStep(INITIAL, DURING_WRITE, 5);
    RunStep(INITIAL, DURING_WRITE, 6);
    RunStep(INITIAL, DURING_WRITE, 7);
    RunStep(INITIAL, DURING_WRITE, 8);
    RunStep(INITIAL, DURING_WRITE, 9);
    assert DURING_WRITE[..10] == DURING_WRITE;
  }

  // The task ends; a flush comes while the old snapshot is still being written.
  const FLUSHED_EARLY: seq<Event> := [Flush, Poll, Poll]

  /** If `stop` arrives then, the newer version is not kept, even by a flush: the write in progress goes over it. */
  lemma StopDuringWriteLosesSchedule()
    ensures Run(INITIAL, DURING_WRITE).scheduled == 2
    ensures var end := Run(Next(Run(INITIAL, DURING_WRITE), Stop), FLUSHED_EARLY);
      end.stage.Done? && end.disk == 1
  {
    DuringWrite();
    var s := Next(Run(INITIAL, DURING_WRITE), Stop);
    assert FLUSHED_EARLY[..0] == [];
    RunStep(s, FLUSHED_EARLY, 0);
    RunStep(s, FLUSHED_EARLY, 1);
    RunStep(s, FLUSHED_EARLY, 2);
    assert FLUSHED_EARLY[..3] == FLUSHED_EARLY;
  }
}
