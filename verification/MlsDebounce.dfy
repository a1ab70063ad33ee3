/** That the persister debounces: when it writes, and how often. */
module MlsDebounce {
  import opened MlsPersister

  // ---- A write takes a quiet window ----

  /** The task is about to write. */
  predicate Writing(stage: Stage) {
    stage.Export? || stage.Store?
  }

  predicate Notifies(e: Event) {
    e == Schedule || e == Stop
  }

  /**
   Event `a` opens a window: the task begins to wait, having consumed every earlier notification. The window runs until the
   timer fires at event `t`; nobody notifies the task in between.
  */
  predicate QuietWindow(s: State, es: seq<Event>, a: nat, t: nat) {
    && a < t < |es| && es[a] == Poll && es[t] == Timeout
    && !Waiting(Run(s, es[..a]).stage) && !Run(s, es[..a]).permit
    && (forall i :: a < i <= t ==> Run(s, es[..i]).stage == AwaitMore(false))
    && forall i :: a < i < t ==> !Notifies(es[i])
  }

  /** One event: the wait is begun by the task alone, and lasts while nobody notifies it and the timer does not fire. */
  lemma WaitStep(s: State, e: Event)
    requires Next(s, e).stage == AwaitMore(false)
    ensures
      || (s.stage == AwaitMore(false) && !Notifies(e) && e != Timeout)
      || (e == Poll && !Waiting(s.stage) && !s.permit)
  {
  }

  /** One event: a write is begun by the timer, at the end of such a wait. */
  lemma WritingStep(s: State, e: Event)
    requires Writing(Next(s, e).stage)
    ensures Writing(s.stage) || (s.stage == AwaitMore(false) && e == Timeout)
  {
  }

  /** A waiting task has been waiting since it began to, undisturbed. */
  lemma {:induction false} FindOpening(s: State, es: seq<Event>) returns (a: nat)
    requires !Waiting(s.stage) && Run(s, es).stage == AwaitMore(false)
    ensures a < |es| && es[a] == Poll && !Waiting(Run(s, es[..a]).stage) && !Run(s, es[..a]).permit
    ensures forall i :: a < i <= |es| ==> Run(s, es[..i]).stage == AwaitMore(false)
    ensures forall i :: a < i < |es| ==> !Notifies(es[i])
  {
    assert es[..|es|] == es;
    var init, n := es[..|es| - 1], |es| - 1;
    WaitStep(Run(s, init), es[n]);
    if Run(s, init).stage == AwaitMore(false) {
      a := FindOpening(s, init);
      assert init[..a] == es[..a];
      forall i | a < i <= |es| ensures Run(s, es[..i]).stage == AwaitMore(false) {
        if i <= n {
          assert init[..i] == es[..i];
        }
      }
    } else {
      a := n;
    }
  }

  /**
   In every run, whenever the task is about to write, a window has passed before it in which nobody called `schedule` or
   `stop`, and which began after every earlier notification was consumed.
  */
  lemma {:induction false} WritesAfterQuietWindow(s: State, es: seq<Event>) returns (a: nat, t: nat)
    requires !Waiting(s.stage) && !Writing(s.stage) && Writing(Run(s, es).stage)
    ensures QuietWindow(s, es, a, t)
    ensures forall i :: t < i <= |es| ==> Writing(Run(s, es[..i]).stage)
  {
    assert es[..|es|] == es;
    var init, n := es[..|es| - 1], |es| - 1;
    WritingStep(Run(s, init), es[n]);
    if Writing(Run(s, init).stage) {
      a, t := WritesAfterQuietWindow(s, init);
      WindowStays(s, es, n, a, t);
      forall i | t < i <= |es| ensures Writing(Run(s, es[..i]).stage) {
        if i <= n {
          assert init[..i] == es[..i];
        }
      }
    } else {
      a := FindOpening(s, init);
      t := n;
      assert init[..a] == es[..a];
      forall i | a < i <= t ensures Run(s, es[..i]).stage == AwaitMore(false) {
        assert init[..i] == es[..i];
      }
    }
  }

  lemma WindowStays(s: State, es: seq<Event>, n: nat, a: nat, t: nat)
    requires n <= |es| && QuietWindow(s, es[..n], a, t)
    ensures QuietWindow(s, es, a, t)
  {
    assert forall i :: 0 <= i <= n ==> es[..n][..i] == es[..i];
  }

  // ---- How often it writes ----

  /** The writes of the task. */
  function Writes(s: State, es: seq<Event>): nat {
    if es == [] then 0 else
    var init, last := es[..|es| - 1], es[|es| - 1];
    Writes(s, init) + One(last == Poll && Run(s, init).stage.Store?)
  }

  function Number(es: seq<Event>, e: Event): nat {
    if es == [] then 0 else Number(es[..|es| - 1], e) + One(es[|es| - 1] == e)
  }

  function One(b: bool): nat {
    if b then 1 else 0
  }

  /** The task's writes number at most the times its timer fires; between two of them it fires. */
  lemma {:induction false} WritesAtMostTimeouts(s: State, es: seq<Event>)
    ensures Writes(s, es) + One(Writing(Run(s, es).stage)) <= Number(es, Timeout) + One(Writing(s.stage))
  {
    if es != [] {
      WritesAtMostTimeouts(s, es[..|es| - 1]);
    }
  }

  /** A cycle is under way that will end with a write. */
  predicate InCycle(stage: Stage) {
    Debouncing(stage) || stage.Store?
  }

  /** They also number at most the notifications: an idle persister does not write. */
  lemma {:induction false} WritesAtMostNotifications(s: State, es: seq<Event>)
    ensures Writes(s, es) + One(InCycle(Run(s, es).stage)) + One(Run(s, es).permit)
      <= Number(es, Schedule) + Number(es, Stop) + One(InCycle(s.stage)) + One(s.permit)
  {
    if es != [] {
      WritesAtMostNotifications(s, es[..|es| - 1]);
    }
  }

  /** In particular, from the start: at most one write per call of `schedule` or `stop`, and none without the timer. */
  lemma WritesFromStart(es: seq<Event>)
    ensures Writes(INITIAL, es) <= Number(es, Schedule) + Number(es, Stop)
    ensures Writes(INITIAL, es) <= Number(es, Timeout)
  {
    WritesAtMostTimeouts(INITIAL, es);
    WritesAtMostNotifications(INITIAL, es);
  }

  lemma {:induction false} RunInTwo(s: State, es: seq<Event>, fs: seq<Event>)
    ensures Run(s, es + fs) == Run(Run(s, es), fs)
    ensures Writes(s, es + fs) == Writes(s, es) + Writes(Run(s, es), fs)
  {
    if fs == [] {
      assert es + fs == es;
    } else {
      assert (es + fs)[..|es + fs| - 1] == es + fs[..|fs| - 1];
      RunInTwo(s, es, fs[..|fs| - 1]);
    }
  }

  // ---- A burst of calls ----

  /** Events of a burst, while the timer does not fire. */
  predicate Burst(es: seq<Event>) {
    Timeout !in es && Stop !in es
  }

  /** The task collects notifications, and has written nothing. */
  predicate Collecting(s: State) {
    s.stage.Debounce? || s.stage.AwaitMore?
  }

  lemma {:induction false} BurstCollects(s: State, es: seq<Event>)
    requires Burst(es) && Collecting(s) && (s.stage == AwaitMore(false) ==> !s.permit)
    ensures var t := Run(s, es); Collecting(t) && (t.stage == AwaitMore(false) ==> !t.permit)
    ensures Writes(s, es) == 0
  {
    if es != [] {
      BurstCollects(s, es[..|es| - 1]);
    }
  }

  // The task comes to rest, its timer fires, and it writes.
  const SETTLING: seq<Event> := [Poll, Poll, Poll, Timeout, Poll, Poll]

  lemma Settles(s: State)
    requires Collecting(s) && (s.stage == AwaitMore(false) ==> !s.permit)
    ensures Run(s, SETTLING) == s.(disk := s.memory, stage := CheckRunning, permit := false)
    ensures Writes(s, SETTLING) == 1
  {
    var s3 := SettledAt(s);
    assert SETTLING == [Poll, Poll, Poll] + [Timeout, Poll, Poll];
    RunInTwo(s, [Poll, Poll, Poll], [Timeout, Poll, Poll]);
    Fires(s3);
  }

  lemma SettledAt(s: State) returns (t: State)
    requires Collecting(s) && (s.stage == AwaitMore(false) ==> !s.permit)
    ensures t == Run(s, [Poll, Poll, Poll]) == s.(stage := AwaitMore(false), permit := false)
    ensures Writes(s, [Poll, Poll, Poll]) == 0
  {
    t := Next(Next(Next(s, Poll), Poll), Poll);
    ThreeEvents(s, Poll, Poll, Poll);
  }

  lemma Fires(s: State)
    requires s.stage == AwaitMore(false) && !s.permit
    ensures Run(s, [Timeout, Poll, Poll]) == s.(disk := s.memory, stage := CheckRunning)
    ensures Writes(s, [Timeout, Poll, Poll]) == 1
  {
    ThreeEvents(s, Timeout, Poll, Poll);
  }

  lemma ThreeEvents(s: State, e: Event, f: Event, g: Event)
    ensures Run(s, [e, f, g]) == Next(Next(Next(s, e), f), g)
    ensures Writes(s, [e, f, g]) == One(e == Poll && s.stage.Store?) + One(f == Poll && Next(s, e).stage.Store?)
      + One(g == Poll && Next(Next(s, e), f).stage.Store?)
  {
    assert [e, f, g][..2] == [e, f] && [e, f][..1] == [e] && [e][..0] == [];
    assert Run(s, [e]) == Next(s, e);
    assert Run(s, [e, f]) == Next(Next(s, e), f);
    assert Writes(s, [e]) == One(e == Poll && s.stage.Store?);
    assert Writes(s, [e, f]) == Writes(s, [e]) + One(f == Poll && Next(s, e).stage.Store?);
  }

  /**
   Any number of calls of `schedule` inside one open window, however mixed with operations and steps of the task, lead to
   no write before the timer fires, and then to exactly one, of the latest state.
  */
  lemma BurstIsOneWrite(s: State, burst: seq<Event>)
    requires Burst(burst) && s.stage == AwaitMore(false) && !s.permit
    ensures Writes(s, burst) == 0 && Writes(s, burst + SETTLING) == 1
    ensures var t := Run(s, burst + SETTLING);
      t.disk == t.memory == Run(s, burst).memory && t.stage.CheckRunning? && !t.permit
  {
    BurstCollects(s, burst);
    RunInTwo(s, burst, SETTLING);
    Settles(Run(s, burst));
  }
}
