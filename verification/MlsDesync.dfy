/** Desync detection: a counter of consecutive processing failures per group, and a flag that is raised once per episode. */
module MlsDesync {
  import opened Decimal

  type GroupId = string

  const DESYNC_THRESHOLD: U32 := 3

  /** The count wraps around like the atomic counter of the program. */
  datatype Counter = Counter(failures: U32, flagged: bool)

  type Counters = map<GroupId, Counter>

  const FRESH := Counter(0, false)

  datatype Outcome = Failure | Success | Cleared

  function CounterOf(counters: Counters, groupId: GroupId): Counter {
    if groupId in counters then counters[groupId] else FRESH
  }

  function Counted(c: Counter): U32 {
    (c.failures + 1) % U32_LIMIT
  }

  /** The failure raises the flag. */
  predicate Raises(c: Counter) {
    Counted(c) >= DESYNC_THRESHOLD && !c.flagged
  }

  function CounterAfter(c: Counter, o: Outcome): Counter {
    match o
    case Failure => Counter(Counted(c), c.flagged || Counted(c) >= DESYNC_THRESHOLD)
    case Success => c.(failures := 0)
    case Cleared => FRESH
  }

  /** Success and clearing touch only groups that have a counter. */
  function Recorded(counters: Counters, groupId: GroupId, o: Outcome): Counters {
    if o.Failure? || groupId in counters then counters[groupId := CounterAfter(CounterOf(counters, groupId), o)] else counters
  }

  // ---- Traces ----

  datatype Event = Event(groupId: GroupId, outcome: Outcome)

  function After(es: seq<Event>): Counters {
    if es == [] then map[] else
    var e := es[|es| - 1];
    Recorded(After(es[..|es| - 1]), e.groupId, e.outcome)
  }

  /** What happened to one group. */
  function TraceOf(es: seq<Event>, groupId: GroupId): seq<Outcome> {
    if es == [] then [] else
    var e := es[|es| - 1];
    TraceOf(es[..|es| - 1], groupId) + if e.groupId == groupId then [e.outcome] else []
  }

  function Count(t: seq<Outcome>): Counter {
    if t == [] then FRESH else CounterAfter(Count(t[..|t| - 1]), t[|t| - 1])
  }

  /** The groups do not influence one another. */
  lemma {:induction false} GroupsIndependent(es: seq<Event>, groupId: GroupId)
    ensures CounterOf(After(es), groupId) == Count(TraceOf(es, groupId))
  {
    if es != [] {
      GroupsIndependent(es[..|es| - 1], groupId);
      var t, e := TraceOf(es[..|es| - 1], groupId), es[|es| - 1];
      if e.groupId == groupId {
        assert (t + [e.outcome])[..|t|] == t;
      } else {
        assert t + [] == t;
      }
    }
  }

  // ---- Episodes ----

  /** Event `i` is the third of three failures in a row. */
  predicate CompletesThree(t: seq<Outcome>, i: nat) {
    2 <= i < |t| && t[i] == t[i - 1] == t[i - 2] == Failure
  }

  /** The first such event since the group was last cleared. */
  predicate FirstSinceClear(t: seq<Outcome>, i: nat) {
    CompletesThree(t, i) && forall j :: 0 <= j < i && CompletesThree(t, j) ==> exists k :: j < k < i && t[k] == Cleared
  }

  predicate CompletedSinceClear(t: seq<Outcome>) {
    exists i :: 0 <= i < |t| && CompletesThree(t, i) && forall k :: i < k < |t| ==> t[k] != Cleared
  }

  function TrailingFailures(t: seq<Outcome>): nat {
    if t == [] || t[|t| - 1] != Failure then 0 else TrailingFailures(t[..|t| - 1]) + 1
  }

  lemma CompletedStep(t: seq<Outcome>)
    requires t != []
    ensures var init, last := t[..|t| - 1], t[|t| - 1];
      CompletedSinceClear(t) <==> CompletesThree(t, |t| - 1) || (CompletedSinceClear(init) && last != Cleared)
  {
    var init, last := t[..|t| - 1], t[|t| - 1];
    assert forall i :: 0 <= i < |init| ==> init[i] == t[i];
    assert forall i :: 0 <= i < |init| ==> (CompletesThree(init, i) <==> CompletesThree(t, i));
    if CompletedSinceClear(init) && last != Cleared {
      var i :| 0 <= i < |init| && CompletesThree(init, i) && forall k :: i < k < |init| ==> init[k] != Cleared;
      assert CompletesThree(t, i);
      assert forall k :: i < k < |t| ==> t[k] != Cleared;
    }
    if CompletedSinceClear(t) && !CompletesThree(t, |t| - 1) {
      var i :| 0 <= i < |t| && CompletesThree(t, i) && forall k :: i < k < |t| ==> t[k] != Cleared;
      assert CompletesThree(init, i);
      assert forall k :: i < k < |init| ==> init[k] != Cleared;
    }
  }

  lemma {:induction false} ThreeTrailing(t: seq<Outcome>)
    requires t != []
    ensures CompletesThree(t, |t| - 1) <==> TrailingFailures(t) >= 3
  {
    var one := t[..|t| - 1];
    if |one| > 0 {
      var two := one[..|one| - 1];
      assert one[|one| - 1] == t[|t| - 2];
      assert |two| > 0 ==> two[|two| - 1] == t[|t| - 3];
      assert TrailingFailures(two) >= 1 <==> two != [] && two[|two| - 1] == Failure;
      assert TrailingFailures(one) >= 2 <==> one[|one| - 1] == Failure && TrailingFailures(two) >= 1;
    }
  }

  /** The counter counts trailing failures; the flag is up exactly when three were completed since the last clearing. */
  lemma {:induction false} CountMeans(t: seq<Outcome>)
    ensures Count(t).failures == TrailingFailures(t) % U32_LIMIT
    ensures Count(t).flagged <==> CompletedSinceClear(t)
    ensures !Count(t).flagged ==> TrailingFailures(t) < 3
  {
    if t != [] {
      CountMeans(t[..|t| - 1]);
      CompletedStep(t);
      ThreeTrailing(t);
    }
  }

  lemma FirstIffNoneBefore(t: seq<Outcome>)
    requires t != []
    ensures FirstSinceClear(t, |t| - 1) <==> CompletesThree(t, |t| - 1) && !CompletedSinceClear(t[..|t| - 1])
  {
    var init := t[..|t| - 1];
    assert forall i :: 0 <= i < |init| ==> init[i] == t[i];
    assert forall i :: 0 <= i < |init| ==> (CompletesThree(init, i) <==> CompletesThree(t, i));
    if CompletedSinceClear(init) {
      var i :| 0 <= i < |init| && CompletesThree(init, i) && forall k :: i < k < |init| ==> init[k] != Cleared;
      assert CompletesThree(t, i) && !exists k :: i < k < |t| - 1 && t[k] == Cleared;
    }
  }

  /**
   After any events, a failure of a group is reported if and only if it is the first since the group was last cleared to
   complete three failures in a row; the reported count is then exactly the threshold.
  */
  lemma FiresOncePerEpisode(es: seq<Event>, groupId: GroupId)
    ensures var c := CounterOf(After(es), groupId);
      var t := TraceOf(es, groupId) + [Failure];
      && (Raises(c) <==> FirstSinceClear(t, |t| - 1))
      && (Raises(c) ==> Counted(c) == DESYNC_THRESHOLD)
  {
    GroupsIndependent(es, groupId);
    RaisesIffFirst(TraceOf(es, groupId));
  }

  lemma RaisesIffFirst(before: seq<Outcome>)
    ensures var t := before + [Failure]; Raises(Count(before)) <==> FirstSinceClear(t, |t| - 1)
    ensures Raises(Count(before)) ==> Counted(Count(before)) == DESYNC_THRESHOLD
  {
    var t := before + [Failure];
    assert t[..|t| - 1] == before;
    CountMeans(before);
    ThreeTrailing(t);
    FirstIffNoneBefore(t);
    assert TrailingFailures(t) == TrailingFailures(before) + 1;
  }

  /** A group counts as desynced exactly while a report has been made since it was last cleared. */
  lemma DesyncedIffReported(es: seq<Event>, groupId: GroupId)
    ensures CounterOf(After(es), groupId).flagged
      <==> exists i :: 0 <= i < |TraceOf(es, groupId)| && FirstSinceClear(TraceOf(es, groupId), i)
                       && forall k :: i < k < |TraceOf(es, groupId)| ==> TraceOf(es, groupId)[k] != Cleared
  {
    GroupsIndependent(es, groupId);
    CountMeans(TraceOf(es, groupId));
    var t := TraceOf(es, groupId);
    if CompletedSinceClear(t) {
      var i :| 0 <= i < |t| && CompletesThree(t, i) && forall k :: i < k < |t| ==> t[k] != Cleared;
      var j := FirstOfEpisode(t, i);
    }
  }

  /** Going back from a completed three to the one that was reported. */
  lemma {:induction false} FirstOfEpisode(t: seq<Outcome>, i: nat) returns (first: nat)
    requires CompletesThree(t, i)
    ensures first <= i && FirstSinceClear(t, first) && forall k :: first < k <= i ==> t[k] != Cleared
  {
    if FirstSinceClear(t, i) {
      first := i;
    } else {
      var j :| 0 <= j < i && CompletesThree(t, j) && !exists k :: j < k < i && t[k] == Cleared;
      first := FirstOfEpisode(t, j);
    }
  }
}
