/**
 Where a handler's copy of a group comes from.

 A restart brings back a state saved before, so what a copy is and remembers is a matter of its descent: the events since it
 was created, through the states from which it was restored.
*/
module MlsLineage {
  import opened Wrappers
  import opened MlsGroups
  import opened MlsSteps
  import opened MlsAccounts
  import opened MlsReplicas

  /** The handler's copy of the group before event `n`. */
  function CopyAt(es: seq<Event>, n: nat, did: Did, groupId: GroupId): Option<Group>
    requires n <= |es|
  {
    var groups := GroupsOf(After(es[..n]), did);
    if groupId in groups then Some(groups[groupId]) else None
  }

  /** The copy after event `k` is the one before event `i`, kept or restored. */
  predicate Continues(es: seq<Event>, k: nat, i: nat, did: Did, groupId: GroupId)
    requires i <= k < |es|
  {
    if es[k].Restart? && es[k].actor == did then es[k].saved == AccountOf(After(es[..i]), did)
    else i == k && !Replaces(After(es[..k]), es[k], did, groupId)
  }

  /** For each event, the points whose copy is continued by it; none if it replaces the copy. */
  function Origins(es: seq<Event>, did: Did, groupId: GroupId): seq<set<nat>> {
    seq(|es|, k requires 0 <= k < |es| => set i: nat | 0 <= i <= k && Continues(es, k, i, did, groupId))
  }

  /** Point `n` is reached from point `j` through these origins. */
  ghost predicate Linked(origins: seq<set<nat>>, j: nat, n: nat)
    requires n <= |origins|
    decreases n
  {
    n == j || (j < n && exists i :: i in origins[n - 1] && i < n && Linked(origins, j, i))
  }

  /** The copy before event `n` comes from the copy before event `j`, without having been replaced in between. */
  ghost predicate Descends(es: seq<Event>, j: nat, n: nat, did: Did, groupId: GroupId)
    requires n <= |es|
  {
    Linked(Origins(es, did, groupId), j, n)
  }

  function Copies(es: seq<Event>, did: Did, groupId: GroupId): seq<Option<Group>> {
    seq(|es| + 1, n requires 0 <= n <= |es| => CopyAt(es, n, did, groupId))
  }

  lemma {:induction false} OriginIs(es: seq<Event>, k: nat, i: nat, did: Did, groupId: GroupId)
    requires k < |es|
    ensures i in Origins(es, did, groupId)[k] <==> i <= k && Continues(es, k, i, did, groupId)
  {
  }

  lemma {:induction false} CopyIs(es: seq<Event>, n: nat, did: Did, groupId: GroupId)
    requires n <= |es|
    ensures Copies(es, did, groupId)[n] == CopyAt(es, n, did, groupId)
  {
  }

  // ---- One step ----

  /** A later state of a copy: a longer history, or the same one with no less remembered. */
  predicate Later(g: Group, h: Group) {
    IsPrefix(g.chain, h.chain) && (g.chain == h.chain ==> g.seen <= h.seen && g.generation <= h.generation)
  }

  predicate LaterCopy(copy: Option<Group>, next: Option<Group>) {
    copy.Some? && next.Some? && Later(copy.value, next.value)
  }

  lemma LaterComposes(f: Group, g: Group, h: Group)
    requires Later(f, g) && Later(g, h)
    ensures Later(f, h)
  {
  }

  lemma GroupStepLater(g: Group, op: Op)
    requires OnGroup(op)
    ensures Later(g, GroupStep(g, op).0)
  {
  }

  lemma StepLater(w: World, e: Event, did: Did, groupId: GroupId)
    requires groupId in GroupsOf(w, did) && !Replaces(w, e, did, groupId)
    ensures groupId in GroupsOf(Next(w, e), did) && Later(GroupsOf(w, did)[groupId], GroupsOf(Next(w, e), did)[groupId])
  {
    if e.Act? && e.actor == did && OnGroup(e.op) && e.op.groupId == groupId {
      GroupStepLater(GroupsOf(w, did)[groupId], e.op);
    } else {
      OthersStay(w, e, did, groupId);
    }
  }

  lemma {:induction false} ContinuedCopy(es: seq<Event>, k: nat, i: nat, did: Did, groupId: GroupId)
    requires i <= k < |es| && Continues(es, k, i, did, groupId) && CopyAt(es, i, did, groupId).Some?
    ensures LaterCopy(CopyAt(es, i, did, groupId), CopyAt(es, k + 1, did, groupId))
  {
    AfterNext(es, k);
    if !(es[k].Restart? && es[k].actor == did) {
      StepLater(After(es[..k]), es[k], did, groupId);
    }
  }

  // ---- Descent ----

  predicate LinksLater(origins: seq<set<nat>>, copies: seq<Option<Group>>)
    requires |copies| == |origins| + 1
  {
    forall k, i :: 0 <= k < |origins| && i in origins[k] && i <= k && copies[i].Some? ==>
      LaterCopy(copies[i], copies[k + 1])
  }

  lemma {:induction false} LinkedLater(origins: seq<set<nat>>, copies: seq<Option<Group>>, j: nat, n: nat)
    requires |copies| == |origins| + 1 && LinksLater(origins, copies)
    requires n <= |origins| && Linked(origins, j, n) && copies[j].Some?
    ensures copies[n].Some? && Later(copies[j].value, copies[n].value)
    decreases n
  {
    if j < n {
      var i: nat :| i in origins[n - 1] && i < n && Linked(origins, j, i);
      LinkedLater(origins, copies, j, i);
      LaterComposes(copies[j].value, copies[i].value, copies[n].value);
    }
  }

  lemma {:induction false} CopiesLinked(es: seq<Event>, did: Did, groupId: GroupId)
    ensures LinksLater(Origins(es, did, groupId), Copies(es, did, groupId))
  {
    var origins, copies := Origins(es, did, groupId), Copies(es, did, groupId);
    forall k, i | 0 <= k < |es| && i in origins[k] ensures i <= k && Continues(es, k, i, did, groupId) {
      OriginIs(es, k, i, did, groupId);
    }
    forall n | 0 <= n <= |es| ensures copies[n] == CopyAt(es, n, did, groupId) {
      CopyIs(es, n, did, groupId);
    }
    ContinuedLater(es, did, groupId, origins, copies);
  }

  lemma {:induction false} ContinuedLater(
      es: seq<Event>, did: Did, groupId: GroupId, origins: seq<set<nat>>, copies: seq<Option<Group>>)
    requires |copies| == |es| + 1 && |origins| == |es|
    requires forall k, i :: 0 <= k < |es| && i in origins[k] ==> i <= k && Continues(es, k, i, did, groupId)
    requires forall n :: 0 <= n <= |es| ==> copies[n] == CopyAt(es, n, did, groupId)
    ensures LinksLater(origins, copies)
  {
    forall k, i | 0 <= k < |origins| && i in origins[k] && i <= k && copies[i].Some?
      ensures LaterCopy(copies[i], copies[k + 1])
    {
      ContinuedCopy(es, k, i, did, groupId);
    }
  }

  /** A copy only grows: what descends from it has a longer history, or the same one with no less remembered. */
  lemma {:induction false} DescendantLater(es: seq<Event>, j: nat, n: nat, did: Did, groupId: GroupId)
    requires j <= n <= |es| && Descends(es, j, n, did, groupId) && CopyAt(es, j, did, groupId).Some?
    ensures CopyAt(es, n, did, groupId).Some?
    ensures Later(CopyAt(es, j, did, groupId).value, CopyAt(es, n, did, groupId).value)
  {
    CopiesLinked(es, did, groupId);
    LinkedLater(Origins(es, did, groupId), Copies(es, did, groupId), j, n);
  }

  // ---- What is true of a copy only through its descent ----

  /** Each point where it holds follows an event that made it hold, or continues a point where it held. */
  predicate Handed(origins: seq<set<nat>>, holds: seq<bool>, made: seq<bool>)
    requires |holds| == |origins| + 1 == |made| + 1
  {
    && !holds[0]
    && forall k :: 0 <= k < |origins| && holds[k + 1] ==>
         made[k] || exists i :: 0 <= i <= k && i in origins[k] && holds[i]
  }

  /** Then it descends from an event that made it hold. */
  lemma {:induction false} FindMaker(origins: seq<set<nat>>, holds: seq<bool>, made: seq<bool>, n: nat) returns (j: nat)
    requires |holds| == |origins| + 1 == |made| + 1 && Handed(origins, holds, made) && n <= |origins| && holds[n]
    ensures j < n && made[j] && Linked(origins, j + 1, n)
  {
    var k := n - 1;
    if made[k] {
      j := k;
    } else {
      var i :| 0 <= i <= k && i in origins[k] && holds[i];
      j := FindMaker(origins, holds, made, i);
    }
  }

  // ---- Copies that are never replaced ----

  /** Nothing replaced the copy from event `j` to event `n`, not even a restart. */
  predicate Undisturbed(es: seq<Event>, j: nat, n: nat, did: Did, groupId: GroupId)
    requires j <= n <= |es|
  {
    forall k :: j <= k < n ==> !Replaces(After(es[..k]), es[k], did, groupId)
  }

  /** Once the handler has a copy of the group, it is never replaced, nor restored from a saved state. */
  predicate NeverDisturbed(es: seq<Event>, did: Did, groupId: GroupId) {
    forall k :: 0 <= k < |es| && CopyAt(es, k, did, groupId).Some? ==> !Replaces(After(es[..k]), es[k], did, groupId)
  }

  lemma {:induction false} SelfLinked(origins: seq<set<nat>>, j: nat, n: nat)
    requires j <= n <= |origins| && forall k :: j <= k < n ==> k in origins[k]
    ensures Linked(origins, j, n)
  {
    if j < n {
      SelfLinked(origins, j, n - 1);
    }
  }

  lemma {:induction false} OwnOrigin(es: seq<Event>, k: nat, did: Did, groupId: GroupId)
    requires k < |es| && !Replaces(After(es[..k]), es[k], did, groupId)
    ensures k in Origins(es, did, groupId)[k]
  {
    OriginIs(es, k, k, did, groupId);
  }

  lemma {:induction false} UndisturbedDescends(es: seq<Event>, j: nat, n: nat, did: Did, groupId: GroupId)
    requires j <= n <= |es| && Undisturbed(es, j, n, did, groupId)
    ensures Descends(es, j, n, did, groupId)
  {
    forall k | j <= k < n ensures k in Origins(es, did, groupId)[k] {
      OwnOrigin(es, k, did, groupId);
    }
    SelfLinked(Origins(es, did, groupId), j, n);
  }

  lemma {:induction false} KeptLinked(origins: seq<set<nat>>, copies: seq<Option<Group>>, i: nat, j: nat)
    requires |copies| == |origins| + 1 && LinksLater(origins, copies)
    requires forall k :: 0 <= k < |origins| && copies[k].Some? ==> k in origins[k]
    requires i <= j <= |origins| && copies[i].Some?
    ensures Linked(origins, i, j) && copies[j].Some?
  {
    if i < j {
      KeptLinked(origins, copies, i, j - 1);
    }
  }

  lemma {:induction false} NeverDisturbedDescends(es: seq<Event>, i: nat, j: nat, did: Did, groupId: GroupId)
    requires NeverDisturbed(es, did, groupId) && i <= j <= |es| && CopyAt(es, i, did, groupId).Some?
    ensures Descends(es, i, j, did, groupId)
  {
    CopiesLinked(es, did, groupId);
    forall k | 0 <= k < |es| && Copies(es, did, groupId)[k].Some? ensures k in Origins(es, did, groupId)[k] {
      OwnOrigin(es, k, did, groupId);
    }
    KeptLinked(Origins(es, did, groupId), Copies(es, did, groupId), i, j);
  }

  lemma {:induction false} LinkedBefore(origins: seq<set<nat>>, j: nat, n: nat, k: nat)
    requires j <= n <= k <= |origins| && Linked(origins, j, k)
    requires forall i :: n <= i < k ==> origins[i] <= {i}
    ensures Linked(origins, j, n)
  {
    if n < k {
      LinkedBefore(origins, j, n, k - 1);
    }
  }

  /** Where the handler does not restart, a copy descends through every point in between. */
  lemma {:induction false} DescendsThrough(es: seq<Event>, j: nat, n: nat, k: nat, did: Did, groupId: GroupId)
    requires j <= n <= k <= |es| && Descends(es, j, k, did, groupId)
    requires forall i :: n <= i < k ==> !(es[i].Restart? && es[i].actor == did)
    ensures Descends(es, j, n, did, groupId)
  {
    var origins := Origins(es, did, groupId);
    forall i | n <= i < k ensures origins[i] <= {i} {
      forall h | h in origins[i] ensures h == i {
        OriginIs(es, i, h, did, groupId);
      }
    }
    LinkedBefore(origins, j, n, k);
  }
}
