/** The deferred way of adding a member agrees with the immediate one, and a pending commit is never lost or doubled. */
module MlsDeferred {
  import opened Wrappers
  import opened MlsGroups
  import opened MlsSteps
  import opened MlsAccounts
  import opened MlsReplicas
  import opened MlsLineage

  /** Operations on one group, one after another. */
  function GroupRun(g: Group, ops: seq<Op>): Group
    requires forall op :: op in ops ==> OnGroup(op)
  {
    if ops == [] then g else GroupStep(GroupRun(g, ops[..|ops| - 1]), ops[|ops| - 1]).0
  }

  /** The operation ends a pending commit: by merging it, dropping it, or merging a commit of another member. */
  predicate Ends(g: Group, op: Op) {
    || op.ConfirmAddMember?
    || op.CancelAddMember?
    || (op.ProcessMessage? && op.message.Commit? && Accepts(g, op.message))
  }

  /** None of the operations ends a pending commit. */
  predicate NoneEnds(g: Group, ops: seq<Op>) {
    && (forall op :: op in ops ==> OnGroup(op))
    && (ops != [] ==> NoneEnds(g, ops[..|ops| - 1]) && !Ends(GroupRun(g, ops[..|ops| - 1]), ops[|ops| - 1]))
  }

  // ---- A pending commit blocks the group ----

  /** While a commit is pending every operation that would commit, stage or propose is refused and changes nothing. */
  lemma PendingBlocks(g: Group, op: Op)
    requires g.pending.Some? && OnGroup(op) && !op.ConfirmAddMember? && !op.CancelAddMember?
    requires !op.ProcessMessage? && !op.EncryptMessage?
    ensures var (h, answer) := GroupStep(g, op);
      && h == g && Sent(answer) == {}
      && (answer.Ok? <==> op.CommitPendingProposals? && g.proposals == {})
      && (op.AddMemberDeferred? ==> answer == Err(PendingCommit))
  {
  }

  /** The same group, but for leave proposals that were received, and application messages sent and decrypted. */
  predicate SameButReceived(g: Group, h: Group) {
    h == g.(proposals := h.proposals, generation := h.generation, seen := h.seen) && g.proposals <= h.proposals
  }

  /** Apart from the operations that end it, a pending commit stays, and so does all else but what is received. */
  lemma {:induction false} PendingStays(g: Group, ops: seq<Op>)
    requires g.pending.Some? && NoneEnds(g, ops)
    ensures SameButReceived(g, GroupRun(g, ops))
  {
    if ops != [] {
      PendingStays(g, ops[..|ops| - 1]);
      var h := GroupRun(g, ops[..|ops| - 1]);
      if !ops[|ops| - 1].ProcessMessage? && !ops[|ops| - 1].EncryptMessage? {
        PendingBlocks(h, ops[|ops| - 1]);
      }
    }
  }

  // ---- Deferred equals immediate ----

  /**
   The deferred addition is possible if and only if the immediate one is, and hands out the same commit and Welcome.
   Confirmed, whatever was tried and received meanwhile short of another member's commit, it leaves exactly the group that
   the immediate addition leaves.
  */
  lemma DeferredEqualsImmediate(g: Group, groupId: GroupId, invitee: KeyPackage, nonce: nat, ops: seq<Op>)
    requires var staged := GroupStep(g, AddMemberDeferred(groupId, invitee, nonce)).0; NoneEnds(staged, ops)
    ensures var (staged, deferred) := GroupStep(g, AddMemberDeferred(groupId, invitee, nonce));
      var (added, immediate) := GroupStep(g, AddMember(groupId, invitee, nonce));
      && (deferred.Ok? <==> immediate.Ok?)
      && (deferred.Ok? ==>
           && deferred == immediate
           && GroupStep(GroupRun(staged, ops), ConfirmAddMember(groupId)) == (added, Ok(Done))
           && added.epoch == g.epoch + 1)
      && (deferred.Err? ==> staged == g && added == g)
  {
    var (staged, deferred) := GroupStep(g, AddMemberDeferred(groupId, invitee, nonce));
    if deferred.Ok? {
      PendingStays(staged, ops);
    }
  }

  /** Cancelled, it leaves the group as it was: same history, epoch and members, and nothing pending. */
  lemma CancelRestores(g: Group, groupId: GroupId, invitee: KeyPackage, nonce: nat, ops: seq<Op>)
    requires var staged := GroupStep(g, AddMemberDeferred(groupId, invitee, nonce)).0; NoneEnds(staged, ops)
    requires GroupStep(g, AddMemberDeferred(groupId, invitee, nonce)).1.Ok?
    ensures var staged := GroupStep(g, AddMemberDeferred(groupId, invitee, nonce)).0;
      var (h, answer) := GroupStep(GroupRun(staged, ops), CancelAddMember(groupId));
      && answer == Ok(Done)
      && SameButReceived(g, h)
      && (ops == [] ==> h == g)
  {
    PendingStays(GroupStep(g, AddMemberDeferred(groupId, invitee, nonce)).0, ops);
  }

  /**
   A commit of another member that arrives meanwhile is merged as if nothing had been staged, and takes the pending commit
   away: confirming or cancelling then fails.
  */
  lemma RemoteCommitDiscards(g: Group, c: Change, groupId: GroupId, m: Message)
    requires g.pending.None? && m.Commit?
    ensures var op := ProcessMessage(groupId, m);
      var (h, answer) := GroupStep(Staged(g, c), op);
      && answer == GroupStep(g, op).1
      && (answer.Ok? ==>
           && h == GroupStep(g, op).0 && h.pending.None?
           && GroupStep(h, ConfirmAddMember(groupId)) == (h, Err(NoPendingCommit(groupId)))
           && GroupStep(h, CancelAddMember(groupId)) == (h, Err(NoPendingCommit(groupId))))
  {
  }

  // ---- Never two pending commits ----

  /** The event, in the world it happens in, ends or drops what is pending in the handler's group. */
  predicate EndsIn(w: World, e: Event, did: Did, groupId: GroupId) {
    || Replaces(w, e, did, groupId)
    || (e.Act? && e.actor == did && groupId in GroupsOf(w, did) && OnGroup(e.op) && e.op.groupId == groupId
        && Ends(GroupsOf(w, did)[groupId], e.op))
  }

  lemma StepKeepsPending(w: World, e: Event, did: Did, groupId: GroupId)
    requires groupId in GroupsOf(w, did) && GroupsOf(w, did)[groupId].pending.Some? && !EndsIn(w, e, did, groupId)
    ensures groupId in GroupsOf(Next(w, e), did)
    ensures GroupsOf(Next(w, e), did)[groupId].pending == GroupsOf(w, did)[groupId].pending
  {
    if e.Act? && e.actor == did && OnGroup(e.op) && e.op.groupId == groupId {
      if !e.op.ProcessMessage? && !e.op.EncryptMessage? {
        PendingBlocks(GroupsOf(w, did)[groupId], e.op);
      }
    } else {
      OthersStay(w, e, did, groupId);
    }
  }

  lemma {:induction false} PendingPersists(es: seq<Event>, n: nat, m: nat, did: Did, groupId: GroupId)
    requires n <= m <= |es| && groupId in GroupsOf(After(es[..n]), did)
    requires GroupsOf(After(es[..n]), did)[groupId].pending.Some?
    requires forall k :: n <= k < m ==> !EndsIn(After(es[..k]), es[k], did, groupId)
    ensures groupId in GroupsOf(After(es[..m]), did)
    ensures GroupsOf(After(es[..m]), did)[groupId].pending == GroupsOf(After(es[..n]), did)[groupId].pending
  {
    if n < m {
      PendingPersists(es, n, m - 1, did, groupId);
      StepKeepsPending(After(es[..m - 1]), es[m - 1], did, groupId);
      AfterNext(es, m - 1);
    }
  }

  predicate StagesAt(es: seq<Event>, k: nat, did: Did, groupId: GroupId)
    requires k < |es|
  {
    && es[k].Act? && es[k].actor == did && es[k].op.AddMemberDeferred? && es[k].op.groupId == groupId
    && Step(did, AccountOf(After(es[..k]), did), es[k].op).1.Ok?
  }

  /** Between two successful deferred additions to a group the first one has been ended. */
  lemma NeverTwoPending(es: seq<Event>, i: nat, j: nat, did: Did, groupId: GroupId)
    requires i < j < |es| && StagesAt(es, i, did, groupId) && StagesAt(es, j, did, groupId)
    ensures exists k :: i < k < j && EndsIn(After(es[..k]), es[k], did, groupId)
  {
    if !exists k :: i < k < j && EndsIn(After(es[..k]), es[k], did, groupId) {
      AfterNext(es, i);
      PendingPersists(es, i + 1, j, did, groupId);
    }
  }

  // ---- The invited member ----

  /** The change that the deferred addition at event `n` stages. */
  function StagedAt(es: seq<Event>, n: nat, did: Did, groupId: GroupId): Change
    requires n < |es| && es[n].Act? && es[n].op.AddMemberDeferred? && CopyAt(es, n, did, groupId).Some?
  {
    NewChange(CopyAt(es, n, did, groupId).value, Some(es[n].op.invitee), {}, es[n].op.nonce)
  }

  /** At event `n` the handler stages this change to a group with this history. */
  predicate Stages(es: seq<Event>, n: nat, did: Did, groupId: GroupId, base: Chain, c: Change)
    requires n < |es|
  {
    && StagesAt(es, n, did, groupId) && CopyAt(es, n, did, groupId).Some?
    && CopyAt(es, n, did, groupId).value.chain == base && StagedAt(es, n, did, groupId) == c
  }

  predicate Commits(op: Op) {
    op.AddMember? || op.AddMemberDeferred? || op.RemoveMember? || op.SelfUpdate? || op.CommitPendingProposals?
  }

  /** The event makes no commit with this nonce, which stands for fresh secrets. */
  predicate Fresh(e: Event, did: Did, nonce: nat) {
    e.Act? && e.actor == did && Commits(e.op) ==> e.op.nonce != nonce
  }

  predicate FreshSince(es: seq<Event>, n: nat, did: Did, nonce: nat) {
    forall k :: n < k < |es| ==> Fresh(es[k], did, nonce)
  }

  predicate PendingFor(g: Group, base: Chain, c: Change) {
    g.pending == Some(c) && g.chain == base && g.leaf == c.committer
  }

  /** The change was not made, and is not staged any more. */
  predicate Avoids(g: Group, base: Chain, c: Change) {
    && IsPrefix(base, g.chain) && !IsPrefix(Extended(base, c), g.chain)
    && (g.chain == base ==> g.leaf == c.committer && g.pending != Some(c))
  }

  predicate Confirms(e: Event, did: Did, groupId: GroupId) {
    e == Act(did, ConfirmAddMember(groupId))
  }

  /** The first event after `n` that ends what is pending is `k`. */
  predicate FirstEnd(es: seq<Event>, n: nat, k: nat, did: Did, groupId: GroupId) {
    && n < k < |es| && EndsIn(After(es[..k]), es[k], did, groupId)
    && forall i :: n < i < k ==> !EndsIn(After(es[..i]), es[i], did, groupId)
  }

  // One operation on the group.

  lemma PendingGroupStep(g: Group, op: Op, base: Chain, c: Change)
    requires OnGroup(op) && PendingFor(g, base, c)
    ensures var h := GroupStep(g, op).0;
      if !Ends(g, op) then PendingFor(h, base, c)
      else if op.ConfirmAddMember? then h.chain == Extended(base, c)
      else Avoids(h, base, c)
  {
    if !Ends(g, op) && !op.ProcessMessage? && !op.EncryptMessage? {
      PendingBlocks(g, op);
    }
    if op.ProcessMessage? && Ends(g, op) {
      OtherChange(base, c, op.message.change);
    }
  }

  lemma OtherChange(chain: Chain, c: Change, d: Change)
    requires c != d
    ensures !IsPrefix(Extended(chain, c), Extended(chain, d))
  {
    var n := |chain.changes|;
    assert Extended(chain, c).changes[n] == c && Extended(chain, d).changes[n] == d;
  }

  /** A history that becomes longer by one commit contains the change only if it contained it, or this commit is it. */
  lemma ExtendedAvoids(chain: Chain, d: Change, base: Chain, c: Change)
    requires IsPrefix(base, chain) && !IsPrefix(Extended(base, c), chain) && (chain == base ==> d != c)
    ensures !IsPrefix(Extended(base, c), Extended(chain, d))
  {
    var n := |base.changes|;
    if chain == base {
      OtherChange(base, c, d);
    } else {
      assert |chain.changes| == n ==> chain.changes == base.changes;
      assert Extended(base, c).changes == base.changes + [c];
      assert chain.changes[n] != c by {
        assert chain.changes[..n + 1] == base.changes + [chain.changes[n]];
      }
      assert Extended(chain, d).changes[n] == chain.changes[n] && Extended(base, c).changes[n] == c;
    }
  }

  lemma AdvancedAvoids(g: Group, d: Change, base: Chain, c: Change)
    requires Avoids(g, base, c) && (g.chain == base ==> d != c)
    ensures Avoids(Advanced(g, d), base, c)
  {
    ExtendedAvoids(g.chain, d, base, c);
  }

  lemma AvoidingGroupStep(g: Group, op: Op, base: Chain, c: Change)
    requires OnGroup(op) && Avoids(g, base, c) && (Commits(op) ==> op.nonce != c.nonce)
    ensures Avoids(GroupStep(g, op).0, base, c)
  {
    match op
    case AddMember(_, invitee, nonce) => AdvancedAvoids(g, NewChange(g, Some(invitee), {}, nonce), base, c);
    case RemoveMember(_, leaf, nonce) => AdvancedAvoids(g, NewChange(g, None, {leaf}, nonce), base, c);
    case SelfUpdate(_, nonce) => AdvancedAvoids(g, NewChange(g, None, {}, nonce), base, c);
    case CommitPendingProposals(_, nonce) => AdvancedAvoids(g, NewChange(g, None, {}, nonce), base, c);
    case ConfirmAddMember(_) =>
      if g.pending.Some? {
        AdvancedAvoids(g, g.pending.value, base, c);
      }
    case ProcessMessage(_, m) =>
      if m.Commit? && Accepts(g, m) {
        AdvancedAvoids(g, m.change, base, c);
      }
    case _ =>
  }

  // One event of a run.

  lemma StagingNext(w: World, e: Event, did: Did, groupId: GroupId)
    requires groupId in GroupsOf(w, did) && e.Act? && e.actor == did && e.op.AddMemberDeferred? && e.op.groupId == groupId
    requires Step(did, AccountOf(w, did), e.op).1.Ok?
    ensures groupId in GroupsOf(Next(w, e), did)
    ensures var g := GroupsOf(w, did)[groupId];
      PendingFor(GroupsOf(Next(w, e), did)[groupId], g.chain, NewChange(g, Some(e.op.invitee), {}, e.op.nonce))
  {
  }

  lemma PendingNext(w: World, e: Event, did: Did, groupId: GroupId, base: Chain, c: Change)
    requires groupId in GroupsOf(w, did) && PendingFor(GroupsOf(w, did)[groupId], base, c) && !Replaces(w, e, did, groupId)
    ensures groupId in GroupsOf(Next(w, e), did)
    ensures var h := GroupsOf(Next(w, e), did)[groupId];
      if !EndsIn(w, e, did, groupId) then PendingFor(h, base, c)
      else if Confirms(e, did, groupId) then h.chain == Extended(base, c)
      else Avoids(h, base, c)
  {
    if e.Act? && e.actor == did && OnGroup(e.op) && e.op.groupId == groupId {
      PendingGroupStep(GroupsOf(w, did)[groupId], e.op, base, c);
    } else {
      OthersStay(w, e, did, groupId);
    }
  }

  lemma AvoidingNext(w: World, e: Event, did: Did, groupId: GroupId, base: Chain, c: Change)
    requires groupId in GroupsOf(w, did) && Avoids(GroupsOf(w, did)[groupId], base, c) && !Replaces(w, e, did, groupId)
    requires Fresh(e, did, c.nonce)
    ensures groupId in GroupsOf(Next(w, e), did) && Avoids(GroupsOf(Next(w, e), did)[groupId], base, c)
  {
    if e.Act? && e.actor == did && OnGroup(e.op) && e.op.groupId == groupId {
      AvoidingGroupStep(GroupsOf(w, did)[groupId], e.op, base, c);
    } else {
      OthersStay(w, e, did, groupId);
    }
  }

  // Runs.

  predicate PendingAt(es: seq<Event>, m: nat, did: Did, groupId: GroupId, base: Chain, c: Change)
    requires m <= |es|
  {
    CopyAt(es, m, did, groupId).Some? && PendingFor(CopyAt(es, m, did, groupId).value, base, c)
  }

  predicate AvoidsAt(es: seq<Event>, m: nat, did: Did, groupId: GroupId, base: Chain, c: Change)
    requires m <= |es|
  {
    CopyAt(es, m, did, groupId).Some? && Avoids(CopyAt(es, m, did, groupId).value, base, c)
  }

  predicate ContainsAt(es: seq<Event>, m: nat, did: Did, groupId: GroupId, history: Chain)
    requires m <= |es|
  {
    CopyAt(es, m, did, groupId).Some? && IsPrefix(history, CopyAt(es, m, did, groupId).value.chain)
  }

  lemma {:induction false} StagedThen(es: seq<Event>, n: nat, did: Did, groupId: GroupId, base: Chain, c: Change)
    requires n < |es| && Stages(es, n, did, groupId, base, c)
    ensures PendingAt(es, n + 1, did, groupId, base, c)
  {
    AfterNext(es, n);
    StagingNext(After(es[..n]), es[n], did, groupId);
  }

  lemma {:induction false} PendingThen(es: seq<Event>, k: nat, did: Did, groupId: GroupId, base: Chain, c: Change)
    requires k < |es| && PendingAt(es, k, did, groupId, base, c) && !Replaces(After(es[..k]), es[k], did, groupId)
    ensures
      if !EndsIn(After(es[..k]), es[k], did, groupId) then PendingAt(es, k + 1, did, groupId, base, c)
      else if Confirms(es[k], did, groupId) then ContainsAt(es, k + 1, did, groupId, Extended(base, c))
      else AvoidsAt(es, k + 1, did, groupId, base, c)
  {
    AfterNext(es, k);
    PendingNext(After(es[..k]), es[k], did, groupId, base, c);
  }

  lemma {:induction false} AvoidingThen(es: seq<Event>, k: nat, did: Did, groupId: GroupId, base: Chain, c: Change)
    requires k < |es| && AvoidsAt(es, k, did, groupId, base, c) && !Replaces(After(es[..k]), es[k], did, groupId)
    requires Fresh(es[k], did, c.nonce)
    ensures AvoidsAt(es, k + 1, did, groupId, base, c)
  {
    AfterNext(es, k);
    AvoidingNext(After(es[..k]), es[k], did, groupId, base, c);
  }

  lemma {:induction false} OnAndOn(holds: seq<bool>, n: nat, m: nat)
    requires n <= m < |holds| && holds[n] && forall k :: n <= k < m && holds[k] ==> holds[k + 1]
    ensures holds[m]
  {
    if n < m {
      OnAndOn(holds, n, m - 1);
    }
  }

  lemma {:induction false} PendingUntil(
      es: seq<Event>, n: nat, m: nat, did: Did, groupId: GroupId, base: Chain, c: Change)
    requires n < m <= |es| && Stages(es, n, did, groupId, base, c) && Undisturbed(es, n, |es|, did, groupId)
    requires forall i :: n < i < m ==> !EndsIn(After(es[..i]), es[i], did, groupId)
    ensures PendingAt(es, m, did, groupId, base, c)
  {
    var holds := seq(|es| + 1, i requires 0 <= i <= |es| => PendingAt(es, i, did, groupId, base, c));
    StagedThen(es, n, did, groupId, base, c);
    forall k | n + 1 <= k < m && holds[k] ensures holds[k + 1] {
      PendingThen(es, k, did, groupId, base, c);
    }
    OnAndOn(holds, n + 1, m);
  }

  lemma {:induction false} AvoidsUntil(
      es: seq<Event>, n: nat, m: nat, did: Did, groupId: GroupId, base: Chain, c: Change)
    requires n <= m <= |es| && AvoidsAt(es, n, did, groupId, base, c) && Undisturbed(es, n, |es|, did, groupId)
    requires forall k :: n <= k < |es| ==> Fresh(es[k], did, c.nonce)
    ensures AvoidsAt(es, m, did, groupId, base, c)
  {
    var holds := seq(|es| + 1, i requires 0 <= i <= |es| => AvoidsAt(es, i, did, groupId, base, c));
    forall k | n <= k < m && holds[k] ensures holds[k + 1] {
      AvoidingThen(es, k, did, groupId, base, c);
    }
    OnAndOn(holds, n, m);
  }

  lemma {:induction false} ContainsUntil(es: seq<Event>, n: nat, did: Did, groupId: GroupId, history: Chain)
    requires n <= |es| && ContainsAt(es, n, did, groupId, history) && Undisturbed(es, n, |es|, did, groupId)
    ensures ContainsAt(es, |es|, did, groupId, history)
  {
    UndisturbedDescends(es, n, |es|, did, groupId);
    DescendantLater(es, n, |es|, did, groupId);
  }

  /** The first end of what is pending since event `n`, or the length of the run if there is none. */
  lemma {:induction false} FindFirstEnd(es: seq<Event>, n: nat, did: Did, groupId: GroupId) returns (k: nat)
    requires n < |es|
    ensures n < k <= |es| && (k < |es| ==> FirstEnd(es, n, k, did, groupId))
    ensures forall i :: n < i < k ==> !EndsIn(After(es[..i]), es[i], did, groupId)
  {
    var ends := seq(|es|, i requires 0 <= i < |es| => EndsIn(After(es[..i]), es[i], did, groupId));
    k := FindFirst(ends, n + 1);
    forall i | n < i < k ensures !EndsIn(After(es[..i]), es[i], did, groupId) {
      assert !ends[i];
    }
  }

  lemma {:induction false} FindFirst(ends: seq<bool>, n: nat) returns (k: nat)
    requires n <= |ends|
    ensures n <= k <= |ends| && (k < |ends| ==> ends[k]) && forall i :: n <= i < k ==> !ends[i]
    decreases |ends| - n
  {
    if n == |ends| || ends[n] {
      k := n;
    } else {
      k := FindFirst(ends, n + 1);
    }
  }

  /** The pending addition has been confirmed, before anything else ended it. */
  predicate ConfirmedFirst(es: seq<Event>, n: nat, did: Did, groupId: GroupId) {
    exists k :: n < k < |es| && FirstEnd(es, n, k, did, groupId) && Confirms(es[k], did, groupId)
  }

  lemma {:induction false} FirstEndUnique(es: seq<Event>, n: nat, k: nat, did: Did, groupId: GroupId)
    requires FirstEnd(es, n, k, did, groupId)
    ensures forall i: nat :: FirstEnd(es, n, i, did, groupId) ==> i == k
  {
  }

  /** The history after the staged change is a beginning of the inviter's later history exactly if it confirmed first. */
  lemma {:induction false} ContainedIff(es: seq<Event>, n: nat, did: Did, groupId: GroupId, base: Chain, c: Change)
    requires n < |es| && Stages(es, n, did, groupId, base, c)
    requires Undisturbed(es, n, |es|, did, groupId) && FreshSince(es, n, did, c.nonce)
    ensures ContainsAt(es, |es|, did, groupId, Extended(base, c)) <==> ConfirmedFirst(es, n, did, groupId)
  {
    var k := FindFirstEnd(es, n, did, groupId);
    PendingUntil(es, n, k, did, groupId, base, c);
    if k < |es| {
      assert Undisturbed(es, k + 1, |es|, did, groupId);
      PendingThen(es, k, did, groupId, base, c);
      if Confirms(es[k], did, groupId) {
        ContainsUntil(es, k + 1, did, groupId, Extended(base, c));
      } else {
        AvoidsUntil(es, k + 1, |es|, did, groupId, base, c);
      }
      FirstEndUnique(es, n, k, did, groupId);
    }
  }

  /** At event `j` the handler joins the group through the Welcome that the staging at event `n` handed out. */
  predicate JoinsAt(es: seq<Event>, j: nat, did: Did, n: nat, inviter: Did, groupId: GroupId)
    requires j < |es| && n < |es| && StagesAt(es, n, inviter, groupId) && CopyAt(es, n, inviter, groupId).Some?
  {
    var welcome := WelcomeFor(CopyAt(es, n, inviter, groupId).value, StagedAt(es, n, inviter, groupId));
    && es[j] == Act(did, JoinFromWelcome(welcome))
    && Admits(AccountOf(After(es[..j]), did), es[j].op.message)
  }

  /**
   A member invited by a deferred addition joins before it is confirmed. In every run, while the inviter's copy is not
   replaced or restarted, the history with which the invited member starts is a beginning of the inviter's later history
   if and only if the inviter confirmed the addition before it cancelled it or merged a commit of another member.
  */
  lemma {:induction false} InviteeAgreesIff(es: seq<Event>, n: nat, j: nat, inviter: Did, did: Did, groupId: GroupId)
    requires Run(es) && n < |es| && j < |es| && StagesAt(es, n, inviter, groupId) && CopyAt(es, n, inviter, groupId).Some?
    requires JoinsAt(es, j, did, n, inviter, groupId)
    requires Undisturbed(es, n, |es|, inviter, groupId) && FreshSince(es, n, inviter, es[n].op.nonce)
    ensures CopyAt(es, j + 1, did, groupId).Some?
    ensures ContainsAt(es, |es|, inviter, groupId, CopyAt(es, j + 1, did, groupId).value.chain)
        <==> ConfirmedFirst(es, n, inviter, groupId)
  {
    var base, c := CopyAt(es, n, inviter, groupId).value.chain, StagedAt(es, n, inviter, groupId);
    ContainedIff(es, n, inviter, groupId, base, c);
    InGroup(es, n, inviter, groupId);
    JoinedWith(es, j, did, groupId, es[j].op.message);
  }

  lemma {:induction false} InGroup(es: seq<Event>, n: nat, did: Did, groupId: GroupId)
    requires Run(es) && n <= |es| && CopyAt(es, n, did, groupId).Some?
    ensures CopyAt(es, n, did, groupId).value.chain.groupId == groupId
  {
    RunPrefix(es, n);
    InvAlways(es[..n]);
    assert GroupOk(did, groupId, CopyAt(es, n, did, groupId).value);
  }

  lemma {:induction false} JoinedWith(es: seq<Event>, j: nat, did: Did, groupId: GroupId, m: Message)
    requires j < |es| && es[j] == Act(did, JoinFromWelcome(m)) && Admits(AccountOf(After(es[..j]), did), m)
    requires m.chain.groupId == groupId
    ensures CopyAt(es, j + 1, did, groupId) == Some(Welcomed(m))
  {
    AfterNext(es, j);
    JoinedNext(After(es[..j]), did, m);
  }

  lemma JoinedNext(w: World, did: Did, m: Message)
    requires Admits(AccountOf(w, did), m)
    ensures var groups := GroupsOf(Next(w, Act(did, JoinFromWelcome(m))), did);
      m.chain.groupId in groups && groups[m.chain.groupId] == Welcomed(m)
  {
  }

  /** Unless it was confirmed first, the two never have the same history: the invited member is left alone. */
  lemma {:induction false} AgreeOnlyIfConfirmed(es: seq<Event>, n: nat, j: nat, inviter: Did, did: Did, groupId: GroupId)
    requires Run(es) && n < |es| && j < |es| && StagesAt(es, n, inviter, groupId) && CopyAt(es, n, inviter, groupId).Some?
    requires JoinsAt(es, j, did, n, inviter, groupId)
    requires Undisturbed(es, n, |es|, inviter, groupId) && FreshSince(es, n, inviter, es[n].op.nonce)
    requires Undisturbed(es, j + 1, |es|, did, groupId) && !ConfirmedFirst(es, n, inviter, groupId)
    ensures CopyAt(es, |es|, did, groupId).Some? && CopyAt(es, |es|, inviter, groupId).Some?
    ensures CopyAt(es, |es|, did, groupId).value.chain != CopyAt(es, |es|, inviter, groupId).value.chain
  {
    InviteeAgreesIff(es, n, j, inviter, did, groupId);
    UndisturbedDescends(es, j + 1, |es|, did, groupId);
    DescendantLater(es, j + 1, |es|, did, groupId);
    UndisturbedDescends(es, n, |es|, inviter, groupId);
    DescendantLater(es, n, |es|, inviter, groupId);
  }
}
