/**
 What a re-initialisation leaves behind: its commits are never handed out, so whoever joins by its k-th Welcome, unless it is
 the last, is out of reach of everybody else's commits in epoch k, and of the administrator's final state.
*/
module MlsStranded {
  import opened Wrappers
  import opened MlsGroups
  import opened MlsSteps
  import opened MlsReinit
  import opened MlsAccounts
  import opened MlsReplicas
  import opened MlsDelivery

  function ChainOf(m: Message): Chain {
    match m
    case Commit(parent, _) => parent
    case Leave(context, _) => context
    case Application(context, _, _, _) => context
    case Welcome(chain, _, _, _, _) => chain
  }

  // ---- Where a root comes from ----

  /** The event starts a group with this root: its id, its creator and the creator's fresh secrets. */
  predicate CreatesRoot(w: World, e: Event, root: Chain) {
    match e
    case Act(actor, CreateGroup(groupId, nonce)) => root == Chain(groupId, actor, nonce, [])
    case Act(actor, Reinitialize(groupId, _, nonce, _)) =>
      root == Chain(NewGroupId(groupId, EpochOr0(GroupsOf(w, actor), groupId)), actor, nonce, [])
    case _ => false
  }

  predicate RootlessGroups(groups: Groups, root: Chain) {
    forall groupId :: groupId in groups ==> Root(groups[groupId].chain) != root
  }

  predicate RootlessMessages(ms: set<Message>, root: Chain) {
    forall m :: m in ms ==> Root(ChainOf(m)) != root
  }

  predicate Rootless(w: World, root: Chain) {
    RootlessMessages(w.sent, root) && forall did :: did in w.accounts ==> RootlessGroups(w.accounts[did].groups, root)
  }

  /** A step on a group, and what it sends, stay with the root of the group. */
  lemma GroupStepRoot(g: Group, op: Op)
    requires OnGroup(op)
    ensures var (h, answer) := GroupStep(g, op);
      Root(h.chain) == Root(g.chain) && forall m :: m in Sent(answer) ==> Root(ChainOf(m)) == Root(g.chain)
  {
  }

  lemma RebuiltRoot(self: Did, groups: Groups, op: Op)
    requires op.Reinitialize?
    ensures var p := Rebuilt(self, groups, op);
      var root := Chain(NewGroupId(op.groupId, EpochOr0(groups, op.groupId)), self, op.nonce, []);
      Root(p.group.chain) == root && forall w :: w in p.welcomes ==> Root(ChainOf(w.1)) == root
  {
    var names := Names(MembersOrNone(groups, op.groupId), self, op.keyPackages);
    ReinitialisedGroup(NewGroupId(op.groupId, EpochOr0(groups, op.groupId)), self, op.nonce,
                       MembersOrNone(groups, op.groupId), op.keyPackages, op.nonces);
    var p := Rebuilt(self, groups, op);
    forall w | w in p.welcomes ensures Root(ChainOf(w.1)) == Root(p.group.chain) {
      var i :| 0 <= i < |p.welcomes| && p.welcomes[i] == w;
      assert WelcomeIs(p, names, i + 1);
    }
  }

  lemma StepOnGroupRootless(groups: Groups, op: Op, root: Chain)
    requires OnGroup(op) && RootlessGroups(groups, root)
    ensures var (after, answer) := StepOnGroup(groups, op);
      RootlessGroups(after, root) && RootlessMessages(Sent(answer), root)
  {
    if op.groupId in groups {
      GroupStepRoot(groups[op.groupId], op);
    }
  }

  lemma OperationRootless(w: World, actor: Did, op: Op, root: Chain)
    requires RootlessGroups(GroupsOf(w, actor), root) && !CreatesRoot(w, Act(actor, op), root)
    requires Receives(op) ==> Root(ChainOf(op.message)) != root
    ensures var (after, answer) := Step(actor, AccountOf(w, actor), op);
      RootlessGroups(after.groups, root) && RootlessMessages(Sent(answer), root)
  {
    if op.Reinitialize? {
      RebuiltRoot(actor, GroupsOf(w, actor), op);
    } else if OnGroup(op) {
      StepOnGroupRootless(GroupsOf(w, actor), op, root);
    }
  }

  lemma ActRootless(w: World, actor: Did, op: Op, root: Chain)
    requires Rootless(w, root) && !CreatesRoot(w, Act(actor, op), root) && (Receives(op) ==> op.message in w.sent)
    ensures Rootless(Next(w, Act(actor, op)), root)
  {
    OperationRootless(w, actor, op, root);
  }

  /** Nobody starts a group with this root before event `n`. */
  predicate NotCreatedBefore(es: seq<Event>, n: nat, root: Chain)
    requires n <= |es|
  {
    forall k :: 0 <= k < n ==> !CreatesRoot(After(es[..k]), es[k], root)
  }

  /** After none of the first `n` events there is a group or message with this root. */
  predicate RootlessUpTo(es: seq<Event>, n: nat, root: Chain)
    requires n <= |es|
  {
    Rootless(After(es[..n]), root) && (n != 0 ==> RootlessUpTo(es, n - 1, root))
  }

  lemma {:induction false} RootlessAt(es: seq<Event>, n: nat, root: Chain, k: nat)
    requires k <= n <= |es| && RootlessUpTo(es, n, root)
    ensures Rootless(After(es[..k]), root)
  {
    if k < n {
      RootlessAt(es, n - 1, root, k);
    }
  }

  lemma {:induction false} RootlessBefore(es: seq<Event>, n: nat, root: Chain)
    requires Run(es) && n <= |es| && NotCreatedBefore(es, n, root)
    ensures RootlessUpTo(es, n, root)
  {
    if n == 0 {
      assert es[..n] == [];
    } else {
      var k := n - 1;
      RootlessBefore(es, k, root);
      RootlessNext(es, k, root);
      RootlessOnceMore(es, k, root);
    }
  }

  lemma {:induction false} RootlessOnceMore(es: seq<Event>, m: nat, root: Chain)
    requires m < |es| && RootlessUpTo(es, m, root) && Rootless(After(es[..m + 1]), root)
    ensures RootlessUpTo(es, m + 1, root)
  {
  }

  lemma {:induction false} RootlessNext(es: seq<Event>, m: nat, root: Chain)
    requires Run(es) && m < |es| && !CreatesRoot(After(es[..m]), es[m], root) && RootlessUpTo(es, m, root)
    ensures Rootless(After(es[..m + 1]), root)
  {
    AfterNext(es, m);
    PossibleAt(es, m);
    if es[m].Act? {
      ActRootless(After(es[..m]), es[m].actor, es[m].op, root);
    } else {
      var i := SavedAt(es, m);
      RootlessAt(es, m, root, i);
      RestartRootless(After(es[..m]), After(es[..i]), es[m].actor, root);
    }
  }

  lemma RestartRootless(w: World, earlier: World, actor: Did, root: Chain)
    requires Rootless(w, root) && Rootless(earlier, root)
    ensures Rootless(Next(w, Restart(actor, AccountOf(earlier, actor))), root)
  {
  }

  // ---- A beginning of the final history ----

  /** A group in an earlier epoch of this history belongs to the member who joined it there. */
  predicate GroupStranded(g: Group, final: Chain) {
    forall k :: 0 <= k < |final.changes| && g.chain == Prefix(final, k) ==> k >= 1 && g.leaf == k
  }

  /** Commits to an earlier epoch, and Welcomes into it, are by and for that member. */
  predicate MessageStranded(m: Message, final: Chain) {
    forall k :: 0 <= k < |final.changes| && ChainOf(m) == Prefix(final, k) ==>
      k >= 1 && (m.Commit? ==> m.change.committer == k) && (m.Welcome? ==> m.leaf == k)
  }

  predicate GroupsStranded(groups: Groups, final: Chain) {
    forall groupId :: groupId in groups ==> GroupStranded(groups[groupId], final)
  }

  predicate MessagesStranded(ms: set<Message>, final: Chain) {
    forall m :: m in ms ==> MessageStranded(m, final)
  }

  predicate Stranded(w: World, final: Chain) {
    MessagesStranded(w.sent, final) && forall did :: did in w.accounts ==> GroupsStranded(w.accounts[did].groups, final)
  }

  /** Nobody but the administrator goes on along this history: the next commit of it is not that of the member there. */
  lemma NotAlong(chain: Chain, c: Change, final: Chain, k: nat)
    requires ByAdministrator(final) && k < |final.changes| && Extended(chain, c) == Prefix(final, k)
    ensures k >= 1 && chain == Prefix(final, k - 1) && c.committer == 0
  {
    assert Extended(chain, c).changes[|chain.changes|] == c;
    assert chain.changes == Extended(chain, c).changes[..|chain.changes|];
    assert chain == Prefix(final, k - 1);
  }

  lemma ExtendedStranded(g: Group, c: Change, final: Chain)
    requires ByAdministrator(final) && GroupStranded(g, final)
    requires c.committer == g.leaf || MessageStranded(Commit(g.chain, c), final)
    ensures forall k :: 0 <= k < |final.changes| ==> Extended(g.chain, c) != Prefix(final, k)
  {
    forall k | 0 <= k < |final.changes| ensures Extended(g.chain, c) != Prefix(final, k) {
      if Extended(g.chain, c) == Prefix(final, k) {
        NotAlong(g.chain, c, final, k);
        assert false;
      }
    }
  }

  lemma ChangeStranded(g: Group, c: Change, final: Chain)
    requires ByAdministrator(final) && GroupStranded(g, final) && c.committer == g.leaf
    ensures GroupStranded(Advanced(g, c), final) && MessagesStranded(Sent(Ok(CommittedWith(g, c))), final)
  {
    ExtendedStranded(g, c, final);
  }

  lemma GroupStepStranded(self: Did, g: Group, op: Op, final: Chain)
    requires OnGroup(op) && GroupOk(self, op.groupId, g)
    requires ByAdministrator(final) && GroupStranded(g, final) && (op.ProcessMessage? ==> MessageStranded(op.message, final))
    ensures var (h, answer) := GroupStep(g, op); GroupStranded(h, final) && MessagesStranded(Sent(answer), final)
  {
    match op
    case AddMember(_, invitee, nonce) =>
      ChangeStranded(g, NewChange(g, Some(invitee), {}, nonce), final);
    case AddMemberDeferred(_, invitee, nonce) =>
      ChangeStranded(g, NewChange(g, Some(invitee), {}, nonce), final);
    case RemoveMember(_, leaf, nonce) =>
      ChangeStranded(g, NewChange(g, None, {leaf}, nonce), final);
    case SelfUpdate(_, nonce) =>
      ChangeStranded(g, NewChange(g, None, {}, nonce), final);
    case CommitPendingProposals(_, nonce) =>
      ChangeStranded(g, NewChange(g, None, {}, nonce), final);
    case _ =>
      OtherStepStranded(self, g, op, final);
  }

  lemma OtherStepStranded(self: Did, g: Group, op: Op, final: Chain)
    requires op.ConfirmAddMember? || op.CancelAddMember? || op.LeaveGroup? || op.EncryptMessage? || op.ProcessMessage?
    requires GroupOk(self, op.groupId, g)
    requires ByAdministrator(final) && GroupStranded(g, final) && (op.ProcessMessage? ==> MessageStranded(op.message, final))
    ensures var (h, answer) := GroupStep(g, op); GroupStranded(h, final) && MessagesStranded(Sent(answer), final)
  {
    if op.ConfirmAddMember? && g.pending.Some? {
      ChangeStranded(g, g.pending.value, final);
    }
    if op.ProcessMessage? && Accepts(g, op.message) {
      ReceivedStranded(g, op.message, final);
    }
  }

  lemma ReceivedStranded(g: Group, m: Message, final: Chain)
    requires Accepts(g, m) && ByAdministrator(final) && GroupStranded(g, final) && MessageStranded(m, final)
    ensures GroupStranded(Received(g, m).0, final) && Sent(Received(g, m).1) == {}
  {
    if m.Commit? {
      ExtendedStranded(g, m.change, final);
    }
  }

  lemma OtherRootStranded(g: Group, final: Chain)
    requires Root(g.chain) != Root(final)
    ensures GroupStranded(g, final)
  {
    assert forall k :: 0 <= k < |final.changes| ==> Root(Prefix(final, k)) == Root(final);
  }

  lemma OtherRootMessageStranded(m: Message, final: Chain)
    requires Root(ChainOf(m)) != Root(final)
    ensures MessageStranded(m, final)
  {
    assert forall k :: 0 <= k < |final.changes| ==> Root(Prefix(final, k)) == Root(final);
  }

  lemma RootlessIsStranded(w: World, final: Chain)
    requires Rootless(w, Root(final))
    ensures Stranded(w, final)
  {
    forall m | m in w.sent ensures MessageStranded(m, final) {
      OtherRootMessageStranded(m, final);
    }
    forall did, groupId | did in w.accounts && groupId in w.accounts[did].groups
      ensures GroupStranded(w.accounts[did].groups[groupId], final)
    {
      OtherRootStranded(w.accounts[did].groups[groupId], final);
    }
  }

  lemma StepOnGroupStranded(self: Did, groups: Groups, op: Op, final: Chain)
    requires OnGroup(op) && GroupsOk(self, groups)
    requires ByAdministrator(final) && GroupsStranded(groups, final)
    requires op.ProcessMessage? ==> MessageStranded(op.message, final)
    ensures var (after, answer) := StepOnGroup(groups, op);
      GroupsStranded(after, final) && MessagesStranded(Sent(answer), final)
  {
    if op.groupId in groups {
      GroupStepStranded(self, groups[op.groupId], op, final);
    }
  }

  lemma OperationStranded(w: World, actor: Did, op: Op, final: Chain)
    requires GroupsOk(actor, GroupsOf(w, actor)) && GroupsStranded(GroupsOf(w, actor), final) && ByAdministrator(final)
    requires !CreatesRoot(w, Act(actor, op), Root(final)) && (Receives(op) ==> MessageStranded(op.message, final))
    ensures var (after, answer) := Step(actor, AccountOf(w, actor), op);
      GroupsStranded(after.groups, final) && MessagesStranded(Sent(answer), final)
  {
    if op.Reinitialize? {
      ReinitializeElsewhere(actor, GroupsOf(w, actor), op, final);
    } else if op.CreateGroup? {
      OtherRootStranded(Created(op.groupId, actor, op.nonce), final);
    } else if OnGroup(op) {
      StepOnGroupStranded(actor, GroupsOf(w, actor), op, final);
    }
  }

  lemma ActStranded(w: World, actor: Did, op: Op, final: Chain)
    requires Inv(w) && Stranded(w, final) && ByAdministrator(final)
    requires !CreatesRoot(w, Act(actor, op), Root(final)) && (Receives(op) ==> op.message in w.sent)
    ensures Stranded(Next(w, Act(actor, op)), final)
  {
    OperationStranded(w, actor, op, final);
  }

  lemma ReinitializeElsewhere(self: Did, groups: Groups, op: Op, final: Chain)
    requires op.Reinitialize?
    requires Chain(NewGroupId(op.groupId, EpochOr0(groups, op.groupId)), self, op.nonce, []) != Root(final)
    ensures GroupStranded(Rebuilt(self, groups, op).group, final)
    ensures forall w :: w in Rebuilt(self, groups, op).welcomes ==> MessageStranded(w.1, final)
  {
    var p := Rebuilt(self, groups, op);
    RebuiltRoot(self, groups, op);
    OtherRootStranded(p.group, final);
    forall w | w in p.welcomes ensures MessageStranded(w.1, final) {
      OtherRootMessageStranded(w.1, final);
    }
  }

  /** The re-initialisation itself: its group is at the end, and its k-th Welcome is for leaf k. */
  lemma RebuiltStrands(actor: Did, groups: Groups, op: Op)
    requires op.Reinitialize?
    ensures var p := Rebuilt(actor, groups, op);
      && ByAdministrator(p.group.chain) && GroupStranded(p.group, p.group.chain)
      && forall m :: m in p.welcomes ==> MessageStranded(m.1, p.group.chain)
  {
    var p := Rebuilt(actor, groups, op);
    var newId, members := NewGroupId(op.groupId, EpochOr0(groups, op.groupId)), MembersOrNone(groups, op.groupId);
    var names := Names(members, actor, op.keyPackages);
    ReinitialisedGroup(newId, actor, op.nonce, members, op.keyPackages, op.nonces);
    assert Accomplished(p, names);
    forall m | m in p.welcomes ensures MessageStranded(m.1, p.group.chain) {
      var i :| 0 <= i < |p.welcomes| && p.welcomes[i] == m;
      WelcomeStranded(p, names, i + 1);
    }
    AtTheEnd(p.group);
  }

  lemma AtTheEnd(g: Group)
    ensures GroupStranded(g, g.chain)
  {
    assert forall k :: 0 <= k < |g.chain.changes| ==> |Prefix(g.chain, k).changes| == k;
  }

  lemma WelcomeStranded(p: Progress, names: seq<Did>, k: nat)
    requires Accomplished(p, names) && 1 <= k <= |p.welcomes|
    ensures MessageStranded(p.welcomes[k - 1].1, p.group.chain)
  {
    assert WelcomeIs(p, names, k);
    assert forall j :: 0 <= j <= |p.group.chain.changes| ==> |Prefix(p.group.chain, j).changes| == j;
  }

  lemma ReinitializationStrands(w: World, actor: Did, op: Op, final: Chain)
    requires op.Reinitialize? && final == Rebuilt(actor, GroupsOf(w, actor), op).group.chain && Stranded(w, final)
    ensures Stranded(Next(w, Act(actor, op)), final) && ByAdministrator(final)
  {
    RebuiltStrands(actor, GroupsOf(w, actor), op);
  }

  // ---- Runs with one re-initialisation in view ----

  /** Event `n` is a re-initialisation that builds the history `final`, whose root nobody else creates. */
  predicate Reinitializes(es: seq<Event>, n: nat, final: Chain) {
    && n < |es| && es[n].Act? && es[n].op.Reinitialize?
    && Rebuilt(es[n].actor, GroupsOf(After(es[..n]), es[n].actor), es[n].op).group.chain == final
    && NotCreatedElsewhere(es, n, Root(final))
  }

  predicate NotCreatedElsewhere(es: seq<Event>, n: nat, root: Chain) {
    forall k :: 0 <= k < |es| && k != n ==> !CreatesRoot(After(es[..k]), es[k], root)
  }

  predicate RunWith(es: seq<Event>, n: nat, final: Chain) {
    Run(es) && Reinitializes(es, n, final)
  }

  predicate StrandedUpTo(es: seq<Event>, n: nat, final: Chain)
    requires n <= |es|
  {
    Stranded(After(es[..n]), final) && (n != 0 ==> StrandedUpTo(es, n - 1, final))
  }

  lemma {:induction false} StrandedAt(es: seq<Event>, n: nat, final: Chain, k: nat)
    requires k <= n <= |es| && StrandedUpTo(es, n, final)
    ensures Stranded(After(es[..k]), final)
  {
    if k < n {
      StrandedAt(es, n - 1, final, k);
    }
  }

  lemma {:induction false} StrandedAlways(es: seq<Event>, n: nat, final: Chain, m: nat)
    requires RunWith(es, n, final) && n < m <= |es|
    ensures ByAdministrator(final) && StrandedUpTo(es, m, final)
  {
    var k := m - 1;
    if k == n {
      BeforeReinitialization(es, k, final);
      ReinitializationAt(es, k, final);
    } else {
      StrandedAlways(es, n, final, k);
      StrandedNext(es, n, final, k);
    }
    StrandedOnceMore(es, k, final);
  }

  lemma {:induction false} StrandedOnceMore(es: seq<Event>, m: nat, final: Chain)
    requires m < |es| && StrandedUpTo(es, m, final) && Stranded(After(es[..m + 1]), final)
    ensures StrandedUpTo(es, m + 1, final)
  {
  }

  lemma {:induction false} BeforeReinitialization(es: seq<Event>, n: nat, final: Chain)
    requires RunWith(es, n, final)
    ensures StrandedUpTo(es, n, final)
  {
    RootlessBefore(es, n, Root(final));
    RootlessUpToIsStranded(es, n, final);
  }

  lemma {:induction false} RootlessUpToIsStranded(es: seq<Event>, n: nat, final: Chain)
    requires n <= |es| && RootlessUpTo(es, n, Root(final))
    ensures StrandedUpTo(es, n, final)
  {
    RootlessIsStranded(After(es[..n]), final);
    if n != 0 {
      RootlessUpToIsStranded(es, n - 1, final);
    }
  }

  lemma {:induction false} ReinitializationAt(es: seq<Event>, n: nat, final: Chain)
    requires Reinitializes(es, n, final) && Stranded(After(es[..n]), final)
    ensures Stranded(After(es[..n + 1]), final) && ByAdministrator(final)
  {
    AfterNext(es, n);
    ReinitializationStrands(After(es[..n]), es[n].actor, es[n].op, final);
  }

  lemma {:induction false} StrandedNext(es: seq<Event>, n: nat, final: Chain, m: nat)
    requires RunWith(es, n, final) && n < m < |es| && ByAdministrator(final) && StrandedUpTo(es, m, final)
    ensures Stranded(After(es[..m + 1]), final)
  {
    AfterNext(es, m);
    PossibleAt(es, m);
    if es[m].Act? {
      InvAlways(es[..m]);
      ActStranded(After(es[..m]), es[m].actor, es[m].op, final);
    } else {
      var i := SavedAt(es, m);
      StrandedAt(es, m, final, i);
      RestartStranded(After(es[..m]), After(es[..i]), es[m].actor, final);
    }
  }

  lemma RestartStranded(w: World, earlier: World, actor: Did, final: Chain)
    requires Stranded(w, final) && Stranded(earlier, final)
    ensures Stranded(Next(w, Restart(actor, AccountOf(earlier, actor))), final)
  {
  }

  /**
   In every run with a re-initialisation, whatever happens afterwards: a handler in an earlier epoch k of the history that
   it built is the member who joined at leaf k, accepts none of the commits ever sent, and cannot reach the final history.
  */
  lemma {:induction false} JoinersStranded(es: seq<Event>, n: nat, final: Chain, did: Did, groupId: GroupId, k: nat)
    requires RunWith(es, n, final) && k < |final.changes|
    requires groupId in GroupsOf(After(es), did) && GroupsOf(After(es), did)[groupId].chain == Prefix(final, k)
    ensures var g := GroupsOf(After(es), did)[groupId];
      && k >= 1 && g.leaf == k && g.epoch == k
      && (forall m :: m in After(es).sent && m.Commit? ==> !Accepts(g, m))
      && !Reaches(g, final, After(es).sent)
  {
    assert es[..|es|] == es;
    StrandedAlways(es, n, final, |es|);
    InvAlways(es);
    var w, g := After(es), GroupsOf(After(es), did)[groupId];
    assert GroupOk(did, groupId, g) && GroupStranded(g, final);
    forall m | m in w.sent && m.Commit? ensures !Accepts(g, m) {
      assert MessageStranded(m, final);
    }
    NextNotHandedOut(w, final, k);
    if Reaches(g, final, w.sent) {
      ReachesOnlyIf(g, final, w.sent);
    }
  }

  /** The next commit of the history, the administrator's, was not handed out. */
  lemma NextNotHandedOut(w: World, final: Chain, k: nat)
    requires Stranded(w, final) && ByAdministrator(final) && k < |final.changes|
    ensures Commit(Prefix(final, k), final.changes[k]) !in w.sent
  {
    assert ChainOf(Commit(Prefix(final, k), final.changes[k])) == Prefix(final, k);
  }
}
