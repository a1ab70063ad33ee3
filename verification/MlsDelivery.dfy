/**
 Delivery: when a replica that lags behind can catch up with another one from the messages that were sent.
*/
module MlsDelivery {
  import opened Wrappers
  import opened MlsGroups
  import opened MlsSteps
  import opened MlsReinit
  import opened MlsAccounts
  import opened MlsReplicas

  // ---- Processing a history ----

  /** A group processes messages one after another. */
  function Processed(g: Group, ms: seq<Message>): Group {
    if ms == [] then g else
    var h := Processed(g, ms[..|ms| - 1]);
    GroupStep(h, ProcessMessage(h.chain.groupId, ms[|ms| - 1])).0
  }

  /** A commit of this history, from the `k`-th on, or a leave proposal that one of these commits refers to. */
  predicate Belongs(m: Message, chain: Chain, k: nat) {
    || (m.Commit? && exists j :: k <= j < |chain.changes| && m == Commit(Prefix(chain, j), chain.changes[j]))
    || (m.Leave? && exists j :: k <= j < |chain.changes| && m.context == Prefix(chain, j)
                                && m.leaver in chain.changes[j].referenced)
  }

  /** The group has merged the first `k` commits of the history, and takes part in it as a receiver from there on. */
  predicate Follows(g: Group, chain: Chain, k: nat) {
    && k <= |chain.changes| && g.active && g.chain == Prefix(chain, k) && g.tree == Replay(g.chain)
    && forall j :: k <= j < |chain.changes| ==> g.leaf != chain.changes[j].committer && g.leaf !in Gone(chain.changes[j])
  }

  lemma {:induction false} PrefixValid(chain: Chain, k: nat)
    requires ValidChain(chain) && k < |chain.changes|
    ensures ValidChange(Replay(Prefix(chain, k)), chain.changes[k])
    ensures Prefix(chain, k + 1) == Extended(Prefix(chain, k), chain.changes[k])
    decreases |chain.changes|
  {
    if k == |chain.changes| - 1 {
      assert Before(chain) == Prefix(chain, k);
    } else {
      PrefixValid(Before(chain), k);
      assert Prefix(Before(chain), k) == Prefix(chain, k);
    }
  }

  /** The proposals of the next commit arrive, in any order. */
  lemma {:induction false} ReceiveProposals(g: Group, chain: Chain, k: nat, leaves: set<Leaf>) returns (ms: seq<Message>)
    requires Follows(g, chain, k) && k < |chain.changes| && leaves <= chain.changes[k].referenced
    ensures Processed(g, ms) == g.(proposals := g.proposals + leaves)
    ensures forall m :: m in ms ==> Belongs(m, chain, k)
  {
    if leaves == {} {
      ms := [];
      assert g.(proposals := g.proposals + {}) == g;
    } else {
      var leaf :| leaf in leaves;
      var rest := ReceiveProposals(g, chain, k, leaves - {leaf});
      var m := Leave(Prefix(chain, k), leaf);
      ms := rest + [m];
      assert ms[..|ms| - 1] == rest;
      assert leaf in Gone(chain.changes[k]);
      ProposalStored(g.(proposals := g.proposals + (leaves - {leaf})), leaf);
      assert g.proposals + (leaves - {leaf}) + {leaf} == g.proposals + leaves;
    }
  }

  lemma ProposalStored(g: Group, leaf: Leaf)
    requires g.active && leaf != g.leaf
    ensures GroupStep(g, ProcessMessage(g.chain.groupId, Leave(g.chain, leaf))).0 == Proposing(g, leaf)
  {
  }

  lemma ReceiveCommit(g: Group, chain: Chain, k: nat) returns (ms: seq<Message>)
    requires ValidChain(chain) && Follows(g, chain, k) && k < |chain.changes|
    ensures Follows(Processed(g, ms), chain, k + 1)
    ensures forall m :: m in ms ==> Belongs(m, chain, k)
  {
    var c := chain.changes[k];
    var proposals := ReceiveProposals(g, chain, k, c.referenced);
    var m := Commit(Prefix(chain, k), c);
    ms := proposals + [m];
    assert ms[..|ms| - 1] == proposals;
    PrefixValid(chain, k);
    ReplayExtended(g.chain, c);
    var h := Processed(g, proposals);
    assert Accepts(h, m);
  }

  lemma {:induction false} ProcessedInTwo(g: Group, a: seq<Message>, b: seq<Message>)
    ensures Processed(g, a + b) == Processed(Processed(g, a), b)
  {
    if b == [] {
      assert a + b == a;
    } else {
      ProcessedInTwo(g, a, b[..|b| - 1]);
      assert (a + b)[..|a + b| - 1] == a + b[..|b| - 1];
    }
  }

  /**
   A replica that lags behind any valid history, made no commit after that point and is not removed in it, catches up by
   processing that history's commits and the leave proposals they refer to; it then has its epoch and members.
  */
  lemma {:induction false} CatchesUp(g: Group, chain: Chain, k: nat) returns (ms: seq<Message>)
    requires ValidChain(chain) && Follows(g, chain, k)
    ensures Processed(g, ms).active && Processed(g, ms).chain == chain && Processed(g, ms).tree == Replay(chain)
    ensures forall m :: m in ms ==> Belongs(m, chain, k)
    decreases |chain.changes| - k
  {
    if k == |chain.changes| {
      ms := [];
      assert Prefix(chain, k) == chain;
    } else {
      var first := ReceiveCommit(g, chain, k);
      var rest := CatchesUp(Processed(g, first), chain, k + 1);
      ProcessedInTwo(g, first, rest);
      ms := first + rest;
    }
  }

  /** Reaching a history as an active member takes every missing commit, none of them own, none removing the member. */
  lemma {:induction false} ReachedThrough(g: Group, ms: seq<Message>)
    requires Processed(g, ms).active
    ensures var chain := Processed(g, ms).chain;
      && g.active && IsPrefix(g.chain, chain) && Processed(g, ms).leaf == g.leaf
      && forall j :: |g.chain.changes| <= j < |chain.changes| ==> PassedThrough(g.leaf, chain, j, ms)
  {
    if ms != [] {
      var h, m := Processed(g, ms[..|ms| - 1]), ms[|ms| - 1];
      OneMessage(h, m);
      ReachedThrough(g, ms[..|ms| - 1]);
      var chain := Processed(g, ms).chain;
      forall j | |g.chain.changes| <= j < |chain.changes| ensures PassedThrough(g.leaf, chain, j, ms) {
        if j < |h.chain.changes| {
          assert PassedThrough(g.leaf, h.chain, j, ms[..|ms| - 1]);
          assert Prefix(chain, j) == Prefix(h.chain, j);
        } else {
          assert Prefix(chain, j) == h.chain && m in ms;
        }
      }
    }
  }

  /** Commit `j` of the history is among the messages, and neither by the owner of the leaf nor removing it. */
  predicate PassedThrough(leaf: Leaf, chain: Chain, j: nat, ms: seq<Message>)
    requires j < |chain.changes|
  {
    var c := chain.changes[j];
    Commit(Prefix(chain, j), c) in ms && leaf != c.committer && leaf !in Gone(c)
  }

  /** One message extends the history by the commit it carries, or not at all. */
  lemma OneMessage(h: Group, m: Message)
    ensures var t := GroupStep(h, ProcessMessage(h.chain.groupId, m)).0;
      && t.leaf == h.leaf && (t.active ==> h.active)
      && (t.chain == h.chain
          || (m.Commit? && m.parent == h.chain && t.chain == Extended(h.chain, m.change)
              && h.leaf != m.change.committer && (t.active ==> h.leaf !in Gone(m.change))))
  {
  }

  // ---- The proposals that commits refer to have been sent ----

  predicate ReferencesSent(parent: Chain, c: Change, sent: set<Message>) {
    forall leaf :: leaf in c.referenced ==> Leave(parent, leaf) in sent
  }

  predicate HistorySent(chain: Chain, sent: set<Message>) {
    forall k :: 0 <= k < |chain.changes| ==> ReferencesSent(Prefix(chain, k), chain.changes[k], sent)
  }

  predicate GroupBacked(g: Group, sent: set<Message>) {
    && HistorySent(g.chain, sent)
    && (forall leaf :: leaf in g.proposals ==> Leave(g.chain, leaf) in sent)
    && (g.pending.Some? ==> ReferencesSent(g.chain, g.pending.value, sent))
  }

  predicate MessageBacked(m: Message, sent: set<Message>) {
    match m
    case Commit(parent, c) => HistorySent(parent, sent) && ReferencesSent(parent, c, sent)
    case Leave(context, _) => HistorySent(context, sent)
    case Application(context, _, _, _) => HistorySent(context, sent)
    case Welcome(chain, _, _, _, _) => HistorySent(chain, sent)
  }

  predicate GroupsBacked(groups: Groups, sent: set<Message>) {
    forall groupId :: groupId in groups ==> GroupBacked(groups[groupId], sent)
  }

  predicate MessagesBacked(ms: set<Message>, sent: set<Message>) {
    forall m :: m in ms ==> MessageBacked(m, sent)
  }

  predicate Backed(w: World) {
    MessagesBacked(w.sent, w.sent) && forall did :: did in w.accounts ==> GroupsBacked(w.accounts[did].groups, w.sent)
  }

  lemma HistoryExtended(chain: Chain, c: Change, sent: set<Message>)
    requires HistorySent(chain, sent) && ReferencesSent(chain, c, sent)
    ensures HistorySent(Extended(chain, c), sent)
  {
    var longer := Extended(chain, c);
    forall k | 0 <= k < |longer.changes| ensures ReferencesSent(Prefix(longer, k), longer.changes[k], sent) {
      if k < |chain.changes| {
        assert Prefix(longer, k) == Prefix(chain, k);
      } else {
        assert Prefix(longer, k) == chain;
      }
    }
  }

  lemma AdvancedBacked(g: Group, c: Change, sent: set<Message>)
    requires GroupBacked(g, sent) && ReferencesSent(g.chain, c, sent)
    ensures GroupBacked(Advanced(g, c), sent)
  {
    HistoryExtended(g.chain, c, sent);
  }

  lemma CommittedBacked(g: Group, c: Change, sent: set<Message>)
    requires GroupBacked(g, sent) && c.referenced <= g.proposals
    ensures ReferencesSent(g.chain, c, sent) && MessagesBacked(Sent(Ok(CommittedWith(g, c))), sent)
  {
    HistoryExtended(g.chain, c, sent);
  }

  lemma CommitNowBacked(g: Group, c: Change, refusal: Error, sent: set<Message>)
    requires GroupBacked(g, sent) && c.referenced <= g.proposals
    ensures var (h, answer) := CommitNow(g, c, refusal); GroupBacked(h, sent) && MessagesBacked(Sent(answer), sent)
  {
    if Committable(g, c) {
      CommittedBacked(g, c, sent);
      AdvancedBacked(g, c, sent);
    }
  }

  lemma GroupStepBacked(g: Group, op: Op, sent: set<Message>)
    requires OnGroup(op) && GroupBacked(g, sent) && Sent(GroupStep(g, op).1) <= sent
    requires op.ProcessMessage? ==> op.message in sent && MessageBacked(op.message, sent)
    ensures var (h, answer) := GroupStep(g, op); GroupBacked(h, sent) && MessagesBacked(Sent(answer), sent)
  {
    match op
    case AddMember(groupId, invitee, nonce) =>
      CommitNowBacked(g, NewChange(g, Some(invitee), {}, nonce), CommitFailed, sent);
    case RemoveMember(groupId, leaf, nonce) =>
      CommitNowBacked(g, NewChange(g, None, {leaf}, nonce), CommitFailed, sent);
    case SelfUpdate(groupId, nonce) =>
      CommitNowBacked(g, NewChange(g, None, {}, nonce), GroupFailed, sent);
    case CommitPendingProposals(groupId, nonce) =>
      CommitNowBacked(g, NewChange(g, None, {}, nonce), CommitFailed, sent);
    case ProcessMessage(groupId, message) =>
      if Accepts(g, message) && message.Commit? {
        AdvancedBacked(g, message.change, sent);
      }
    case _ =>
      StagingBacked(g, op, sent);
  }

  lemma StagingBacked(g: Group, op: Op, sent: set<Message>)
    requires op.AddMemberDeferred? || op.ConfirmAddMember? || op.CancelAddMember? || op.LeaveGroup? || op.EncryptMessage?
    requires GroupBacked(g, sent) && Sent(GroupStep(g, op).1) <= sent
    ensures var (h, answer) := GroupStep(g, op); GroupBacked(h, sent) && MessagesBacked(Sent(answer), sent)
  {
    match op
    case AddMemberDeferred(_, invitee, nonce) =>
      var c := NewChange(g, Some(invitee), {}, nonce);
      if Committable(g, c) {
        CommittedBacked(g, c, sent);
      }
    case ConfirmAddMember(_) =>
      if g.pending.Some? {
        AdvancedBacked(g, g.pending.value, sent);
      }
    case LeaveGroup(_) =>
      assert Leave(g.chain, g.leaf) in Sent(Ok(Proposed(Leave(g.chain, g.leaf))));
    case _ =>
  }

  predicate ProgressBacked(p: Progress, sent: set<Message>) {
    GroupBacked(p.group, sent) && forall w :: w in p.welcomes ==> MessageBacked(w.1, sent)
  }

  lemma InvitedBacked(p: Progress, member: Did, keyPackages: KeyPackages, nonce: nat, sent: set<Message>)
    requires ProgressBacked(p, sent)
    ensures ProgressBacked(Invited(p, member, keyPackages, nonce), sent)
  {
    if Listed(member, p.group.self, keyPackages) {
      var c := NewChange(p.group, Some(keyPackages[member]), {}, nonce);
      CommitNowBacked(p.group, c, CommitFailed, sent);
      assert WelcomeFor(p.group, c) in Sent(Ok(CommittedWith(p.group, c)));
    }
  }

  lemma {:induction false} InvitedAllBacked(p: Progress, members: seq<Did>, keyPackages: KeyPackages, nonces: seq<nat>,
      sent: set<Message>)
    requires ProgressBacked(p, sent)
    ensures ProgressBacked(InvitedAll(p, members, keyPackages, nonces), sent)
  {
    if members != [] {
      var init := members[..|members| - 1];
      InvitedAllBacked(p, init, keyPackages, nonces, sent);
      InvitedBacked(InvitedAll(p, init, keyPackages, nonces), members[|members| - 1], keyPackages,
                    Draw(nonces, |members| - 1), sent);
    }
  }

  lemma OperationBacked(self: Did, a: Account, op: Op, sent: set<Message>)
    requires GroupsBacked(a.groups, sent) && Sent(Step(self, a, op).1) <= sent
    requires Receives(op) ==> op.message in sent && MessageBacked(op.message, sent)
    ensures var (after, answer) := Step(self, a, op); GroupsBacked(after.groups, sent) && MessagesBacked(Sent(answer), sent)
  {
    match op
    case GenerateKeyPackage(_) =>
    case CreateGroup(_, _) =>
    case JoinFromWelcome(_) =>
    case RemoveGroup(_) =>
    case Reinitialize(groupId, _, nonce, _) =>
      var start := Start(NewGroupId(groupId, EpochOr0(a.groups, groupId)), self, nonce);
      InvitedAllBacked(start, MembersOrNone(a.groups, groupId), op.keyPackages, op.nonces, sent);
    case _ =>
      StepOnGroupBacked(a.groups, op, sent);
  }

  lemma StepOnGroupBacked(groups: Groups, op: Op, sent: set<Message>)
    requires OnGroup(op) && GroupsBacked(groups, sent) && Sent(StepOnGroup(groups, op).1) <= sent
    requires op.ProcessMessage? ==> op.message in sent && MessageBacked(op.message, sent)
    ensures var (after, answer) := StepOnGroup(groups, op); GroupsBacked(after, sent) && MessagesBacked(Sent(answer), sent)
  {
    if op.groupId in groups {
      GroupStepBacked(groups[op.groupId], op, sent);
    }
  }

  /** More messages can only help. */
  lemma MoreSent(w: World, more: set<Message>)
    requires Backed(w) && w.sent <= more
    ensures MessagesBacked(w.sent, more) && forall did :: did in w.accounts ==> GroupsBacked(w.accounts[did].groups, more)
  {
    forall chain | HistorySent(chain, w.sent) ensures HistorySent(chain, more) {
    }
  }

  lemma {:induction false} SentGrows(es: seq<Event>, n: nat)
    requires n <= |es|
    ensures After(es[..n]).sent <= After(es).sent
  {
    if n == |es| {
      assert es[..n] == es;
    } else {
      SentGrows(es[..|es| - 1], n);
      assert es[..|es| - 1][..n] == es[..n];
    }
  }

  lemma ActBacked(w: World, actor: Did, op: Op)
    requires Backed(w) && (Receives(op) ==> op.message in w.sent)
    ensures Backed(Next(w, Act(actor, op)))
  {
    var sent := Next(w, Act(actor, op)).sent;
    MoreSent(w, sent);
    OperationBacked(actor, AccountOf(w, actor), op, sent);
  }

  lemma {:induction false} BackedAlways(es: seq<Event>)
    requires Run(es)
    ensures Backed(After(es))
    decreases |es|, 0
  {
    if es != [] {
      var before, e := es[..|es| - 1], es[|es| - 1];
      BackedAlways(before);
      if e.Act? {
        ActBacked(After(before), e.actor, e.op);
      } else {
        SavedBacked(before, e.actor, e.saved);
      }
    }
  }

  lemma {:induction false} SavedBacked(before: seq<Event>, actor: Did, saved: Account)
    requires Run(before) && WasSaved(before, actor, saved)
    ensures GroupsBacked(saved.groups, After(before).sent)
    decreases |before|, 1
  {
    var n :| 0 <= n <= |before| && saved == AccountOf(After(before[..n]), actor);
    RunPrefix(before, n);
    BackedAlways(before[..n]);
    SentGrows(before, n);
    MoreSent(After(before[..n]), After(before).sent);
  }

  // ---- Who can catch up ----

  /** Every commit of the history from the `k`-th on was handed out. */
  predicate HandedOut(chain: Chain, k: nat, sent: set<Message>)
  {
    forall j :: k <= j < |chain.changes| ==> Commit(Prefix(chain, j), chain.changes[j]) in sent
  }

  /** The group can get to this history, its members and an active place in it, by processing messages that were sent. */
  ghost predicate Reaches(g: Group, chain: Chain, sent: set<Message>) {
    exists ms: seq<Message> :: LeadsTo(g, ms, chain) && forall m :: m in ms ==> m in sent
  }

  predicate LeadsTo(g: Group, ms: seq<Message>, chain: Chain) {
    var t := Processed(g, ms);
    t.active && t.chain == chain && t.tree == Replay(chain)
  }

  /**
   In every run, a handler whose history is a beginning of another handler's history can catch up with it, as an active
   member and from the messages sent, if and only if it made none of the missing commits, none removes it, and each of
   them was handed out.
  */
  lemma {:induction false} CatchesUpIff(es: seq<Event>, behind: Did, ahead: Did, groupId: GroupId)
    requires Run(es) && groupId in GroupsOf(After(es), behind) && groupId in GroupsOf(After(es), ahead)
    requires GroupsOf(After(es), behind)[groupId].active
    requires IsPrefix(GroupsOf(After(es), behind)[groupId].chain, GroupsOf(After(es), ahead)[groupId].chain)
    ensures var g, chain := GroupsOf(After(es), behind)[groupId], GroupsOf(After(es), ahead)[groupId].chain;
      Reaches(g, chain, After(es).sent) <==>
        Follows(g, chain, |g.chain.changes|) && HandedOut(chain, |g.chain.changes|, After(es).sent)
  {
    InvAlways(es);
    BackedAlways(es);
    var g, h := GroupsOf(After(es), behind)[groupId], GroupsOf(After(es), ahead)[groupId];
    assert GroupOk(ahead, groupId, h) && GroupOk(behind, groupId, g);
    assert GroupBacked(h, After(es).sent);
    LaggardReachesIff(g, h.chain, After(es).sent);
  }

  lemma LaggardReachesIff(g: Group, chain: Chain, sent: set<Message>)
    requires g.active && g.tree == Replay(g.chain) && IsPrefix(g.chain, chain) && ValidChain(chain) && HistorySent(chain, sent)
    ensures Reaches(g, chain, sent) <==>
      Follows(g, chain, |g.chain.changes|) && HandedOut(chain, |g.chain.changes|, sent)
  {
    assert g.chain == Prefix(chain, |g.chain.changes|);
    if Reaches(g, chain, sent) {
      ReachesOnlyIf(g, chain, sent);
    }
    if Follows(g, chain, |g.chain.changes|) && HandedOut(chain, |g.chain.changes|, sent) {
      ReachesIf(g, chain, sent);
    }
  }

  lemma ReachesOnlyIf(g: Group, chain: Chain, sent: set<Message>)
    requires Reaches(g, chain, sent)
    ensures forall j :: |g.chain.changes| <= j < |chain.changes| ==>
      Commit(Prefix(chain, j), chain.changes[j]) in sent
      && g.leaf != chain.changes[j].committer && g.leaf !in Gone(chain.changes[j])
  {
    var ms: seq<Message> :| LeadsTo(g, ms, chain) && forall m :: m in ms ==> m in sent;
    ReachedThrough(g, ms);
    forall j | |g.chain.changes| <= j < |chain.changes|
      ensures Commit(Prefix(chain, j), chain.changes[j]) in sent
      ensures g.leaf != chain.changes[j].committer && g.leaf !in Gone(chain.changes[j])
    {
      assert PassedThrough(g.leaf, chain, j, ms);
    }
  }

  lemma ReachesIf(g: Group, chain: Chain, sent: set<Message>)
    requires ValidChain(chain) && HistorySent(chain, sent)
    requires Follows(g, chain, |g.chain.changes|) && HandedOut(chain, |g.chain.changes|, sent)
    ensures Reaches(g, chain, sent)
  {
    var ms := CatchesUp(g, chain, |g.chain.changes|);
    forall m | m in ms ensures m in sent {
      BelongingIsSent(m, chain, |g.chain.changes|, sent);
    }
    assert LeadsTo(g, ms, chain);
  }

  lemma BelongingIsSent(m: Message, chain: Chain, k: nat, sent: set<Message>)
    requires Belongs(m, chain, k) && HistorySent(chain, sent) && HandedOut(chain, k, sent)
    ensures m in sent
  {
    if m.Leave? {
      var j :| k <= j < |chain.changes| && m.context == Prefix(chain, j) && m.leaver in chain.changes[j].referenced;
      assert ReferencesSent(Prefix(chain, j), chain.changes[j], sent);
    }
  }
}
