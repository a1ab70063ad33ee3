/**
 Any number of handlers that exchange commits, proposals, application messages and Welcomes over a network that delivers
 messages in any order, any number of times, to anyone, or never. A handler may crash and restart from any state it had
 saved before.
*/
module MlsReplicas {
  import opened Wrappers
  import opened MlsGroups
  import opened MlsSteps
  import opened MlsReinit
  import opened MlsAccounts

  /** What every identity holds, and all messages sent so far. */
  datatype World = World(accounts: map<Did, Account>, sent: set<Message>)

  /** A handler performs an operation, or is restarted from what was saved earlier. */
  datatype Event =
    | Act(actor: Did, op: Op)
    | Restart(actor: Did, saved: Account)

  const EMPTY := World(map[], {})

  function AccountOf(w: World, did: Did): Account {
    if did in w.accounts then w.accounts[did] else NEW
  }

  function GroupsOf(w: World, did: Did): Groups {
    AccountOf(w, did).groups
  }

  function Next(w: World, e: Event): World {
    match e
    case Act(actor, op) =>
      var (account, answer) := Step(actor, AccountOf(w, actor), op);
      World(w.accounts[actor := account], w.sent + Sent(answer))
    case Restart(actor, saved) => w.(accounts := w.accounts[actor := saved])
  }

  function After(es: seq<Event>): World {
    if es == [] then EMPTY else Next(After(es[..|es| - 1]), es[|es| - 1])
  }

  lemma {:induction false} AfterNext(es: seq<Event>, k: nat)
    requires k < |es|
    ensures After(es[..k + 1]) == Next(After(es[..k]), es[k])
  {
    assert es[..k + 1][..k] == es[..k];
  }

  predicate Receives(op: Op) {
    op.ProcessMessage? || op.JoinFromWelcome?
  }

  /** Only messages that were sent can arrive; a restart brings back what the handler had at some earlier point. */
  predicate Possible(before: seq<Event>, e: Event) {
    match e
    case Act(_, op) => Receives(op) ==> op.message in After(before).sent
    case Restart(actor, saved) => WasSaved(before, actor, saved)
  }

  predicate WasSaved(before: seq<Event>, actor: Did, saved: Account) {
    exists n :: 0 <= n <= |before| && saved == AccountOf(After(before[..n]), actor)
  }

  predicate Run(es: seq<Event>) {
    es != [] ==> Run(es[..|es| - 1]) && Possible(es[..|es| - 1], es[|es| - 1])
  }

  lemma {:induction false} RunPrefix(es: seq<Event>, n: nat)
    requires Run(es) && n <= |es|
    ensures Run(es[..n])
  {
    if n == |es| {
      assert es[..n] == es;
    } else {
      RunPrefix(es[..|es| - 1], n);
      assert es[..|es| - 1][..n] == es[..n];
    }
  }

  lemma {:induction false} PossibleAt(es: seq<Event>, k: nat)
    requires Run(es) && k < |es|
    ensures Run(es[..k]) && Possible(es[..k], es[k])
  {
    RunPrefix(es, k + 1);
    assert es[..k + 1][..k] == es[..k];
  }

  /** A restart brings back what the handler held at some point of the run. */
  lemma {:induction false} SavedAt(es: seq<Event>, m: nat) returns (i: nat)
    requires Run(es) && m < |es| && es[m].Restart?
    ensures i <= m && es[m].saved == AccountOf(After(es[..i]), es[m].actor)
  {
    PossibleAt(es, m);
    i :| 0 <= i <= |es[..m]| && es[m].saved == AccountOf(After(es[..m][..i]), es[m].actor);
    assert es[..m][..i] == es[..i];
  }

  // ---- Invariant ----

  predicate GroupOk(self: Did, groupId: GroupId, g: Group) {
    && g.self == self && g.chain.groupId == groupId
    && ValidChain(g.chain) && g.tree == Replay(g.chain) && g.epoch == |g.chain.changes|
    && (forall leaf :: leaf in g.proposals ==> Occupied(g.tree, leaf))
    && (g.active ==> g.leaf < |g.tree| && g.tree[g.leaf] == Some(self))
    && (g.pending.Some? ==> g.active && ValidChange(g.tree, g.pending.value) && g.pending.value.committer == g.leaf)
  }

  predicate MessageOk(m: Message) {
    match m
    case Commit(parent, c) => ValidChain(parent) && ValidChange(Replay(parent), c)
    case Leave(context, leaver) => ValidChain(context) && Occupied(Replay(context), leaver)
    case Application(context, sender, _, _) => ValidChain(context) && Occupied(Replay(context), sender)
    case Welcome(chain, epoch, tree, leaf, invitee) =>
      && ValidChain(chain) && tree == Replay(chain) && epoch == |chain.changes|
      && leaf < |tree| && tree[leaf] == Some(invitee.identity)
  }

  predicate GroupsOk(self: Did, groups: Groups) {
    forall groupId :: groupId in groups ==> GroupOk(self, groupId, groups[groupId])
  }

  predicate MessagesOk(sent: set<Message>) {
    forall m :: m in sent ==> MessageOk(m)
  }

  /** Key packages are those of the handler's own identity. */
  predicate AccountOk(self: Did, a: Account) {
    GroupsOk(self, a.groups) && forall package :: package in a.packages ==> package.identity == self
  }

  predicate Inv(w: World) {
    MessagesOk(w.sent) && forall did :: did in w.accounts ==> AccountOk(did, w.accounts[did])
  }

  lemma AdvancedOk(self: Did, groupId: GroupId, g: Group, c: Change)
    requires GroupOk(self, groupId, g) && ValidChange(g.tree, c)
    ensures GroupOk(self, groupId, Advanced(g, c))
  {
    ReplayExtended(g.chain, c);
    ApplyKeeps(g.tree, c);
    if Advanced(g, c).active {
      assert Occupied(g.tree, g.leaf);
    }
  }

  lemma WelcomeOk(self: Did, groupId: GroupId, g: Group, c: Change)
    requires GroupOk(self, groupId, g) && ValidChange(g.tree, c) && c.added.Some?
    ensures MessageOk(WelcomeFor(g, c))
  {
    ReplayExtended(g.chain, c);
    ApplyKeeps(g.tree, c);
  }

  lemma CommitNowOk(self: Did, groupId: GroupId, g: Group, c: Change, refusal: Error)
    requires GroupOk(self, groupId, g) && c.committer == g.leaf
    ensures var (h, answer) := CommitNow(g, c, refusal); GroupOk(self, groupId, h) && MessagesOk(Sent(answer))
  {
    if Committable(g, c) {
      AdvancedOk(self, groupId, g, c);
      CommittedOk(self, groupId, g, c);
    }
  }

  lemma CommittedOk(self: Did, groupId: GroupId, g: Group, c: Change)
    requires GroupOk(self, groupId, g) && ValidChange(g.tree, c)
    ensures MessagesOk(Sent(Ok(CommittedWith(g, c))))
  {
    if c.added.Some? {
      WelcomeOk(self, groupId, g, c);
    }
  }

  lemma GroupStepOk(self: Did, g: Group, op: Op)
    requires OnGroup(op)
    requires GroupOk(self, op.groupId, g) && (op.ProcessMessage? ==> MessageOk(op.message))
    ensures var (h, answer) := GroupStep(g, op); GroupOk(self, op.groupId, h) && MessagesOk(Sent(answer))
  {
    match op
    case ProcessMessage(groupId, message) =>
      ProcessOk(self, groupId, g, message);
    case AddMemberDeferred(_, _, _) =>
      StagingOk(self, g, op);
    case ConfirmAddMember(_) =>
      StagingOk(self, g, op);
    case CancelAddMember(_) =>
      StagingOk(self, g, op);
    case LeaveGroup(_) =>
      StagingOk(self, g, op);
    case EncryptMessage(_, _) =>
      StagingOk(self, g, op);
    case _ =>
      CommittingOk(self, g, op);
  }

  lemma CommittingOk(self: Did, g: Group, op: Op)
    requires op.AddMember? || op.RemoveMember? || op.SelfUpdate? || op.CommitPendingProposals?
    requires GroupOk(self, op.groupId, g)
    ensures var (h, answer) := GroupStep(g, op); GroupOk(self, op.groupId, h) && MessagesOk(Sent(answer))
  {
    match op
    case AddMember(groupId, invitee, nonce) =>
      CommitNowOk(self, groupId, g, NewChange(g, Some(invitee), {}, nonce), CommitFailed);
    case RemoveMember(groupId, leaf, nonce) =>
      CommitNowOk(self, groupId, g, NewChange(g, None, {leaf}, nonce), CommitFailed);
    case SelfUpdate(groupId, nonce) =>
      CommitNowOk(self, groupId, g, NewChange(g, None, {}, nonce), GroupFailed);
    case CommitPendingProposals(groupId, nonce) =>
      CommitNowOk(self, groupId, g, NewChange(g, None, {}, nonce), CommitFailed);
  }

  lemma StagingOk(self: Did, g: Group, op: Op)
    requires op.AddMemberDeferred? || op.ConfirmAddMember? || op.CancelAddMember? || op.LeaveGroup? || op.EncryptMessage?
    requires GroupOk(self, op.groupId, g)
    ensures var (h, answer) := GroupStep(g, op); GroupOk(self, op.groupId, h) && MessagesOk(Sent(answer))
  {
    match op
    case AddMemberDeferred(groupId, invitee, nonce) =>
      var c := NewChange(g, Some(invitee), {}, nonce);
      if Committable(g, c) {
        CommittedOk(self, groupId, g, c);
      }
    case ConfirmAddMember(groupId) =>
      if g.pending.Some? {
        AdvancedOk(self, groupId, g, g.pending.value);
      }
    case _ =>
  }

  lemma ProcessOk(self: Did, groupId: GroupId, g: Group, m: Message)
    requires GroupOk(self, groupId, g) && MessageOk(m)
    ensures var (h, answer) := GroupStep(g, ProcessMessage(groupId, m)); GroupOk(self, groupId, h) && Sent(answer) == {}
  {
    if Accepts(g, m) {
      ReceivedOk(self, groupId, g, m);
    }
  }

  lemma ReceivedOk(self: Did, groupId: GroupId, g: Group, m: Message)
    requires GroupOk(self, groupId, g) && MessageOk(m) && Accepts(g, m)
    ensures GroupOk(self, groupId, Received(g, m).0) && Sent(Received(g, m).1) == {}
  {
    if m.Commit? {
      AdvancedOk(self, groupId, g, m.change);
    }
  }

  lemma StepOnGroupOk(self: Did, groups: Groups, op: Op)
    requires GroupsOk(self, groups) && OnGroup(op) && (op.ProcessMessage? ==> MessageOk(op.message))
    ensures var (after, answer) := StepOnGroup(groups, op); GroupsOk(self, after) && MessagesOk(Sent(answer))
  {
    if op.groupId in groups {
      GroupStepOk(self, groups[op.groupId], op);
    }
  }

  predicate ProgressOk(self: Did, newId: GroupId, p: Progress) {
    GroupOk(self, newId, p.group) && forall w :: w in p.welcomes ==> MessageOk(w.1)
  }

  lemma InvitedOk(self: Did, newId: GroupId, p: Progress, member: Did, keyPackages: KeyPackages, nonce: nat)
    requires ProgressOk(self, newId, p)
    ensures ProgressOk(self, newId, Invited(p, member, keyPackages, nonce))
  {
    if Listed(member, p.group.self, keyPackages) {
      var op := AddMember(newId, keyPackages[member], nonce);
      GroupStepOk(self, p.group, op);
      var answer := GroupStep(p.group, op).1;
      if answer.Ok? {
        assert answer.value.welcome.value in Sent(answer);
      }
    }
  }

  lemma {:induction false} InvitedAllOk(self: Did, newId: GroupId, p: Progress, members: seq<Did>, keyPackages: KeyPackages,
      nonces: seq<nat>)
    requires ProgressOk(self, newId, p)
    ensures ProgressOk(self, newId, InvitedAll(p, members, keyPackages, nonces))
  {
    if members != [] {
      var init := members[..|members| - 1];
      InvitedAllOk(self, newId, p, init, keyPackages, nonces);
      InvitedOk(self, newId, InvitedAll(p, init, keyPackages, nonces), members[|members| - 1], keyPackages,
                Draw(nonces, |members| - 1));
    }
  }

  lemma ReinitializeOk(self: Did, a: Account, op: Op)
    requires AccountOk(self, a) && op.Reinitialize?
    ensures var (after, answer) := Step(self, a, op); AccountOk(self, after) && MessagesOk(Sent(answer))
  {
    var newId := NewGroupId(op.groupId, EpochOr0(a.groups, op.groupId));
    InvitedAllOk(self, newId, Start(newId, self, op.nonce), MembersOrNone(a.groups, op.groupId), op.keyPackages, op.nonces);
  }

  lemma OperationOk(self: Did, a: Account, op: Op)
    requires AccountOk(self, a)
    requires Receives(op) ==> MessageOk(op.message)
    ensures var (after, answer) := Step(self, a, op); AccountOk(self, after) && MessagesOk(Sent(answer))
  {
    match op
    case CreateGroup(groupId, nonce) =>
      assert GroupOk(self, groupId, Created(groupId, self, nonce));
    case JoinFromWelcome(m) =>
      if Admits(a, m) {
        assert GroupOk(self, m.chain.groupId, Welcomed(m));
      }
    case RemoveGroup(_) =>
    case GenerateKeyPackage(_) =>
    case Reinitialize(_, _, _, _) =>
      ReinitializeOk(self, a, op);
    case _ =>
      StepOnGroupOk(self, a.groups, op);
  }

  lemma ActOk(w: World, actor: Did, op: Op)
    requires Inv(w) && (Receives(op) ==> op.message in w.sent)
    ensures Inv(Next(w, Act(actor, op)))
  {
    OperationOk(actor, AccountOf(w, actor), op);
  }

  lemma RestartOk(w: World, actor: Did, saved: Account)
    requires Inv(w) && AccountOk(actor, saved)
    ensures Inv(Next(w, Restart(actor, saved)))
  {
  }

  lemma {:induction false} InvAlways(es: seq<Event>)
    requires Run(es)
    ensures Inv(After(es))
    decreases |es|, 0
  {
    if es != [] {
      var before, e := es[..|es| - 1], es[|es| - 1];
      InvAlways(before);
      if e.Act? {
        ActOk(After(before), e.actor, e.op);
      } else {
        SavedOk(before, e.actor, e.saved);
        RestartOk(After(before), e.actor, e.saved);
      }
    }
  }

  lemma {:induction false} SavedOk(before: seq<Event>, actor: Did, saved: Account)
    requires Run(before) && WasSaved(before, actor, saved)
    ensures AccountOk(actor, saved)
    decreases |before|, 1
  {
    var n :| 0 <= n <= |before| && saved == AccountOf(After(before[..n]), actor);
    RunPrefix(before, n);
    InvAlways(before[..n]);
  }

  // ---- Agreement ----

  /**
   In every run the member list of a handler is the replay of the commits it merged or inherited through a Welcome, its
   epoch is their number, no member is listed twice, and an active handler lists itself.
  */
  lemma {:induction false} ListIsReplay(es: seq<Event>, did: Did, groupId: GroupId)
    requires Run(es) && groupId in GroupsOf(After(es), did)
    ensures var g := GroupsOf(After(es), did)[groupId];
      && Members(g.tree) == Members(Replay(g.chain)) && g.epoch == |g.chain.changes|
      && NoDuplicates(Members(g.tree)) && (g.active ==> did in Members(g.tree))
  {
    InvAlways(es);
    var g := GroupsOf(After(es), did)[groupId];
    assert GroupOk(did, groupId, g);
    ReplayDistinct(g.chain);
    MembersDistinct(g.tree);
    if g.active {
      MembersAre(g.tree, did);
    }
  }

  /** Handlers with the same history have the same epoch and the same members, at the same leaves. */
  lemma ReplicasAgree(es: seq<Event>, a: Did, b: Did, groupId: GroupId)
    requires Run(es) && groupId in GroupsOf(After(es), a) && groupId in GroupsOf(After(es), b)
    requires GroupsOf(After(es), a)[groupId].chain == GroupsOf(After(es), b)[groupId].chain
    ensures var g, h := GroupsOf(After(es), a)[groupId], GroupsOf(After(es), b)[groupId];
      g.epoch == h.epoch && g.tree == h.tree && (a != b && g.active && h.active ==> g.leaf != h.leaf)
  {
    InvAlways(es);
    assert GroupOk(a, groupId, GroupsOf(After(es), a)[groupId]);
    assert GroupOk(b, groupId, GroupsOf(After(es), b)[groupId]);
  }

  /**
   The commit is processed if and only if the receiver is active, has exactly the history the commit was made for, did not
   make it, and has stored the proposals it refers to; the receiver then has the history and the members of the committer,
   and is still active if and only if it was not removed. Otherwise nothing changes.
  */
  predicate ProcessedIff(g: Group, m: Message, h: Group, answer: Answer)
    requires m.Commit?
  {
    && (answer.Ok? <==>
          g.active && g.chain == m.parent && g.leaf != m.change.committer && m.change.referenced <= g.proposals)
    && (answer.Ok? ==>
          && h.chain == Extended(m.parent, m.change) && h.tree == Replay(h.chain)
          && (h.active <==> g.leaf !in Gone(m.change)))
    && (answer.Err? ==> h == g)
  }

  lemma CommitEffect(self: Did, groupId: GroupId, g: Group, m: Message)
    requires GroupOk(self, groupId, g) && m.Commit? && MessageOk(m)
    ensures var (h, answer) := GroupStep(g, ProcessMessage(groupId, m)); ProcessedIff(g, m, h, answer)
  {
    ReplayExtended(g.chain, m.change);
  }

  /** In every run, whether a commit that was sent is processed depends on the receiver's history alone. */
  lemma {:induction false} CommitProcessedIff(es: seq<Event>, did: Did, groupId: GroupId, m: Message)
    requires Run(es) && m in After(es).sent && m.Commit? && groupId in GroupsOf(After(es), did)
    ensures var g := GroupsOf(After(es), did)[groupId];
      var (h, answer) := GroupStep(g, ProcessMessage(groupId, m)); ProcessedIff(g, m, h, answer)
  {
    InvAlways(es);
    CommitEffect(did, groupId, GroupsOf(After(es), did)[groupId], m);
  }

  /**
   A Welcome that was sent is accepted if and only if the joiner still holds the key package it was made for and does not
   have the group; the joiner then has the history, epoch and members of the group after the commit it came with, and the
   key package is used up.
  */
  lemma {:induction false} JoinAgrees(es: seq<Event>, did: Did, m: Message)
    requires Run(es) && m in After(es).sent && m.Welcome?
    ensures var a := AccountOf(After(es), did);
      var (joined, answer) := Step(did, a, JoinFromWelcome(m));
      && (answer.Ok? <==> m.invitee in a.packages && m.chain.groupId !in a.groups)
      && (answer.Ok? ==>
           answer == Ok(Joined(m.chain.groupId)) && m.chain.groupId in joined.groups
           && var g := joined.groups[m.chain.groupId];
           && g.chain == m.chain && g.epoch == |m.chain.changes| && g.tree == Replay(m.chain) && did in Members(g.tree)
           && !Admits(joined, m) && m.invitee !in joined.packages)
      && (answer.Err? ==> joined == a)
  {
    InvAlways(es);
    assert MessageOk(m);
    MembersAre(m.tree, m.invitee.identity);
  }

  /**
   A proposal to leave that was sent is stored if and only if the receiver is active, has the history it was made in, and is
   not its sender; nothing else of the group changes.
  */
  predicate StoredIff(g: Group, m: Message, h: Group, answer: Answer)
    requires m.Leave?
  {
    && (answer == Ok(Done) <==> g.active && g.chain == m.context && g.leaf != m.leaver)
    && (answer.Ok? ==> h == g.(proposals := g.proposals + {m.leaver}) && Occupied(g.tree, m.leaver))
    && (answer.Err? ==> h == g)
  }

  lemma ProposalEffect(self: Did, groupId: GroupId, g: Group, m: Message)
    requires GroupOk(self, groupId, g) && m.Leave? && MessageOk(m)
    ensures var (h, answer) := GroupStep(g, ProcessMessage(groupId, m)); StoredIff(g, m, h, answer)
  {
  }

  lemma {:induction false} ProposalStoredIff(es: seq<Event>, did: Did, groupId: GroupId, m: Message)
    requires Run(es) && m in After(es).sent && m.Leave? && groupId in GroupsOf(After(es), did)
    ensures var g := GroupsOf(After(es), did)[groupId];
      var (h, answer) := GroupStep(g, ProcessMessage(groupId, m)); StoredIff(g, m, h, answer)
  {
    InvAlways(es);
    ProposalEffect(did, groupId, GroupsOf(After(es), did)[groupId], m);
  }

  /** A key package that is handed out is of the handler's own identity, and a Welcome made for it is accepted. */
  lemma GeneratedIsUsable(self: Did, a: Account, nonce: nat, m: Message)
    ensures var (b, answer) := Step(self, a, GenerateKeyPackage(nonce));
      && answer.Ok? && answer.value.Generated? && b.groups == a.groups
      && var package := answer.value.package;
         && package.identity == self && b.packages == a.packages + {package}
         && (m.Welcome? && m.invitee == package ==>
              (Step(self, b, JoinFromWelcome(m)).1.Ok? <==> m.chain.groupId !in a.groups))
  {
  }

  // ---- Forks ----

  /** The event replaces or drops the handler's copy of the group. */
  predicate Replaces(w: World, e: Event, did: Did, groupId: GroupId) {
    e.actor == did && match e
    case Act(_, CreateGroup(id, _)) => id == groupId
    case Act(_, JoinFromWelcome(m)) => Admits(AccountOf(w, did), m) && m.chain.groupId == groupId
    case Act(_, RemoveGroup(id)) => id == groupId
    case Act(_, Reinitialize(id, _, _, _)) => id == groupId || NewGroupId(id, EpochOr0(GroupsOf(w, did), id)) == groupId
    case Act(_, _) => false
    case Restart(_, _) => true
  }

  lemma {:induction false} HistoryGrows(es: seq<Event>, n: nat, did: Did, groupId: GroupId)
    requires n <= |es| && groupId in GroupsOf(After(es[..n]), did)
    requires forall i :: n <= i < |es| ==> !Replaces(After(es[..i]), es[i], did, groupId)
    ensures groupId in GroupsOf(After(es), did)
    ensures IsPrefix(GroupsOf(After(es[..n]), did)[groupId].chain, GroupsOf(After(es), did)[groupId].chain)
  {
    if n == |es| {
      assert es[..n] == es;
    } else {
      var init := es[..|es| - 1];
      assert init[..n] == es[..n];
      assert es[..|es| - 1] == init && forall i :: n <= i < |init| ==> init[..i] == es[..i];
      HistoryGrows(init, n, did, groupId);
      StepGrows(After(init), es[|es| - 1], did, groupId);
    }
  }

  /** Histories only grow, by at most one commit in a step. */
  lemma GroupStepGrows(g: Group, op: Op)
    requires OnGroup(op)
    ensures IsPrefix(g.chain, GroupStep(g, op).0.chain)
  {
  }

  lemma StepGrows(w: World, e: Event, did: Did, groupId: GroupId)
    requires groupId in GroupsOf(w, did) && !Replaces(w, e, did, groupId)
    ensures groupId in GroupsOf(Next(w, e), did)
    ensures IsPrefix(GroupsOf(w, did)[groupId].chain, GroupsOf(Next(w, e), did)[groupId].chain)
  {
    if e.Act? && e.actor == did && OnGroup(e.op) && e.op.groupId == groupId {
      GroupStepGrows(GroupsOf(w, did)[groupId], e.op);
    } else {
      OthersStay(w, e, did, groupId);
    }
  }

  lemma OthersStay(w: World, e: Event, did: Did, groupId: GroupId)
    requires groupId in GroupsOf(w, did) && !Replaces(w, e, did, groupId)
    requires !(e.Act? && e.actor == did && OnGroup(e.op) && e.op.groupId == groupId)
    ensures groupId in GroupsOf(Next(w, e), did) && GroupsOf(Next(w, e), did)[groupId] == GroupsOf(w, did)[groupId]
  {
  }

  /**
   Concurrent commits fork a group for good: once neither history is a prefix of the other, the two handlers never agree
   again, whatever they do and receive, until one of them is restarted or drops its copy and creates, re-initialises or
   joins the group anew.
  */
  lemma {:induction false} ForksNeverHeal(es: seq<Event>, n: nat, a: Did, b: Did, groupId: GroupId)
    requires n <= |es| && groupId in GroupsOf(After(es[..n]), a) && groupId in GroupsOf(After(es[..n]), b)
    requires var g, h := GroupsOf(After(es[..n]), a)[groupId].chain, GroupsOf(After(es[..n]), b)[groupId].chain;
      !IsPrefix(g, h) && !IsPrefix(h, g)
    requires forall i :: n <= i < |es| ==>
      !Replaces(After(es[..i]), es[i], a, groupId) && !Replaces(After(es[..i]), es[i], b, groupId)
    ensures groupId in GroupsOf(After(es), a) && groupId in GroupsOf(After(es), b)
    ensures GroupsOf(After(es), a)[groupId].chain != GroupsOf(After(es), b)[groupId].chain
  {
    HistoryGrows(es, n, a, groupId);
    HistoryGrows(es, n, b, groupId);
  }
}
