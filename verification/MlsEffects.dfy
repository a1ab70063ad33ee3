/**
 What the membership operations mean: which leaves they change, and what the other members make of the messages they hand
 out. Everything is told by leaf positions and by the operations themselves.
*/
module MlsEffects {
  import opened Wrappers
  import opened MlsGroups
  import opened MlsSteps
  import opened MlsAccounts
  import opened MlsReplicas
  import opened MlsDeferred

  // ---- Positions ----

  predicate CommitsAtOnce(op: Op) {
    op.AddMember? || op.RemoveMember? || op.SelfUpdate? || op.CommitPendingProposals?
  }

  /** The leaves that leave with an own commit: those proposed, and the one to be removed. */
  function Leaving(g: Group, op: Op): set<Leaf> {
    g.proposals + (if op.RemoveMember? then {op.leaf} else {})
  }

  function Joining(op: Op): Option<Did> {
    if op.AddMember? then Some(op.invitee.identity) else None
  }

  /** The owner of a leaf that stays. */
  function Staying(tree: Tree, gone: set<Leaf>, i: nat): Option<Did> {
    if i < |tree| && i !in gone then tree[i] else None
  }

  /** Exactly the leaves of `gone` become blank, and the new member, if any, takes the leftmost blank leaf. */
  predicate TreeAfter(before: Tree, gone: set<Leaf>, joining: Option<Did>, after: Tree) {
    match joining
    case None => |after| == |before| && forall i :: 0 <= i < |after| ==> after[i] == Staying(before, gone, i)
    case Some(did) => exists p: Leaf :: p <= |before| && SeatedAt(before, gone, did, p, after)
  }

  predicate SeatedAt(before: Tree, gone: set<Leaf>, did: Did, p: Leaf, after: Tree)
    requires p <= |before|
  {
    && Staying(before, gone, p) == None && (forall i :: 0 <= i < p ==> Staying(before, gone, i).Some?)
    && |after| == (if p == |before| then p + 1 else |before|)
    && forall i :: 0 <= i < |after| ==> after[i] == if i == p then Some(did) else Staying(before, gone, i)
  }

  /** When an own commit can be made. */
  predicate CanCommit(g: Group, op: Op)
    requires CommitsAtOnce(op)
  {
    && g.active && g.pending.None? && g.leaf !in g.proposals
    && (op.RemoveMember? ==> op.leaf != g.leaf && op.leaf < |g.tree| && g.tree[op.leaf].Some?)
    && (op.AddMember? ==> forall i :: 0 <= i < |g.tree| ==> Staying(g.tree, g.proposals, i) != Some(op.invitee.identity))
    && (op.CommitPendingProposals? ==> g.proposals != {})
  }

  lemma AppliedPositions(tree: Tree, c: Change)
    ensures TreeAfter(tree, Gone(c), if c.added.Some? then Some(c.added.value.identity) else None, Apply(tree, c))
  {
    var t := Blanked(tree, Gone(c));
    forall i: nat | i < |tree| ensures t[i] == Staying(tree, Gone(c), i) {
    }
    if c.added.Some? {
      var p := LeftmostBlank(t);
      forall i: nat | i < p ensures Staying(tree, Gone(c), i).Some? {
        assert t[i] == Staying(tree, Gone(c), i);
      }
      assert SeatedAt(tree, Gone(c), c.added.value.identity, p, Apply(tree, c));
    }
  }

  /** The change that the operation makes. */
  lemma ChangeOf(self: Did, g: Group, op: Op) returns (c: Change)
    requires CommitsAtOnce(op) && GroupOk(self, op.groupId, g)
    ensures c.committer == g.leaf && Gone(c) == Leaving(g, op)
    ensures c.referenced == if op.RemoveMember? then g.proposals - {op.leaf} else g.proposals
    ensures c.added == if op.AddMember? then Some(op.invitee) else None
    ensures CanCommit(g, op) <==> Committable(g, c) && (op.CommitPendingProposals? ==> g.proposals != {})
    ensures CanCommit(g, op) ==> GroupStep(g, op) == (Advanced(g, c), Ok(CommittedWith(g, c)))
    ensures !CanCommit(g, op) ==>
      GroupStep(g, op) == (g, if op.CommitPendingProposals? && g.proposals == {} then Ok(NoProposals)
                              else Err(if op.SelfUpdate? then GroupFailed else CommitFailed))
  {
    match op
    case AddMember(_, invitee, nonce) =>
      c := NewChange(g, Some(invitee), {}, nonce);
      assert Gone(c) == g.proposals;
      BlankedMembers(g.tree, g.proposals, invitee.identity);
    case RemoveMember(_, leaf, nonce) =>
      c := NewChange(g, None, {leaf}, nonce);
      assert Gone(c) == g.proposals + {leaf};
    case SelfUpdate(_, nonce) =>
      c := NewChange(g, None, {}, nonce);
      assert Gone(c) == g.proposals;
    case CommitPendingProposals(_, nonce) =>
      c := NewChange(g, None, {}, nonce);
      assert Gone(c) == g.proposals;
  }

  lemma BlankedMembers(tree: Tree, gone: set<Leaf>, did: Did)
    ensures HasMember(Blanked(tree, gone), did) <==> exists i :: 0 <= i < |tree| && Staying(tree, gone, i) == Some(did)
  {
    var t := Blanked(tree, gone);
    assert forall i :: 0 <= i < |tree| ==> t[i] == Staying(tree, gone, i);
  }

  /** The new state of the committer. */
  predicate Advances(g: Group, op: Op, h: Group) {
    && TreeAfter(g.tree, Leaving(g, op), Joining(op), h.tree)
    && h.epoch == g.epoch + 1 && h.active && h.leaf == g.leaf && h.self == g.self
    && h.pending.None? && h.proposals == {}
    && h.chain.changes != [] && Before(h.chain) == g.chain
  }

  /**
   Adding, removing, updating and committing proposals: in a valid group, each succeeds if and only if `CanCommit`, and then
   exactly the proposed leaves and the removed one are blank, the added member has the leftmost blank leaf, every other leaf
   is as before, and nothing is proposed or pending any more. Otherwise nothing changes.
  */
  lemma CommitsIff(self: Did, g: Group, op: Op)
    requires CommitsAtOnce(op) && GroupOk(self, op.groupId, g)
    ensures var (h, answer) := GroupStep(g, op);
      && (answer.Ok? && answer.value.Committed? <==> CanCommit(g, op))
      && (answer.Ok? && answer != Ok(NoProposals) ==> answer.value.Committed?)
      && (CanCommit(g, op) ==> Advances(g, op, h))
      && (!CanCommit(g, op) ==>
           h == g && answer == if op.CommitPendingProposals? && g.proposals == {} then Ok(NoProposals)
                               else Err(if op.SelfUpdate? then GroupFailed else CommitFailed))
  {
    var c := ChangeOf(self, g, op);
    if CanCommit(g, op) {
      AppliedPositions(g.tree, c);
      assert Before(Extended(g.chain, c)) == g.chain;
    }
  }

  /** So the members afterwards are those who stay, and the one who joins. */
  lemma MembersAfter(self: Did, g: Group, op: Op, did: Did)
    requires CommitsAtOnce(op) && GroupOk(self, op.groupId, g) && CanCommit(g, op)
    ensures did in Members(GroupStep(g, op).0.tree) <==>
      || Joining(op) == Some(did)
      || exists i :: 0 <= i < |g.tree| && Staying(g.tree, Leaving(g, op), i) == Some(did)
  {
    CommitsIff(self, g, op);
    var after := GroupStep(g, op).0.tree;
    MembersAre(after, did);
    TreeMembers(g.tree, Leaving(g, op), Joining(op), after, did);
  }

  lemma TreeMembers(before: Tree, gone: set<Leaf>, joining: Option<Did>, after: Tree, did: Did)
    requires TreeAfter(before, gone, joining, after)
    ensures HasMember(after, did) <==>
      joining == Some(did) || exists i :: 0 <= i < |before| && Staying(before, gone, i) == Some(did)
  {
    if joining.None? {
      assert forall i :: 0 <= i < |before| ==> after[i] == Staying(before, gone, i);
    } else {
      var p: Leaf :| p <= |before| && SeatedAt(before, gone, joining.value, p, after);
      assert after[p] == joining;
      assert forall i :: 0 <= i < |before| && i != p ==> after[i] == Staying(before, gone, i);
    }
  }

  /** Nobody at a leaf that leaves is listed afterwards, unless by being added again. */
  lemma NoneLeft(self: Did, g: Group, op: Op, leaf: Leaf)
    requires CommitsAtOnce(op) && GroupOk(self, op.groupId, g) && CanCommit(g, op) && leaf in Leaving(g, op)
    ensures leaf < |g.tree| && g.tree[leaf].Some?
    ensures g.tree[leaf].value in Members(GroupStep(g, op).0.tree) <==> Joining(op) == g.tree[leaf]
  {
    assert Occupied(g.tree, leaf);
    ReplayDistinct(g.chain);
    MembersAfter(self, g, op, g.tree[leaf].value);
  }

  /** An operation on one group touches no other, and no key package; for a group the handler does not have it fails. */
  lemma TouchesOneGroup(self: Did, a: Account, op: Op)
    requires OnGroup(op)
    ensures var (b, answer) := Step(self, a, op);
      && b.packages == a.packages && b.groups - {op.groupId} == a.groups - {op.groupId}
      && (op.groupId in b.groups <==> op.groupId in a.groups)
      && (answer == Err(GroupNotFound(op.groupId)) <==> op.groupId !in a.groups)
  {
  }

  // ---- What others make of the messages ----

  /** A member in state `k` merges the commit, and then agrees with the committer, now in state `h`. */
  predicate Follows(k: Group, commit: Message, h: Group, leaving: set<Leaf>) {
    var (t, answer) := GroupStep(k, ProcessMessage(k.chain.groupId, commit));
    && answer == Ok(Done) && t.chain == h.chain && t.tree == h.tree && t.epoch == h.epoch
    && (t.active <==> k.leaf !in leaving)
  }

  /** Whoever still has the key package, and not the group, joins the committer, now in state `h`. */
  ghost predicate Welcomes(welcome: Message, invitee: KeyPackage, h: Group) {
    forall did, a: Account :: invitee in a.packages && h.chain.groupId !in a.groups ==>
      JoinsAs(Step(did, a, JoinFromWelcome(welcome)), invitee, h)
  }

  predicate JoinsAs(step: (Account, Answer), invitee: KeyPackage, h: Group) {
    var (joined, answer) := step;
    && answer == Ok(Joined(h.chain.groupId)) && invitee !in joined.packages && h.chain.groupId in joined.groups
    && var t := joined.groups[h.chain.groupId];
       && t.active && t.chain == h.chain && t.tree == h.tree && t.epoch == h.epoch
       && t.leaf < |t.tree| && t.tree[t.leaf] == Some(invitee.identity)
  }

  /** Another active member with the same history, who has stored the proposals but that for the removed leaf. */
  predicate Peer(g: Group, op: Op, other: Did, k: Group)
    requires CommitsAtOnce(op)
  {
    && GroupOk(other, op.groupId, k) && other != g.self && k.active && k.chain == g.chain
    && forall leaf :: leaf in g.proposals && !(op.RemoveMember? && leaf == op.leaf) ==> leaf in k.proposals
  }

  /**
   The commit that is handed out is the one that is merged: every such member who receives it merges it too, and then has
   the committer's new history, tree and epoch, as an active member exactly if it was not to leave.
  */
  lemma OthersFollow(self: Did, g: Group, op: Op, other: Did, k: Group)
    requires CommitsAtOnce(op) && GroupOk(self, op.groupId, g) && Peer(g, op, other, k)
    requires GroupStep(g, op).1.Ok? && GroupStep(g, op).1.value.Committed?
    ensures Follows(k, GroupStep(g, op).1.value.commit, GroupStep(g, op).0, Leaving(g, op))
  {
    CommitsIff(self, g, op);
    var c := ChangeOf(self, g, op);
    assert g.tree == k.tree && g.leaf != k.leaf;
  }

  /** A Welcome is handed out with an addition only, and it leads the invited member into the committer's new state. */
  lemma InviteesFollow(self: Did, g: Group, op: Op)
    requires CommitsAtOnce(op) && GroupOk(self, op.groupId, g)
    requires GroupStep(g, op).1.Ok? && GroupStep(g, op).1.value.Committed?
    ensures var (h, answer) := GroupStep(g, op);
      && (answer.value.welcome.Some? <==> op.AddMember?)
      && (op.AddMember? ==> Welcomes(answer.value.welcome.value, op.invitee, h))
  {
    CommitsIff(self, g, op);
    var c := ChangeOf(self, g, op);
    if op.AddMember? {
      ApplyKeeps(g.tree, c);
    }
  }

  /** The same for a deferred addition and the group after its confirmation, whatever was tried and received in between. */
  lemma DeferredFollowed(self: Did, g: Group, groupId: GroupId, invitee: KeyPackage, nonce: nat, ops: seq<Op>)
    requires GroupOk(self, groupId, g)
    requires var (staged, answer) := GroupStep(g, AddMemberDeferred(groupId, invitee, nonce));
      answer.Ok? && NoneEnds(staged, ops)
    ensures var (staged, answer) := GroupStep(g, AddMemberDeferred(groupId, invitee, nonce));
      var (h, confirmed) := GroupStep(GroupRun(staged, ops), ConfirmAddMember(groupId));
      && confirmed == Ok(Done) && answer.value.Committed? && answer.value.welcome.Some?
      && Advances(g, AddMember(groupId, invitee, nonce), h)
      && Welcomes(answer.value.welcome.value, invitee, h)
      && forall other, k :: Peer(g, AddMember(groupId, invitee, nonce), other, k) ==>
           Follows(k, answer.value.commit, h, g.proposals)
  {
    var op := AddMember(groupId, invitee, nonce);
    DeferredEqualsImmediate(g, groupId, invitee, nonce, ops);
    CommitsIff(self, g, op);
    InviteesFollow(self, g, op);
    assert Leaving(g, op) == g.proposals;
    forall other, k | Peer(g, op, other, k)
      ensures Follows(k, GroupStep(g, op).1.value.commit, GroupStep(g, op).0, g.proposals)
    {
      OthersFollow(self, g, op, other, k);
    }
  }

  /**
   Leaving works: another member with the same history, free to commit, stores the proposal and commits it; the leaver is
   then no member any more, and learns so from that commit.
  */
  lemma LeaveWorks(self: Did, g: Group, other: Did, k: Group, groupId: GroupId, nonce: nat)
    requires GroupOk(self, groupId, g) && GroupOk(other, groupId, k) && self != other && g.chain == k.chain
    requires g.active && g.pending.None? && k.active && k.pending.None? && k.leaf !in k.proposals
    ensures var (g1, left) := GroupStep(g, LeaveGroup(groupId));
      && left.Ok? && left.value.Proposed?
      && var (k1, stored) := GroupStep(k, ProcessMessage(groupId, left.value.proposal));
         && stored == Ok(Done)
         && var (k2, committed) := GroupStep(k1, CommitPendingProposals(groupId, nonce));
            && committed.Ok? && committed.value.Committed? && self !in Members(k2.tree) && other in Members(k2.tree)
            && (k.proposals <= g.proposals ==>
                 var (g2, merged) := GroupStep(g1, ProcessMessage(groupId, committed.value.commit));
                 merged == Ok(Done) && !g2.active && g2.chain == k2.chain && g2.tree == k2.tree)
  {
    var g1, k1 := Proposing(g, g.leaf), Proposing(k, g.leaf);
    LeaveStored(self, g, other, k, groupId);
    LeaveCommitted(other, k1, groupId, nonce, self, g.leaf);
    if k.proposals <= g.proposals {
      OthersFollow(other, k1, CommitPendingProposals(groupId, nonce), self, g1);
    }
  }

  lemma LeaveStored(self: Did, g: Group, other: Did, k: Group, groupId: GroupId)
    requires GroupOk(self, groupId, g) && GroupOk(other, groupId, k) && self != other && g.chain == k.chain
    requires g.active && g.pending.None? && k.active
    ensures var g1, k1, m := Proposing(g, g.leaf), Proposing(k, g.leaf), Leave(g.chain, g.leaf);
      && GroupStep(g, LeaveGroup(groupId)) == (g1, Ok(Proposed(m)))
      && GroupStep(k, ProcessMessage(groupId, m)) == (k1, Ok(Done))
      && GroupOk(self, groupId, g1) && GroupOk(other, groupId, k1) && g.leaf != k.leaf && Occupied(k.tree, g.leaf)
      && k.tree[g.leaf] == Some(self)
  {
  }

  /** A stored proposal of this leaf is committed. */
  lemma LeaveCommitted(other: Did, k: Group, groupId: GroupId, nonce: nat, leaver: Did, leaf: Leaf)
    requires GroupOk(other, groupId, k) && k.active && k.pending.None? && k.leaf !in k.proposals
    requires leaf in k.proposals && leaf < |k.tree| && k.tree[leaf] == Some(leaver)
    ensures var (h, answer) := GroupStep(k, CommitPendingProposals(groupId, nonce));
      answer.Ok? && answer.value.Committed? && leaver !in Members(h.tree) && other in Members(h.tree)
  {
    var op := CommitPendingProposals(groupId, nonce);
    CommitsIff(other, k, op);
    NoneLeft(other, k, op, leaf);
    MembersAfter(other, k, op, other);
    assert Staying(k.tree, Leaving(k, op), k.leaf) == Some(other);
  }
}
