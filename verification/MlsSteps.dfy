/** What each operation on one MLS group answers, and what it does to the group. */
module MlsSteps {
  import opened Wrappers
  import opened MlsGroups

  type Groups = map<GroupId, Group>

  datatype Op =
    | GenerateKeyPackage(nonce: nat)
    | CreateGroup(groupId: GroupId, nonce: nat)
    | AddMember(groupId: GroupId, invitee: KeyPackage, nonce: nat)
    | AddMemberDeferred(groupId: GroupId, invitee: KeyPackage, nonce: nat)
    | ConfirmAddMember(groupId: GroupId)
    | CancelAddMember(groupId: GroupId)
    | RemoveMember(groupId: GroupId, leaf: Leaf, nonce: nat)
    | LeaveGroup(groupId: GroupId)
    | SelfUpdate(groupId: GroupId, nonce: nat)
    | CommitPendingProposals(groupId: GroupId, nonce: nat)
    | EncryptMessage(groupId: GroupId, plaintext: string)
    | ProcessMessage(groupId: GroupId, message: Message)
    | JoinFromWelcome(message: Message)
    | RemoveGroup(groupId: GroupId)
    | Reinitialize(groupId: GroupId, keyPackages: map<Did, KeyPackage>, nonce: nat, nonces: seq<nat>)

  datatype Reply =
    | Done
    | Generated(package: KeyPackage)
    | Committed(commit: Message, welcome: Option<Message>)
    | Proposed(proposal: Message)
    | NoProposals
    | Encrypted(message: Message)
    | Decrypted(plaintext: string, sender: Did)
    | Joined(groupId: GroupId)
    | Reinitialized(newGroupId: GroupId, welcomes: seq<(Did, Message)>, members: seq<Did>)

  datatype Error =
    | GroupNotFound(groupId: GroupId)
    | PendingCommit
    | NoPendingCommit(groupId: GroupId)
    | CommitFailed
    | GroupFailed
    | WelcomeFailed
    | EncryptionFailed
    | DecryptionFailed

  type Answer = Result<Reply, Error>

  /** The messages an answer hands to the network. A re-initialisation hands out its Welcomes, but none of its commits. */
  function Sent(answer: Answer): set<Message> {
    match answer
    case Ok(Committed(commit, welcome)) => {commit} + (if welcome.Some? then {welcome.value} else {})
    case Ok(Proposed(proposal)) => {proposal}
    case Ok(Encrypted(message)) => {message}
    case Ok(Reinitialized(_, welcomes, _)) => set w | w in welcomes :: w.1
    case _ => {}
  }

  /** An own commit is made and merged at once, or refused. */
  function CommitNow(g: Group, c: Change, refusal: Error): (Group, Answer) {
    if Committable(g, c) then (Advanced(g, c), Ok(CommittedWith(g, c))) else (g, Err(refusal))
  }

  function CommittedWith(g: Group, c: Change): Reply {
    Committed(Commit(g.chain, c), if c.added.Some? then Some(WelcomeFor(g, c)) else None)
  }

  /** The operation works on a group the handler must have. */
  predicate OnGroup(op: Op) {
    !op.GenerateKeyPackage? && !op.CreateGroup? && !op.JoinFromWelcome? && !op.RemoveGroup? && !op.Reinitialize?
  }

  function GroupStep(g: Group, op: Op): (Group, Answer)
    requires OnGroup(op)
  {
    match op
    case AddMember(_, invitee, nonce) => CommitNow(g, NewChange(g, Some(invitee), {}, nonce), CommitFailed)
    case AddMemberDeferred(_, invitee, nonce) =>
      var c := NewChange(g, Some(invitee), {}, nonce);
      if g.pending.Some? then (g, Err(PendingCommit))
      else if !Committable(g, c) then (g, Err(CommitFailed))
      else (Staged(g, c), Ok(CommittedWith(g, c)))
    case ConfirmAddMember(groupId) =>
      if g.pending.None? then (g, Err(NoPendingCommit(groupId))) else (MergedPending(g), Ok(Done))
    case CancelAddMember(groupId) =>
      if g.pending.None? then (g, Err(NoPendingCommit(groupId))) else (Cleared(g), Ok(Done))
    case RemoveMember(_, leaf, nonce) => CommitNow(g, NewChange(g, None, {leaf}, nonce), CommitFailed)
    case LeaveGroup(_) =>
      if !Operational(g) then (g, Err(GroupFailed))
      else (Proposing(g, g.leaf), Ok(Proposed(Leave(g.chain, g.leaf))))
    case SelfUpdate(_, nonce) => CommitNow(g, NewChange(g, None, {}, nonce), GroupFailed)
    case CommitPendingProposals(_, nonce) =>
      if g.proposals == {} then (g, Ok(NoProposals)) else CommitNow(g, NewChange(g, None, {}, nonce), CommitFailed)
    case EncryptMessage(_, plaintext) =>
      if !g.active || g.proposals != {} then (g, Err(EncryptionFailed))
      else (g.(generation := g.generation + 1), Ok(Encrypted(Application(g.chain, g.leaf, g.generation, plaintext))))
    case ProcessMessage(_, message) => if Accepts(g, message) then Received(g, message) else (g, Err(DecryptionFailed))
  }

  function Proposing(g: Group, leaf: Leaf): Group {
    g.(proposals := g.proposals + {leaf})
  }

  /** A commit is merged, a proposal stored, an application message handed on with its sender's credential. */
  function Received(g: Group, m: Message): (Group, Answer)
    requires Accepts(g, m)
  {
    match m
    case Commit(_, c) => (Advanced(g, c), Ok(Done))
    case Leave(_, leaver) => (Proposing(g, leaver), Ok(Done))
    case Application(_, sender, generation, plaintext) =>
      (g.(seen := g.seen + {(sender, generation)}), Ok(Decrypted(plaintext, g.tree[sender].value)))
  }
}
