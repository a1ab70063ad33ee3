/** What one handler holds, its groups and its unused key packages, and what each operation does to them. */
module MlsAccounts {
  import opened Wrappers
  import opened Decimal
  import opened MlsGroups
  import opened MlsSteps
  import opened MlsReinit

  datatype Account = Account(groups: Groups, packages: set<KeyPackage>)

  const NEW := Account(map[], {})

  function EpochOr0(groups: Groups, groupId: GroupId): nat {
    if groupId in groups then groups[groupId].epoch else 0
  }

  function MembersOrNone(groups: Groups, groupId: GroupId): seq<Did> {
    if groupId in groups then Members(groups[groupId].tree) else []
  }

  /** The joiner still holds the key package, and does not have the group. */
  predicate Admits(a: Account, m: Message) {
    m.Welcome? && m.invitee in a.packages && m.chain.groupId !in a.groups
  }

  function StepOnGroup(groups: Groups, op: Op): (Groups, Answer)
    requires OnGroup(op)
  {
    if op.groupId !in groups then (groups, Err(GroupNotFound(op.groupId))) else
    var (g, answer) := GroupStep(groups[op.groupId], op);
    (groups[op.groupId := g], answer)
  }

  /** The new group that a re-initialisation builds. */
  function Rebuilt(self: Did, groups: Groups, op: Op): Progress
    requires op.Reinitialize?
  {
    InvitedAll(Start(NewGroupId(op.groupId, EpochOr0(groups, op.groupId)), self, op.nonce),
               MembersOrNone(groups, op.groupId), op.keyPackages, op.nonces)
  }

  function Step(self: Did, a: Account, op: Op): (Account, Answer) {
    match op
    case GenerateKeyPackage(nonce) =>
      var package := KeyPackage(self, nonce);
      (a.(packages := a.packages + {package}), Ok(Generated(package)))
    case CreateGroup(groupId, nonce) => (a.(groups := a.groups[groupId := Created(groupId, self, nonce)]), Ok(Done))
    case JoinFromWelcome(m) =>
      if !Admits(a, m) then (a, Err(WelcomeFailed))
      else (Account(a.groups[m.chain.groupId := Welcomed(m)], a.packages - {m.invitee}), Ok(Joined(m.chain.groupId)))
    case RemoveGroup(groupId) => (a.(groups := a.groups - {groupId}), Ok(Done))
    case Reinitialize(groupId, _, _, _) =>
      var p := Rebuilt(self, a.groups, op);
      var newId := NewGroupId(groupId, EpochOr0(a.groups, groupId));
      (a.(groups := (a.groups - {groupId})[newId := p.group]), Ok(Reinitialized(newId, p.welcomes, p.members)))
    case _ =>
      var (groups, answer) := StepOnGroup(a.groups, op);
      (a.(groups := groups), answer)
  }

  // ---- Recovery ----

  /**
   What a re-initialisation leaves and answers, from the members and the epoch of the old group: the old group is replaced by
   a new one, under a new id and with the administrator alone as committer; everything else is as before. Those reported are
   the administrator and the members whose package was added, and they are the members of the new group exactly if no
   package falsifies the report. The k-th Welcome is for the k-th of them, and leads into epoch k of the new group.
  */
  predicate Recovers(self: Did, before: Account, groupId: GroupId, keyPackages: KeyPackages, listed: seq<Did>, oldEpoch: nat,
                     after: Account, answer: Answer)
  {
    && answer.Ok? && answer.value.Reinitialized?
    && var (newId, welcomes, members) := (answer.value.newGroupId, answer.value.welcomes, answer.value.members);
    && newId == groupId + "-reinit-" + Digits(oldEpoch)
    && groupId !in after.groups && newId in after.groups && after.packages == before.packages
    && after.groups - {newId} == before.groups - {groupId, newId}
    && members == Reported(listed, self, keyPackages)
    && InvitedInto(after.groups[newId], newId, self, keyPackages, welcomes, members)
    && (members == Members(after.groups[newId].tree) <==>
          forall i :: 0 <= i < |listed| ==> Harmless(listed, self, keyPackages, i))
  }

  predicate InvitedInto(g: Group, newId: GroupId, self: Did, keyPackages: KeyPackages, welcomes: seq<(Did, Message)>,
                        members: seq<Did>)
  {
    && g.self == self && g.active && g.pending.None? && g.chain.groupId == newId && g.chain.creator == self
    && ByAdministrator(g.chain) && g.epoch == |g.chain.changes| == |welcomes| == |members| - 1
    && forall k :: 1 <= k < |members| ==> LeadsInto(welcomes[k - 1], members[k], keyPackages, g, k)
  }

  predicate LeadsInto(welcome: (Did, Message), member: Did, keyPackages: KeyPackages, g: Group, k: nat)
    requires k <= |g.chain.changes|
  {
    && welcome.0 == member && member in keyPackages && welcome.1.Welcome? && welcome.1.invitee == keyPackages[member]
    && welcome.1.epoch == k && welcome.1.chain == Prefix(g.chain, k)
  }

  lemma Recovery(self: Did, a: Account, op: Op)
    requires op.Reinitialize?
    ensures var (after, answer) := Step(self, a, op);
      Recovers(self, a, op.groupId, op.keyPackages,
               if op.groupId in a.groups then Members(a.groups[op.groupId].tree) else [],
               if op.groupId in a.groups then a.groups[op.groupId].epoch else 0, after, answer)
  {
    var newId, members := NewGroupId(op.groupId, EpochOr0(a.groups, op.groupId)), MembersOrNone(a.groups, op.groupId);
    NewIdDiffers(op.groupId, EpochOr0(a.groups, op.groupId));
    RebuiltInvites(newId, self, op.nonce, members, op.keyPackages, op.nonces);
    ReportIsRightIff(newId, self, op.nonce, members, op.keyPackages, op.nonces);
  }

  lemma RebuiltInvites(
      newId: GroupId, self: Did, nonce: nat, members: seq<Did>, keyPackages: KeyPackages, nonces: seq<nat>)
    ensures var p := InvitedAll(Start(newId, self, nonce), members, keyPackages, nonces);
      && p.members == Reported(members, self, keyPackages)
      && InvitedInto(p.group, newId, self, keyPackages, p.welcomes, p.members)
  {
    var p := InvitedAll(Start(newId, self, nonce), members, keyPackages, nonces);
    ReinitialisedGroup(newId, self, nonce, members, keyPackages, nonces);
    InvitedWithPackages(Start(newId, self, nonce), members, keyPackages, nonces);
    forall k | 1 <= k < |p.members| ensures LeadsInto(p.welcomes[k - 1], p.members[k], keyPackages, p.group, k) {
      assert WelcomeIs(p, Names(members, self, keyPackages), k);
    }
  }
}
