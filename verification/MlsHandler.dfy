/**
 The MLS group handler: its groups, the library's key-value store and the failure counters, updated in place.

 Every method is proved against the step functions of `MlsAccounts`, `MlsDesync` and `MlsSnapshots`; `Valid` says that the
 store holds the handler's groups and no others. Key packages are in the store alone.
*/
module MlsHandler {
  import opened Wrappers
  import opened Decimal
  import opened Hex
  import opened MlsGroups
  import opened MlsSteps
  import opened MlsReinit
  import opened MlsAccounts
  import opened MlsSnapshots
  import Desync = MlsDesync

  datatype DesyncInfo = DesyncInfo(groupId: GroupId, failedCount: U32, localEpoch: nat)

  class MlsGroupHandler {
    const localDid: Did
    const codec: Codec
    var groups: Groups
    var values: Values
    var desyncCounters: Desync.Counters

    ghost predicate Valid()
      reads this
    {
      Lawful(codec) && StoreCovers(codec, groups, values)
    }

    /** The groups, and the key packages in the store. */
    ghost function Held(): Account
      reads this
    {
      Account(groups, PackagesIn(codec, values))
    }

    constructor (localDid: Did, codec: Codec)
      requires Lawful(codec)
      ensures Valid() && this.localDid == localDid && this.codec == codec
      ensures Held() == NEW && desyncCounters == map[]
    {
      this.localDid, this.codec := localDid, codec;
      groups, values, desyncCounters := map[], map[codec.keypairKey := codec.keypair], map[];
    }

    // ---- The group table and the store ----

    /** A group was created, joined or changed by the library, which writes it to its store. */
    method Put(groupId: GroupId, g: Group)
      requires Valid()
      modifies this`groups, this`values
      ensures Valid() && Held() == old(Held()).(groups := old(groups)[groupId := g])
    {
      PutCovers(codec, groups, values, groupId, g);
      groups := groups[groupId := g];
      values := values[codec.groupKey(groupId) := codec.encode(g)];
    }

    /** Deletes the group from memory and from the store. */
    method RemoveGroup(groupId: GroupId)
      requires Valid()
      modifies this`groups, this`values
      ensures Valid() && (Held(), Ok(Done)) == Step(localDid, old(Held()), Op.RemoveGroup(groupId))
      ensures Held() == old(Held()).(groups := old(groups) - {groupId})
    {
      if groupId in groups {
        RemoveCovers(codec, groups, values, groupId);
        groups := groups - {groupId};
        values := values - {codec.groupKey(groupId)};
      } else {
        assert groups - {groupId} == groups;
      }
    }

    method CreateGroup(groupId: GroupId, nonce: nat) returns (answer: Answer)
      requires Valid()
      modifies this`groups, this`values
      ensures Valid() && (Held(), answer) == Step(localDid, old(Held()), Op.CreateGroup(groupId, nonce))
      ensures Held() == old(Held()).(groups := old(groups)[groupId := Created(groupId, localDid, nonce)])
    {
      Put(groupId, Created(groupId, localDid, nonce));
      answer := Ok(Done);
    }

    method GenerateKeyPackage(nonce: nat) returns (answer: Answer)
      requires Valid()
      modifies this`values
      ensures Valid() && (Held(), answer) == Step(localDid, old(Held()), Op.GenerateKeyPackage(nonce))
    {
      var package := KeyPackage(localDid, nonce);
      PackageCovers(codec, groups, values, package);
      values := values[codec.packageKey(package) := codec.package(package)];
      answer := Ok(Generated(package));
    }

    method JoinGroupFromWelcome(welcome: Message) returns (answer: Answer)
      requires Valid()
      modifies this`groups, this`values
      ensures Valid() && (Held(), answer) == Step(localDid, old(Held()), Op.JoinFromWelcome(welcome))
    {
      if !welcome.Welcome? {
        return Err(WelcomeFailed);
      }
      var groupId, package := welcome.chain.groupId, welcome.invitee;
      PackageStoredIff(codec, values, package);
      assert groupId in groups ==> Stores(codec, values, groupId, groups[groupId]);
      // The library needs the private part of the key package, and refuses a group that its store already has.
      if codec.packageKey(package) !in values || codec.groupKey(groupId) in values {
        return Err(WelcomeFailed);
      }
      PackageCovers(codec, groups, values, package);
      values := values - {codec.packageKey(package)};
      Put(groupId, Welcomed(welcome));
      answer := Ok(Joined(groupId));
    }

    // ---- Membership ----

    /** A commit is made and merged at once: we are the committer, and nobody could reject it. */
    method CommitAndMerge(groupId: GroupId, added: Option<KeyPackage>, removed: set<Leaf>, nonce: nat, refusal: Error)
      returns (answer: Answer)
      requires Valid() && groupId in groups
      modifies this`groups, this`values
      ensures Valid()
      ensures var (g, a) := CommitNow(old(groups)[groupId], NewChange(old(groups)[groupId], added, removed, nonce), refusal);
        Held() == old(Held()).(groups := old(groups)[groupId := g]) && answer == a
    {
      var group := groups[groupId];
      var change := NewChange(group, added, removed, nonce);
      if !Committable(group, change) {
        assert groups[groupId := group] == groups;
        return Err(refusal);
      }
      answer := Ok(CommittedWith(group, change));
      var staged := Staged(group, change);
      StagedThenMerged(group, change);
      Put(groupId, MergedPending(staged));
    }

    method AddMember(groupId: GroupId, invitee: KeyPackage, nonce: nat) returns (answer: Answer)
      requires Valid()
      modifies this`groups, this`values
      ensures Valid() && (Held(), answer) == Step(localDid, old(Held()), Op.AddMember(groupId, invitee, nonce))
    {
      if groupId !in groups {
        return Err(GroupNotFound(groupId));
      }
      answer := CommitAndMerge(groupId, Some(invitee), {}, nonce, CommitFailed);
    }

    method AddMemberDeferred(groupId: GroupId, invitee: KeyPackage, nonce: nat) returns (answer: Answer)
      requires Valid()
      modifies this`groups, this`values
      ensures Valid() && (Held(), answer) == Step(localDid, old(Held()), Op.AddMemberDeferred(groupId, invitee, nonce))
    {
      if groupId !in groups {
        return Err(GroupNotFound(groupId));
      }
      var group := groups[groupId];
      assert groups[groupId := group] == groups;
      if group.pending.Some? {
        return Err(PendingCommit);
      }
      var change := NewChange(group, Some(invitee), {}, nonce);
      if !Committable(group, change) {
        return Err(CommitFailed);
      }
      // The commit is not merged.
      Put(groupId, Staged(group, change));
      answer := Ok(CommittedWith(group, change));
    }

    method ConfirmAddMember(groupId: GroupId) returns (answer: Answer)
      requires Valid()
      modifies this`groups, this`values
      ensures Valid() && (Held(), answer) == Step(localDid, old(Held()), Op.ConfirmAddMember(groupId))
    {
      if groupId !in groups {
        return Err(GroupNotFound(groupId));
      }
      var group := groups[groupId];
      assert groups[groupId := group] == groups;
      if group.pending.None? {
        return Err(NoPendingCommit(groupId));
      }
      Put(groupId, MergedPending(group));
      answer := Ok(Done);
    }

    method CancelAddMember(groupId: GroupId) returns (answer: Answer)
      requires Valid()
      modifies this`groups, this`values
      ensures Valid() && (Held(), answer) == Step(localDid, old(Held()), Op.CancelAddMember(groupId))
    {
      if groupId !in groups {
        return Err(GroupNotFound(groupId));
      }
      var group := groups[groupId];
      assert groups[groupId := group] == groups;
      if group.pending.None? {
        return Err(NoPendingCommit(groupId));
      }
      Put(groupId, Cleared(group));
      answer := Ok(Done);
    }

    method RemoveMember(groupId: GroupId, leaf: Leaf, nonce: nat) returns (answer: Answer)
      requires Valid()
      modifies this`groups, this`values
      ensures Valid() && (Held(), answer) == Step(localDid, old(Held()), Op.RemoveMember(groupId, leaf, nonce))
    {
      if groupId !in groups {
        return Err(GroupNotFound(groupId));
      }
      answer := CommitAndMerge(groupId, None, {leaf}, nonce, CommitFailed);
    }

    method LeaveGroup(groupId: GroupId) returns (answer: Answer)
      requires Valid()
      modifies this`groups, this`values
      ensures Valid() && (Held(), answer) == Step(localDid, old(Held()), Op.LeaveGroup(groupId))
    {
      if groupId !in groups {
        return Err(GroupNotFound(groupId));
      }
      var group := groups[groupId];
      assert groups[groupId := group] == groups;
      if !Operational(group) {
        return Err(GroupFailed);
      }
      Put(groupId, Proposing(group, group.leaf));
      answer := Ok(Proposed(Leave(group.chain, group.leaf)));
    }

    method SelfUpdate(groupId: GroupId, nonce: nat) returns (answer: Answer)
      requires Valid()
      modifies this`groups, this`values
      ensures Valid() && (Held(), answer) == Step(localDid, old(Held()), Op.SelfUpdate(groupId, nonce))
    {
      if groupId !in groups {
        return Err(GroupNotFound(groupId));
      }
      answer := CommitAndMerge(groupId, None, {}, nonce, GroupFailed);
    }

    method CommitPendingProposals(groupId: GroupId, nonce: nat) returns (answer: Answer)
      requires Valid()
      modifies this`groups, this`values
      ensures Valid() && (Held(), answer) == Step(localDid, old(Held()), Op.CommitPendingProposals(groupId, nonce))
    {
      if groupId !in groups {
        return Err(GroupNotFound(groupId));
      }
      assert groups[groupId := groups[groupId]] == groups;
      if groups[groupId].proposals == {} {
        return Ok(NoProposals);
      }
      answer := CommitAndMerge(groupId, None, {}, nonce, CommitFailed);
    }

    method EncryptMessage(groupId: GroupId, plaintext: string) returns (answer: Answer)
      requires Valid()
      modifies this`groups, this`values
      ensures Valid() && (Held(), answer) == Step(localDid, old(Held()), Op.EncryptMessage(groupId, plaintext))
    {
      if groupId !in groups {
        return Err(GroupNotFound(groupId));
      }
      var group := groups[groupId];
      assert groups[groupId := group] == groups;
      if !group.active || group.proposals != {} {
        return Err(EncryptionFailed);
      }
      Put(groupId, group.(generation := group.generation + 1));
      answer := Ok(Encrypted(Application(group.chain, group.leaf, group.generation, plaintext)));
    }

    method ProcessMessage(groupId: GroupId, message: Message) returns (answer: Answer)
      requires Valid()
      modifies this`groups, this`values
      ensures Valid() && (Held(), answer) == Step(localDid, old(Held()), Op.ProcessMessage(groupId, message))
    {
      if groupId !in groups {
        return Err(GroupNotFound(groupId));
      }
      var group := groups[groupId];
      assert groups[groupId := group] == groups;
      if message.Welcome? {
        // Not a protocol message.
        return Err(DecryptionFailed);
      }
      if !Accepts(group, message) {
        return Err(DecryptionFailed);
      }
      match message {
        case Application(_, sender, generation, plaintext) =>
          Put(groupId, group.(seen := group.seen + {(sender, generation)}));
          answer := Ok(Decrypted(plaintext, group.tree[sender].value));
        case Leave(_, leaver) =>
          // Kept for a later commit.
          Put(groupId, Proposing(group, leaver));
          answer := Ok(Done);
        case Commit(_, change) =>
          Put(groupId, Advanced(group, change));
          answer := Ok(Done);
      }
    }

    // ---- Queries ----

    method Epoch(groupId: GroupId) returns (r: Result<nat, Error>)
      ensures r == if groupId in groups then Ok(groups[groupId].epoch) else Err(GroupNotFound(groupId))
    {
      r := if groupId in groups then Ok(groups[groupId].epoch) else Err(GroupNotFound(groupId));
    }

    method ListMembers(groupId: GroupId) returns (r: Result<seq<Did>, Error>)
      ensures r == if groupId in groups then Ok(Members(groups[groupId].tree)) else Err(GroupNotFound(groupId))
    {
      if groupId !in groups {
        return Err(GroupNotFound(groupId));
      }
      var tree := groups[groupId].tree;
      var dids := [];
      for i := 0 to |tree|
        invariant dids == Members(tree[..i])
      {
        assert tree[..i + 1][..i] == tree[..i];
        if tree[i].Some? {
          dids := dids + [tree[i].value];
        }
      }
      assert tree[..|tree|] == tree;
      r := Ok(dids);
    }

    /** The first leaf of the member; none if and only if the group does not have the member. */
    method FindMemberIndex(groupId: GroupId, did: Did) returns (r: Result<Option<Leaf>, Error>)
      ensures r.Err? <==> groupId !in groups
      ensures r.Err? ==> r.error == GroupNotFound(groupId)
      ensures r.Ok? && r.value.Some? ==>
        var tree, leaf := groups[groupId].tree, r.value.value;
        leaf < |tree| && tree[leaf] == Some(did) && forall i :: 0 <= i < leaf ==> tree[i] != Some(did)
      ensures r.Ok? && r.value.None? ==> did !in Members(groups[groupId].tree)
    {
      if groupId !in groups {
        return Err(GroupNotFound(groupId));
      }
      var tree := groups[groupId].tree;
      for i := 0 to |tree|
        invariant forall j :: 0 <= j < i ==> tree[j] != Some(did)
      {
        if tree[i] == Some(did) {
          return Ok(Some(i));
        }
      }
      MembersAre(tree, did);
      r := Ok(None);
    }

    // ---- Desync detection ----

    method RecordProcessingSuccess(groupId: GroupId)
      modifies this`desyncCounters
      ensures desyncCounters == Desync.Recorded(old(desyncCounters), groupId, Desync.Success)
    {
      if groupId in desyncCounters {
        desyncCounters := desyncCounters[groupId := desyncCounters[groupId].(failures := 0)];
      }
    }

    /** Reports the desync once, on the transition. */
    method RecordProcessingFailure(groupId: GroupId) returns (info: Option<DesyncInfo>)
      modifies this`desyncCounters
      ensures desyncCounters == Desync.Recorded(old(desyncCounters), groupId, Desync.Failure)
      ensures var before := Desync.CounterOf(old(desyncCounters), groupId);
        info == if Desync.Raises(before)
                then Some(DesyncInfo(groupId, Desync.Counted(before), EpochOr0(groups, groupId))) else None
    {
      var counter := if groupId in desyncCounters then desyncCounters[groupId] else Desync.FRESH;
      var newCount := (counter.failures + 1) % U32_LIMIT;
      counter := counter.(failures := newCount);
      if newCount >= Desync.DESYNC_THRESHOLD && !counter.flagged {
        counter := counter.(flagged := true);
        var epoch := Epoch(groupId);
        info := Some(DesyncInfo(groupId, newCount, if epoch.Ok? then epoch.value else 0));
      } else {
        info := None;
      }
      desyncCounters := desyncCounters[groupId := counter];
    }

    predicate IsDesynced(groupId: GroupId)
      reads this
    {
      groupId in desyncCounters && desyncCounters[groupId].flagged
    }

    method ClearDesync(groupId: GroupId)
      modifies this`desyncCounters
      ensures desyncCounters == Desync.Recorded(old(desyncCounters), groupId, Desync.Cleared)
      ensures !IsDesynced(groupId)
    {
      if groupId in desyncCounters {
        desyncCounters := desyncCounters[groupId := Desync.FRESH];
      }
    }

    // ---- Recovery ----

    /** One iteration of the loop below: the Welcome, if the member could be added. */
    method InviteMember(newGroupId: GroupId, member: Did, keyPackages: KeyPackages, nonce: nat,
                        ghost p: Progress, ghost others: Account)
      returns (welcome: Option<Message>)
      requires Valid() && Held() == others.(groups := others.groups[newGroupId := p.group])
      requires p.group.self == localDid && p.group.chain.groupId == newGroupId && Listed(member, localDid, keyPackages)
      modifies this`groups, this`values
      ensures Valid()
      ensures var q := Invited(p, member, keyPackages, nonce);
        && Held() == others.(groups := others.groups[newGroupId := q.group])
        && q.group.self == localDid && q.group.chain.groupId == newGroupId
        && q.welcomes == p.welcomes + (if welcome.Some? then [(member, welcome.value)] else [])
        && q.members == p.members + (if welcome.Some? then [member] else [])
    {
      InviteStep(localDid, others, p, member, keyPackages, nonce);
      var answer := AddMember(newGroupId, keyPackages[member], nonce);
      welcome := if answer.Ok? then answer.value.welcome else None;
    }

    /**
     The old group is dropped, a new one is created, and the old members are added one after another.
    */
    method ReinitializeGroup(groupId: GroupId, keyPackages: KeyPackages, nonce: nat, nonces: seq<nat>)
      returns (answer: Answer)
      requires Valid()
      modifies this
      ensures Valid()
      ensures (Held(), answer) == Step(localDid, old(Held()), Op.Reinitialize(groupId, keyPackages, nonce, nonces))
      ensures Recovers(localDid, old(Held()), groupId, keyPackages,
                       if groupId in old(groups) then Members(old(groups)[groupId].tree) else [],
                       if groupId in old(groups) then old(groups)[groupId].epoch else 0, Held(), answer)
      ensures !IsDesynced(groupId)
      ensures desyncCounters == Desync.Recorded(old(desyncCounters), groupId, Desync.Cleared)
    {
      Recovery(localDid, Held(), Op.Reinitialize(groupId, keyPackages, nonce, nonces));
      var epoch := Epoch(groupId);
      var oldEpoch := if epoch.Ok? then epoch.value else 0;
      var listed := ListMembers(groupId);
      var oldMembers := if listed.Ok? then listed.value else [];

      RemoveGroup(groupId);
      ClearDesync(groupId);

      var newGroupId := NewGroupId(groupId, oldEpoch);
      NewIdDiffers(groupId, oldEpoch);
      var _ := CreateGroup(newGroupId, nonce);

      ghost var others := old(Held()).(groups := old(groups) - {groupId});
      var welcomes, addedMembers;
      ghost var p;
      welcomes, addedMembers, p := InviteMembers(newGroupId, oldMembers, keyPackages, nonce, nonces, others);
      answer := Ok(Reinitialized(newGroupId, welcomes, addedMembers));
    }

    /** The loop over the old members. */
    method InviteMembers(newGroupId: GroupId, oldMembers: seq<Did>, keyPackages: KeyPackages, ghost nonce: nat,
                         nonces: seq<nat>, ghost others: Account)
      returns (welcomes: seq<(Did, Message)>, addedMembers: seq<Did>, ghost p: Progress)
      requires Valid() && Held() == others.(groups := others.groups[newGroupId := Created(newGroupId, localDid, nonce)])
      modifies this`groups, this`values
      ensures Valid()
      ensures p == InvitedAll(Start(newGroupId, localDid, nonce), oldMembers, keyPackages, nonces)
      ensures Held() == others.(groups := others.groups[newGroupId := p.group])
      ensures welcomes == p.welcomes && addedMembers == p.members
    {
      ghost var start := Start(newGroupId, localDid, nonce);
      p := start;
      welcomes, addedMembers := [], [localDid];
      for i := 0 to |oldMembers|
        invariant Valid()
        invariant p == InvitedAll(start, oldMembers[..i], keyPackages, nonces)
        invariant p.group.self == localDid && p.group.chain.groupId == newGroupId
        invariant Held() == others.(groups := others.groups[newGroupId := p.group])
        invariant welcomes == p.welcomes && addedMembers == p.members
      {
        var member := oldMembers[i];
        assert oldMembers[..i + 1][..i] == oldMembers[..i];
        if member != localDid && member in keyPackages {
          var welcome := InviteMember(newGroupId, member, keyPackages, Draw(nonces, i), p, others);
          if welcome.Some? {
            welcomes := welcomes + [(member, welcome.value)];
            addedMembers := addedMembers + [member];
          }
        }
        p := Invited(p, member, keyPackages, Draw(nonces, i));
      }
      assert oldMembers[..|oldMembers|] == oldMembers;
    }

    // ---- Snapshots ----

    method ExportState() returns (s: Snapshot)
      ensures Captures(s, groups, values)
    {
      var entries: seq<(string, string)> := [];
      var keys := values.Keys;
      while keys != {}
        invariant keys <= values.Keys && AllFrom(entries, values)
        invariant forall k :: k in values && k !in keys ==> Entry(k, values[k]) in entries
        decreases |keys|
      {
        var k :| k in keys;
        keys := keys - {k};
        assert IsEntry(Entry(k, values[k]), values);
        entries := entries + [Entry(k, values[k])];
      }
      var groupIds: seq<GroupId> := [];
      var rest := groups.Keys;
      while rest != {}
        invariant rest <= groups.Keys && NoDuplicates(groupIds)
        invariant forall id :: id in groupIds <==> id in groups && id !in rest
        decreases |rest|
      {
        var id :| id in rest;
        rest := rest - {id};
        groupIds := groupIds + [id];
      }
      s := Snapshot(groupIds, entries);
    }

    /** Replaces the store and reloads the groups of the snapshot; a corrupt snapshot changes nothing. */
    method RestoreInPlace(s: Snapshot) returns (r: Result<nat, Error>)
      modifies this`groups, this`values
      ensures r.Err? <==> Decoded(s.storageEntries).None?
      ensures r.Err? ==> groups == old(groups) && values == old(values)
      ensures r.Ok? ==>
        && values == Decoded(s.storageEntries).value[codec.keypairKey := codec.keypair]
        && (groups, r.value) == Reloaded(codec, old(groups), values, s.groupIds)
    {
      var restored: Values := map[];
      for i := 0 to |s.storageEntries|
        invariant groups == old(groups) && values == old(values)
        invariant Decoded(s.storageEntries[..i]) == Some(restored)
      {
        assert s.storageEntries[..i + 1][..i] == s.storageEntries[..i];
        var k := Decode(s.storageEntries[i].0);
        var v := Decode(s.storageEntries[i].1);
        if k.None? || v.None? {
          CorruptStays(s.storageEntries, i + 1);
          return Err(GroupFailed);
        }
        restored := restored[k.value := v.value];
      }
      assert s.storageEntries[..|s.storageEntries|] == s.storageEntries;
      values := restored;
      values := values[codec.keypairKey := codec.keypair];
      var count := 0;
      for i := 0 to |s.groupIds|
        invariant values == restored[codec.keypairKey := codec.keypair]
        invariant (groups, count) == Reloaded(codec, old(groups), values, s.groupIds[..i])
      {
        assert s.groupIds[..i + 1][..i] == s.groupIds[..i];
        var id := s.groupIds[i];
        var group := Load(codec, values, id);
        if group.Some? {
          groups := groups[id := group.value];
          count := count + 1;
        }
      }
      assert s.groupIds[..|s.groupIds|] == s.groupIds;
      r := Ok(count);
    }
  }

  /** The handler calls a group desynced exactly while a report has been made since it was last cleared. */
  lemma DesyncedIffReported(handler: MlsGroupHandler, es: seq<Desync.Event>, groupId: GroupId)
    requires handler.desyncCounters == Desync.After(es)
    ensures var t := Desync.TraceOf(es, groupId);
      handler.IsDesynced(groupId) <==>
        exists i :: 0 <= i < |t| && Desync.FirstSinceClear(t, i) && forall k :: i < k < |t| ==> t[k] != Desync.Cleared
  {
    Desync.DesyncedIffReported(es, groupId);
  }

  lemma StagedThenMerged(g: Group, c: Change)
    ensures MergedPending(Staged(g, c)) == Advanced(g, c)
  {
  }

  lemma InviteStep(self: Did, others: Account, p: Progress, member: Did, keyPackages: KeyPackages, nonce: nat)
    requires p.group.self == self && Listed(member, self, keyPackages)
    ensures var id := p.group.chain.groupId;
      var before := others.(groups := others.groups[id := p.group]);
      var (after, answer) := Step(self, before, Op.AddMember(id, keyPackages[member], nonce));
      var q := Invited(p, member, keyPackages, nonce);
      && after == others.(groups := others.groups[id := q.group]) && q.group.self == self && q.group.chain.groupId == id
      && if answer.Err? then q.welcomes == p.welcomes && q.members == p.members else
         && answer.value.Committed? && answer.value.welcome.Some?
         && q.welcomes == p.welcomes + [(member, answer.value.welcome.value)] && q.members == p.members + [member]
  {
  }

  lemma {:induction false} CorruptStays(entries: seq<(string, string)>, n: nat)
    requires n <= |entries| && Decoded(entries[..n]).None?
    ensures Decoded(entries).None?
  {
    if n == |entries| {
      assert entries[..n] == entries;
    } else {
      assert entries[..|entries| - 1][..n] == entries[..n];
      CorruptStays(entries[..|entries| - 1], n);
    }
  }

  /**
   Export and restore, end to end: a new handler of the same identity ends up with the same store, groups and key packages,
   so it accepts the same Welcomes, and the number returned is that of the groups.
  */
  method Recover(handler: MlsGroupHandler) returns (recovered: MlsGroupHandler, count: nat)
    requires handler.Valid()
    ensures recovered.Valid() && recovered.localDid == handler.localDid
    ensures recovered.Held() == handler.Held() && recovered.values == handler.values && count == |handler.groups|
    ensures forall m :: Admits(recovered.Held(), m) <==> Admits(handler.Held(), m)
  {
    var snapshot := handler.ExportState();
    recovered := new MlsGroupHandler(handler.localDid, handler.codec);
    RoundTrip(handler.codec, snapshot, handler.groups, handler.values);
    var r := recovered.RestoreInPlace(snapshot);
    count := r.value;
  }
}
