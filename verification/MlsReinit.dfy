/** Recovery of a desynced group: a new group is created, and the members of the old one are invited one by one. */
module MlsReinit {
  import opened Wrappers
  import opened Decimal
  import opened MlsGroups
  import opened MlsSteps

  /** The key packages at hand, each filed under a member; it need not name that member. */
  type KeyPackages = map<Did, KeyPackage>

  datatype Progress = Progress(group: Group, welcomes: seq<(Did, Message)>, members: seq<Did>)

  function NewGroupId(groupId: GroupId, oldEpoch: nat): GroupId {
    groupId + "-reinit-" + Digits(oldEpoch)
  }

  function Start(newGroupId: GroupId, self: Did, nonce: nat): Progress {
    Progress(Created(newGroupId, self, nonce), [], [self])
  }

  /** The fresh secrets of the commit for the member at position `i`. */
  function Draw(nonces: seq<nat>, i: nat): nat {
    if i < |nonces| then nonces[i] else 0
  }

  /** The member is to be invited. */
  predicate Listed(member: Did, self: Did, keyPackages: KeyPackages) {
    member != self && member in keyPackages
  }

  /** One member of the old group is handled: skipped, invited, or passed over when the addition fails. */
  function Invited(p: Progress, member: Did, keyPackages: KeyPackages, nonce: nat): Progress {
    if !Listed(member, p.group.self, keyPackages) then p else
    var (g, answer) := GroupStep(p.group, AddMember(p.group.chain.groupId, keyPackages[member], nonce));
    if answer.Err? then p
    else Progress(g, p.welcomes + [(member, answer.value.welcome.value)], p.members + [member])
  }

  function InvitedAll(p: Progress, members: seq<Did>, keyPackages: KeyPackages, nonces: seq<nat>): Progress {
    if members == [] then p else
    Invited(InvitedAll(p, members[..|members| - 1], keyPackages, nonces), members[|members| - 1], keyPackages,
            Draw(nonces, |members| - 1))
  }

  // ---- What the loop achieves ----

  /** The members of the new group: the administrator, and every identity named by a package, once, in order. */
  function Names(members: seq<Did>, self: Did, keyPackages: KeyPackages): seq<Did> {
    if members == [] then [self] else
    var before, last := Names(members[..|members| - 1], self, keyPackages), members[|members| - 1];
    if Listed(last, self, keyPackages) && keyPackages[last].identity !in before then before + [keyPackages[last].identity]
    else before
  }

  /** The members reported: the administrator, and the members whose package was added. */
  function Reported(members: seq<Did>, self: Did, keyPackages: KeyPackages): seq<Did> {
    if members == [] then [self] else
    var init, last := members[..|members| - 1], members[|members| - 1];
    var before := Reported(init, self, keyPackages);
    if Listed(last, self, keyPackages) && keyPackages[last].identity !in Names(init, self, keyPackages) then before + [last]
    else before
  }

  function FullTree(members: seq<Did>): Tree {
    seq(|members|, i requires 0 <= i < |members| => Some(members[i]))
  }

  /** Every commit is the administrator's. */
  predicate ByAdministrator(chain: Chain) {
    forall k :: 0 <= k < |chain.changes| ==> chain.changes[k].committer == 0
  }

  /** The k-th Welcome leads into epoch k of the new group's history, with the first k + 1 members. */
  predicate WelcomeIs(p: Progress, names: seq<Did>, k: nat)
    requires 1 <= k <= |p.welcomes| == |p.group.chain.changes| && |p.members| == |names| == |p.welcomes| + 1
  {
    var (member, w) := p.welcomes[k - 1];
    && member == p.members[k]
    && w.Welcome? && w.invitee.identity == names[k] && w.epoch == k && w.leaf == k && w.tree == FullTree(names[..k + 1])
    && w.chain == Prefix(p.group.chain, k)
  }

  /** The group has these members, in this order, one commit each but the first, and as many Welcomes. */
  predicate Accomplished(p: Progress, names: seq<Did>) {
    && |p.members| == |names| == |p.welcomes| + 1 && names[0] == p.group.self
    && p.group.tree == FullTree(names) && p.group.epoch == |p.welcomes| == |p.group.chain.changes|
    && ByAdministrator(p.group.chain) && p.group.chain.creator == p.group.self
    && Operational(p.group) && p.group.proposals == {} && p.group.leaf == 0
    && p.group.generation == 0 && p.group.seen == {}
    && forall k :: 1 <= k <= |p.welcomes| ==> WelcomeIs(p, names, k)
  }

  lemma FullTreePlaced(members: seq<Did>, did: Did)
    ensures Blanked(FullTree(members), {}) == FullTree(members)
    ensures Placed(FullTree(members), did) == FullTree(members + [did]) && LeftmostBlank(FullTree(members)) == |members|
    ensures HasMember(FullTree(members), did) <==> did in members
  {
    if did in members {
      var i :| 0 <= i < |members| && members[i] == did;
      assert FullTree(members)[i] == Some(did);
    }
  }

  /** Whether the addition is possible depends on the name in the package alone. */
  lemma CommittableIff(p: Progress, names: seq<Did>, package: KeyPackage, nonce: nat)
    requires Accomplished(p, names)
    ensures var c := NewChange(p.group, Some(package), {}, nonce);
      Gone(c) == {} && (Committable(p.group, c) <==> package.identity !in names)
  {
    var c := NewChange(p.group, Some(package), {}, nonce);
    assert Gone(c) == {};
    FullTreePlaced(names, package.identity);
  }

  lemma InvitedAccomplishes(p: Progress, names: seq<Did>, member: Did, keyPackages: KeyPackages, nonce: nat)
    requires Accomplished(p, names) && Listed(member, p.group.self, keyPackages)
    ensures var identity, q := keyPackages[member].identity, Invited(p, member, keyPackages, nonce);
      if identity in names then q == p
      else Accomplished(q, names + [identity]) && q.members == p.members + [member] && Root(q.group.chain) == Root(p.group.chain)
  {
    var package := keyPackages[member];
    var c := NewChange(p.group, Some(package), {}, nonce);
    CommittableIff(p, names, package, nonce);
    if package.identity !in names {
      FullTreePlaced(names, package.identity);
      var q := Invited(p, member, keyPackages, nonce);
      assert q.group == Advanced(p.group, c);
      forall k | 1 <= k <= |q.welcomes| ensures WelcomeIs(q, names + [package.identity], k) {
        WelcomeKept(p, q, names, package.identity, k);
      }
    }
  }

  lemma WelcomeKept(p: Progress, q: Progress, names: seq<Did>, name: Did, k: nat)
    requires Accomplished(p, names) && 1 <= k <= |q.welcomes| == |p.welcomes| + 1
    requires |q.members| == |p.members| + 1 && q.members[..|p.members|] == p.members
    requires q.welcomes[..|p.welcomes|] == p.welcomes
    requires exists c: Change :: q.group.chain == Extended(p.group.chain, c)
    requires k == |q.welcomes| ==>
      var (member, w) := q.welcomes[k - 1];
      && member == q.members[k] && w.Welcome? && w.invitee.identity == name && w.epoch == k && w.leaf == k
      && w.tree == FullTree(names + [name]) && w.chain == q.group.chain
    ensures WelcomeIs(q, names + [name], k)
  {
    if k <= |p.welcomes| {
      assert WelcomeIs(p, names, k) && q.welcomes[k - 1] == p.welcomes[k - 1];
      assert (names + [name])[..k + 1] == names[..k + 1];
      assert Prefix(q.group.chain, k) == Prefix(p.group.chain, k);
    } else {
      assert (names + [name])[..k + 1] == names + [name];
      assert Prefix(q.group.chain, k) == q.group.chain;
    }
  }

  /** For all members, packages and nonces: which members the new group has, which are reported, and what the Welcomes say. */
  lemma {:induction false} ReinitialisedGroup(
      newGroupId: GroupId, self: Did, nonce: nat, members: seq<Did>, keyPackages: KeyPackages, nonces: seq<nat>)
    ensures var p := InvitedAll(Start(newGroupId, self, nonce), members, keyPackages, nonces);
      && p.group.self == self && Root(p.group.chain) == Chain(newGroupId, self, nonce, [])
      && Accomplished(p, Names(members, self, keyPackages))
      && p.members == Reported(members, self, keyPackages)
      && Members(p.group.tree) == Names(members, self, keyPackages)
  {
    var p := InvitedAll(Start(newGroupId, self, nonce), members, keyPackages, nonces);
    if members != [] {
      var init, last := members[..|members| - 1], members[|members| - 1];
      ReinitialisedGroup(newGroupId, self, nonce, init, keyPackages, nonces);
      var before := InvitedAll(Start(newGroupId, self, nonce), init, keyPackages, nonces);
      if Listed(last, self, keyPackages) {
        InvitedAccomplishes(before, Names(init, self, keyPackages), last, keyPackages, Draw(nonces, |members| - 1));
      }
    } else {
      assert FullTree([self]) == [Some(self)];
    }
    MembersOfFull(Names(members, self, keyPackages));
  }

  /** Each Welcome is for a listed member, and for the package filed under that member. */
  predicate ForPackages(welcomes: seq<(Did, Message)>, keyPackages: KeyPackages) {
    forall i :: 0 <= i < |welcomes| ==>
      welcomes[i].0 in keyPackages && welcomes[i].1.Welcome? && welcomes[i].1.invitee == keyPackages[welcomes[i].0]
  }

  lemma {:induction false} InvitedWithPackages(p: Progress, members: seq<Did>, keyPackages: KeyPackages, nonces: seq<nat>)
    requires ForPackages(p.welcomes, keyPackages)
    ensures ForPackages(InvitedAll(p, members, keyPackages, nonces).welcomes, keyPackages)
  {
    if members != [] {
      InvitedWithPackages(p, members[..|members| - 1], keyPackages, nonces);
    }
  }

  lemma {:induction false} MembersOfFull(members: seq<Did>)
    ensures Members(FullTree(members)) == members
  {
    if members != [] {
      MembersOfFull(members[..|members| - 1]);
      assert FullTree(members)[..|members| - 1] == FullTree(members[..|members| - 1]);
    }
  }

  // ---- When the report is right ----

  /** The package of the member at position `i`, if there is one to be used, does not falsify the report. */
  predicate Harmless(members: seq<Did>, self: Did, keyPackages: KeyPackages, i: nat)
    requires i < |members|
  {
    Listed(members[i], self, keyPackages) ==>
      var name := keyPackages[members[i]].identity;
      || name == members[i]
      || name == self
      || exists j :: 0 <= j < i && Listed(members[j], self, keyPackages) && keyPackages[members[j]].identity == name
  }

  lemma {:induction false} NamesAre(members: seq<Did>, self: Did, keyPackages: KeyPackages, name: Did)
    ensures name in Names(members, self, keyPackages) <==>
      || name == self
      || exists j :: 0 <= j < |members| && Listed(members[j], self, keyPackages) && keyPackages[members[j]].identity == name
  {
    if members != [] {
      var init, last := members[..|members| - 1], members[|members| - 1];
      NamesAre(init, self, keyPackages, name);
      assert forall j :: 0 <= j < |init| ==> init[j] == members[j];
    }
  }

  lemma {:induction false} ReportedIsNames(members: seq<Did>, self: Did, keyPackages: KeyPackages)
    ensures |Reported(members, self, keyPackages)| == |Names(members, self, keyPackages)|
    ensures Reported(members, self, keyPackages) == Names(members, self, keyPackages)
      <==> forall i :: 0 <= i < |members| ==> Harmless(members, self, keyPackages, i)
  {
    if members != [] {
      var n := |members| - 1;
      var init, last := members[..n], members[n];
      ReportedIsNames(init, self, keyPackages);
      var names, reported := Names(init, self, keyPackages), Reported(init, self, keyPackages);
      forall i | 0 <= i < n ensures Harmless(init, self, keyPackages, i) <==> Harmless(members, self, keyPackages, i) {
        assert forall j :: 0 <= j <= i ==> init[j] == members[j];
      }
      HarmlessLast(members, self, keyPackages);
      if Listed(last, self, keyPackages) && keyPackages[last].identity !in names {
        SameExtended(reported, names, last, keyPackages[last].identity);
      }
      assert (forall i :: 0 <= i < |members| ==> Harmless(members, self, keyPackages, i))
        <==> (forall i :: 0 <= i < n ==> Harmless(init, self, keyPackages, i)) && Harmless(members, self, keyPackages, n);
    }
  }

  lemma HarmlessLast(members: seq<Did>, self: Did, keyPackages: KeyPackages)
    requires members != []
    ensures var n := |members| - 1;
      Harmless(members, self, keyPackages, n) <==>
        (Listed(members[n], self, keyPackages) ==>
          keyPackages[members[n]].identity == members[n]
          || keyPackages[members[n]].identity in Names(members[..n], self, keyPackages))
  {
    var n := |members| - 1;
    if Listed(members[n], self, keyPackages) {
      NamesAre(members[..n], self, keyPackages, keyPackages[members[n]].identity);
      assert forall j :: 0 <= j < n ==> members[..n][j] == members[j];
    }
  }

  lemma SameExtended(a: seq<Did>, b: seq<Did>, x: Did, y: Did)
    requires |a| == |b|
    ensures a + [x] == b + [y] <==> a == b && x == y
  {
    if a + [x] == b + [y] {
      assert a == (a + [x])[..|a|] == (b + [y])[..|b|] == b;
      assert x == (a + [x])[|a|] == (b + [y])[|b|];
    }
  }

  /**
   The reported members are those of the new group if and only if each package used names the member it is filed under,
   or the administrator, or whom an earlier one names; in the last two cases nobody is added, and nobody reported.
  */
  lemma ReportIsRightIff(
      newGroupId: GroupId, self: Did, nonce: nat, members: seq<Did>, keyPackages: KeyPackages, nonces: seq<nat>)
    ensures var p := InvitedAll(Start(newGroupId, self, nonce), members, keyPackages, nonces);
      p.members == Members(p.group.tree) <==>
        forall i :: 0 <= i < |members| ==> Harmless(members, self, keyPackages, i)
  {
    ReinitialisedGroup(newGroupId, self, nonce, members, keyPackages, nonces);
    ReportedIsNames(members, self, keyPackages);
  }

  /** The members with a key package, in the order of the old group. */
  function Invitees(members: seq<Did>, self: Did, keyPackages: KeyPackages): seq<Did> {
    if members == [] then [] else
    var before, last := Invitees(members[..|members| - 1], self, keyPackages), members[|members| - 1];
    if Listed(last, self, keyPackages) then before + [last] else before
  }

  /** Each key package names the member it is filed under. */
  predicate Matching(members: seq<Did>, self: Did, keyPackages: KeyPackages) {
    forall m :: m in members && Listed(m, self, keyPackages) ==> keyPackages[m].identity == m
  }

  lemma {:induction false} InviteesWithin(members: seq<Did>, self: Did, keyPackages: KeyPackages, did: Did)
    requires did in Invitees(members, self, keyPackages)
    ensures did in members && Listed(did, self, keyPackages)
  {
    var init, last := members[..|members| - 1], members[|members| - 1];
    if did in Invitees(init, self, keyPackages) {
      InviteesWithin(init, self, keyPackages, did);
    }
  }

  /** With distinct members whose packages name them, everybody who can be invited is, in old order. */
  lemma {:induction false} MatchingInvitesAll(members: seq<Did>, self: Did, keyPackages: KeyPackages)
    requires NoDuplicates(members) && Matching(members, self, keyPackages)
    ensures Names(members, self, keyPackages) == Reported(members, self, keyPackages)
      == [self] + Invitees(members, self, keyPackages)
  {
    if members != [] {
      var init, last := members[..|members| - 1], members[|members| - 1];
      MatchingInvitesAll(init, self, keyPackages);
      if Listed(last, self, keyPackages) && last in Invitees(init, self, keyPackages) {
        InviteesWithin(init, self, keyPackages, last);
      }
    }
  }

  /** The new group's id differs from the old one's. */
  lemma NewIdDiffers(groupId: GroupId, oldEpoch: nat)
    ensures NewGroupId(groupId, oldEpoch) != groupId
  {
    assert |NewGroupId(groupId, oldEpoch)| > |groupId|;
  }
}
