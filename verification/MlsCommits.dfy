/**
 Commits over whole runs: which commits of the members' histories were handed out. All of them were, but those that a
 re-initialisation makes.
*/
module MlsCommits {
  import opened Wrappers
  import opened MlsGroups
  import opened MlsSteps
  import opened MlsReinit
  import opened MlsAccounts
  import opened MlsReplicas
  import opened MlsDelivery

  function CommitAt(chain: Chain, j: nat): Message
    requires j < |chain.changes|
  {
    Commit(Prefix(chain, j), chain.changes[j])
  }

  function CommitsOf(chain: Chain): set<Message> {
    set j | 0 <= j < |chain.changes| :: CommitAt(chain, j)
  }

  /** The commits that the event makes as a re-initialisation; they are merged, and nobody gets them. */
  function Withheld(w: World, e: Event): set<Message> {
    if e.Act? && e.op.Reinitialize? then CommitsOf(Rebuilt(e.actor, GroupsOf(w, e.actor), e.op).group.chain) else {}
  }

  function AllWithheld(es: seq<Event>): set<Message> {
    if es == [] then {} else
    var init := es[..|es| - 1];
    AllWithheld(init) + Withheld(After(init), es[|es| - 1])
  }

  // ---- Every commit of a history is known ----

  /** The messages sent so far, and the commits withheld. */
  datatype Record = Record(sent: set<Message>, withheld: set<Message>) {
    predicate Has(m: Message) {
      m in sent || m in withheld
    }
  }

  predicate Extends(known: Record, more: Record) {
    known.sent <= more.sent && known.withheld <= more.withheld
  }

  predicate ChainKnown(chain: Chain, known: Record) {
    forall j :: 0 <= j < |chain.changes| ==> known.Has(CommitAt(chain, j))
  }

  predicate GroupKnown(g: Group, known: Record) {
    ChainKnown(g.chain, known) && (g.pending.Some? ==> Commit(g.chain, g.pending.value) in known.sent)
  }

  predicate MessageKnown(m: Message, known: Record) {
    (m.Commit? ==> m in known.sent && ChainKnown(m.parent, known)) && (m.Welcome? ==> ChainKnown(m.chain, known))
  }

  predicate GroupsKnown(groups: Groups, known: Record) {
    forall groupId :: groupId in groups ==> GroupKnown(groups[groupId], known)
  }

  predicate MessagesKnown(ms: set<Message>, known: Record) {
    forall m :: m in ms ==> MessageKnown(m, known)
  }

  predicate Known(w: World, known: Record) {
    MessagesKnown(w.sent, known) && forall did :: did in w.accounts ==> GroupsKnown(w.accounts[did].groups, known)
  }

  lemma ExtendedKnown(chain: Chain, c: Change, known: Record)
    requires ChainKnown(chain, known) && known.Has(Commit(chain, c))
    ensures ChainKnown(Extended(chain, c), known)
  {
    var longer := Extended(chain, c);
    forall j | 0 <= j < |longer.changes| ensures known.Has(CommitAt(longer, j)) {
      if j < |chain.changes| {
        assert CommitAt(longer, j) == CommitAt(chain, j) by {
          assert Prefix(longer, j) == Prefix(chain, j);
        }
      } else {
        assert Prefix(longer, j) == chain;
      }
    }
  }

  lemma PrefixKnown(chain: Chain, k: nat, known: Record)
    requires k <= |chain.changes| && ChainKnown(chain, known)
    ensures ChainKnown(Prefix(chain, k), known)
  {
    forall j | 0 <= j < k ensures known.Has(CommitAt(Prefix(chain, k), j)) {
      assert Prefix(Prefix(chain, k), j) == Prefix(chain, j);
      assert CommitAt(Prefix(chain, k), j) == CommitAt(chain, j);
    }
  }

  lemma CommittedKnown(g: Group, c: Change, known: Record)
    requires GroupKnown(g, known) && Sent(Ok(CommittedWith(g, c))) <= known.sent
    ensures GroupKnown(Advanced(g, c), known) && GroupKnown(Staged(g, c), known)
    ensures MessagesKnown(Sent(Ok(CommittedWith(g, c))), known)
  {
    assert Commit(g.chain, c) in Sent(Ok(CommittedWith(g, c)));
    ExtendedKnown(g.chain, c, known);
  }

  lemma CommitNowKnown(g: Group, c: Change, refusal: Error, known: Record)
    requires GroupKnown(g, known) && Sent(CommitNow(g, c, refusal).1) <= known.sent
    ensures var (h, answer) := CommitNow(g, c, refusal); GroupKnown(h, known) && MessagesKnown(Sent(answer), known)
  {
    if Committable(g, c) {
      CommittedKnown(g, c, known);
    }
  }

  lemma GroupStepKnown(g: Group, op: Op, known: Record)
    requires OnGroup(op) && GroupKnown(g, known) && Sent(GroupStep(g, op).1) <= known.sent
    requires op.ProcessMessage? ==> MessageKnown(op.message, known)
    ensures var (h, answer) := GroupStep(g, op); GroupKnown(h, known) && MessagesKnown(Sent(answer), known)
  {
    match op
    case AddMember(_, invitee, nonce) =>
      CommitNowKnown(g, NewChange(g, Some(invitee), {}, nonce), CommitFailed, known);
    case RemoveMember(_, leaf, nonce) =>
      CommitNowKnown(g, NewChange(g, None, {leaf}, nonce), CommitFailed, known);
    case SelfUpdate(_, nonce) =>
      CommitNowKnown(g, NewChange(g, None, {}, nonce), GroupFailed, known);
    case CommitPendingProposals(_, nonce) =>
      if g.proposals != {} {
        CommitNowKnown(g, NewChange(g, None, {}, nonce), CommitFailed, known);
      }
    case ProcessMessage(_, m) =>
      if Accepts(g, m) && m.Commit? {
        ExtendedKnown(g.chain, m.change, known);
      }
    case _ =>
      StagingKnown(g, op, known);
  }

  lemma StagingKnown(g: Group, op: Op, known: Record)
    requires op.AddMemberDeferred? || op.ConfirmAddMember? || op.CancelAddMember? || op.LeaveGroup? || op.EncryptMessage?
    requires GroupKnown(g, known) && Sent(GroupStep(g, op).1) <= known.sent
    ensures var (h, answer) := GroupStep(g, op); GroupKnown(h, known) && MessagesKnown(Sent(answer), known)
  {
    match op
    case AddMemberDeferred(_, invitee, nonce) =>
      var c := NewChange(g, Some(invitee), {}, nonce);
      if g.pending.None? && Committable(g, c) {
        CommittedKnown(g, c, known);
      }
    case ConfirmAddMember(_) =>
      if g.pending.Some? {
        ExtendedKnown(g.chain, g.pending.value, known);
      }
    case _ =>
  }

  lemma OwnCommits(chain: Chain)
    ensures forall j :: 0 <= j < |chain.changes| ==> CommitAt(chain, j) in CommitsOf(chain)
  {
  }

  lemma RebuiltKnown(self: Did, groups: Groups, op: Op, known: Record)
    requires op.Reinitialize? && CommitsOf(Rebuilt(self, groups, op).group.chain) <= known.withheld
    ensures var p := Rebuilt(self, groups, op);
      GroupKnown(p.group, known) && forall w :: w in p.welcomes ==> MessageKnown(w.1, known)
  {
    var p := Rebuilt(self, groups, op);
    var members := MembersOrNone(groups, op.groupId);
    ReinitialisedGroup(NewGroupId(op.groupId, EpochOr0(groups, op.groupId)), self, op.nonce, members, op.keyPackages,
                       op.nonces);
    OwnCommits(p.group.chain);
    assert ChainKnown(p.group.chain, known);
    forall w | w in p.welcomes ensures MessageKnown(w.1, known) {
      var i :| 0 <= i < |p.welcomes| && p.welcomes[i] == w;
      WelcomeKnown(p, Names(members, self, op.keyPackages), i, known);
    }
  }

  lemma WelcomeKnown(p: Progress, names: seq<Did>, i: nat, known: Record)
    requires Accomplished(p, names) && i < |p.welcomes| && ChainKnown(p.group.chain, known)
    ensures MessageKnown(p.welcomes[i].1, known)
  {
    assert WelcomeIs(p, names, i + 1);
    PrefixKnown(p.group.chain, i + 1, known);
  }

  lemma OperationKnown(w: World, actor: Did, op: Op, known: Record)
    requires GroupsKnown(GroupsOf(w, actor), known) && Withheld(w, Act(actor, op)) <= known.withheld
    requires Sent(Step(actor, AccountOf(w, actor), op).1) <= known.sent
    requires Receives(op) ==> MessageKnown(op.message, known)
    ensures var (after, answer) := Step(actor, AccountOf(w, actor), op);
      GroupsKnown(after.groups, known) && MessagesKnown(Sent(answer), known)
  {
    if op.Reinitialize? {
      RebuiltKnown(actor, GroupsOf(w, actor), op, known);
    } else if OnGroup(op) && op.groupId in GroupsOf(w, actor) {
      GroupStepKnown(GroupsOf(w, actor)[op.groupId], op, known);
    }
  }

  lemma MoreKnown(w: World, known: Record, more: Record)
    requires Known(w, known) && Extends(known, more)
    ensures Known(w, more)
  {
    forall chain | ChainKnown(chain, known) ensures ChainKnown(chain, more) {
    }
  }

  lemma StepKnown(w: World, e: Event, known: Record)
    requires Known(w, known) && e.Act? && (Receives(e.op) ==> e.op.message in w.sent)
    requires Withheld(w, e) <= known.withheld && Next(w, e).sent <= known.sent
    ensures Known(Next(w, e), known)
  {
    OperationKnown(w, e.actor, e.op, known);
  }

  lemma RestoredKnown(w: World, earlier: World, actor: Did, known: Record)
    requires Known(w, known) && Known(earlier, known)
    ensures Known(Next(w, Restart(actor, AccountOf(earlier, actor))), known)
  {
  }

  function KnownBy(es: seq<Event>): Record {
    Record(After(es).sent, AllWithheld(es))
  }

  lemma {:induction false} KnownGrows(es: seq<Event>, n: nat)
    requires n <= |es|
    ensures Extends(KnownBy(es[..n]), KnownBy(es))
  {
    if n == |es| {
      assert es[..n] == es;
    } else {
      KnownGrows(es[..|es| - 1], n);
      assert es[..|es| - 1][..n] == es[..n];
    }
  }

  lemma {:induction false} KnownAlways(es: seq<Event>)
    requires Run(es)
    ensures Known(After(es), KnownBy(es))
  {
    if es != [] {
      var init, e := es[..|es| - 1], es[|es| - 1];
      KnownAlways(init);
      KnownGrows(es, |es| - 1);
      MoreKnown(After(init), KnownBy(init), KnownBy(es));
      if e.Act? {
        StepKnown(After(init), e, KnownBy(es));
      } else {
        var n :| 0 <= n <= |init| && e.saved == AccountOf(After(init[..n]), e.actor);
        EarlierKnown(es, n);
        assert init[..n] == es[..n];
        RestoredKnown(After(init), After(es[..n]), e.actor, KnownBy(es));
      }
    }
  }

  lemma {:induction false} EarlierKnown(es: seq<Event>, n: nat)
    requires Run(es) && n < |es|
    ensures Known(After(es[..n]), KnownBy(es))
  {
    RunPrefix(es, n);
    KnownAlways(es[..n]);
    KnownGrows(es, n);
    MoreKnown(After(es[..n]), KnownBy(es[..n]), KnownBy(es));
  }

  // ---- What was handed out ----

  /**
   In every run, restarts included, every commit in a member's history was handed out to the network, unless it was made by
   a re-initialisation; and so was every pending one.
  */
  lemma {:induction false} CommitsHandedOut(es: seq<Event>, did: Did, groupId: GroupId)
    requires Run(es) && groupId in GroupsOf(After(es), did)
    ensures var g := GroupsOf(After(es), did)[groupId];
      && (forall j :: 0 <= j < |g.chain.changes| ==>
           CommitAt(g.chain, j) in After(es).sent || CommitAt(g.chain, j) in AllWithheld(es))
      && (g.pending.Some? ==> Commit(g.chain, g.pending.value) in After(es).sent)
  {
    KnownAlways(es);
    assert GroupKnown(GroupsOf(After(es), did)[groupId], KnownBy(es));
  }

  predicate NoReinitialization(es: seq<Event>) {
    forall e :: e in es ==> !(e.Act? && e.op.Reinitialize?)
  }

  lemma {:induction false} NothingWithheld(es: seq<Event>)
    requires NoReinitialization(es)
    ensures AllWithheld(es) == {}
  {
    if es != [] {
      assert es[|es| - 1] in es && forall e :: e in es[..|es| - 1] ==> e in es;
      NothingWithheld(es[..|es| - 1]);
    }
  }

  /**
   So in a run without re-initialisations a laggard catches up, from what was sent, if and only if it made none of the
   missing commits and none removes it.
  */
  lemma {:induction false} CatchesUpIfFollowing(es: seq<Event>, behind: Did, ahead: Did, groupId: GroupId)
    requires Run(es) && NoReinitialization(es)
    requires groupId in GroupsOf(After(es), behind) && groupId in GroupsOf(After(es), ahead)
    requires GroupsOf(After(es), behind)[groupId].active
    requires IsPrefix(GroupsOf(After(es), behind)[groupId].chain, GroupsOf(After(es), ahead)[groupId].chain)
    ensures var g, chain := GroupsOf(After(es), behind)[groupId], GroupsOf(After(es), ahead)[groupId].chain;
      Reaches(g, chain, After(es).sent) <==> Follows(g, chain, |g.chain.changes|)
  {
    CatchesUpIff(es, behind, ahead, groupId);
    CommitsHandedOut(es, ahead, groupId);
    NothingWithheld(es);
    var chain := GroupsOf(After(es), ahead)[groupId].chain;
    assert forall j :: 0 <= j < |chain.changes| ==> CommitAt(chain, j) == Commit(Prefix(chain, j), chain.changes[j]);
  }
}
