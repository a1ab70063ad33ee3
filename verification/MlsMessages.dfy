/**
 Application messages over whole runs: which of them are decrypted, by whom, and how restarts interfere.

 A sender's generations and a receiver's memory of them live in the saved state, so a restart takes them back.
*/
module MlsMessages {
  import opened Wrappers
  import opened MlsGroups
  import opened MlsSteps
  import opened MlsReinit
  import opened MlsAccounts
  import opened MlsReplicas
  import opened MlsLineage

  // ---- What a copy remembers ----

  predicate Decrypts(g: Group, op: Op, context: Chain, sender: Leaf, generation: nat) {
    && op.ProcessMessage? && op.message.Application? && op.message.context == context
    && op.message.sender == sender && op.message.generation == generation && Accepts(g, op.message)
  }

  /** What is remembered afterwards was remembered before, in the same epoch, or has just been decrypted. */
  lemma GroupStepRemembers(g: Group, op: Op)
    requires OnGroup(op)
    ensures var h := GroupStep(g, op).0;
      forall sender, generation :: (sender, generation) in h.seen ==>
        || (h.chain == g.chain && (sender, generation) in g.seen)
        || (h.chain == g.chain && Decrypts(g, op, g.chain, sender, generation))
  {
  }

  /** A copy appears only by replacement, and a replacement that is no restart remembers nothing. */
  lemma FreshRemembersNothing(w: World, e: Event, did: Did, groupId: GroupId)
    requires groupId in GroupsOf(Next(w, e), did) && e.Act?
    requires Replaces(w, e, did, groupId) || groupId !in GroupsOf(w, did)
    ensures GroupsOf(Next(w, e), did)[groupId].seen == {} && e.actor == did
  {
    if e.op.Reinitialize? {
      RebuiltRemembersNothing(e.actor, GroupsOf(w, e.actor), e.op);
    }
  }

  lemma RebuiltRemembersNothing(self: Did, groups: Groups, op: Op)
    requires op.Reinitialize?
    ensures Rebuilt(self, groups, op).group.seen == {}
  {
    ReinitialisedGroup(NewGroupId(op.groupId, EpochOr0(groups, op.groupId)), self, op.nonce,
                       MembersOrNone(groups, op.groupId), op.keyPackages, op.nonces);
  }

  /** At event `j` the handler decrypts a message with this context, sender and generation. */
  predicate DecryptsAt(es: seq<Event>, j: nat, did: Did, groupId: GroupId, context: Chain, sender: Leaf, generation: nat)
    requires j < |es|
  {
    && es[j].Act? && es[j].actor == did && es[j].op.ProcessMessage? && es[j].op.groupId == groupId
    && CopyAt(es, j, did, groupId).Some?
    && Decrypts(CopyAt(es, j, did, groupId).value, es[j].op, context, sender, generation)
  }

  /** The handler's copy descends from a decryption of a message with this context, sender and generation. */
  ghost predicate HasDecrypted(es: seq<Event>, did: Did, groupId: GroupId, context: Chain, sender: Leaf, generation: nat) {
    exists j :: 0 <= j < |es| && DecryptsAt(es, j, did, groupId, context, sender, generation)
                && Descends(es, j + 1, |es|, did, groupId)
  }

  /** What is remembered after an event that is no restart was remembered before it, or is decrypted by it. */
  lemma WasRemembered(w: World, e: Event, did: Did, groupId: GroupId, sender: Leaf, generation: nat)
    requires groupId in GroupsOf(Next(w, e), did) && !(e.Restart? && e.actor == did)
    requires (sender, generation) in GroupsOf(Next(w, e), did)[groupId].seen
    ensures groupId in GroupsOf(w, did) && !Replaces(w, e, did, groupId)
    ensures GroupsOf(Next(w, e), did)[groupId].chain == GroupsOf(w, did)[groupId].chain
    ensures
      || (sender, generation) in GroupsOf(w, did)[groupId].seen
      || (e.Act? && e.actor == did && OnGroup(e.op) && e.op.groupId == groupId
          && Decrypts(GroupsOf(w, did)[groupId], e.op, GroupsOf(w, did)[groupId].chain, sender, generation))
  {
    NotFresh(w, e, did, groupId);
    if e.Act? && e.actor == did && OnGroup(e.op) && e.op.groupId == groupId {
      GroupStepRemembers(GroupsOf(w, did)[groupId], e.op);
    } else {
      OthersStay(w, e, did, groupId);
    }
  }

  lemma NotFresh(w: World, e: Event, did: Did, groupId: GroupId)
    requires groupId in GroupsOf(Next(w, e), did) && GroupsOf(Next(w, e), did)[groupId].seen != {}
    requires !(e.Restart? && e.actor == did)
    ensures groupId in GroupsOf(w, did) && !Replaces(w, e, did, groupId)
  {
    if e.Act? && (Replaces(w, e, did, groupId) || groupId !in GroupsOf(w, did)) {
      FreshRemembersNothing(w, e, did, groupId);
    }
  }

  /** The copy before event `n` has this history and remembers this message. */
  predicate Remembers(es: seq<Event>, n: nat, did: Did, groupId: GroupId, context: Chain, sender: Leaf, generation: nat)
    requires n <= |es|
  {
    var copy := CopyAt(es, n, did, groupId);
    copy.Some? && copy.value.chain == context && (sender, generation) in copy.value.seen
  }

  /** At the start nothing is remembered. */
  lemma {:induction false} NothingAtFirst(
      es: seq<Event>, did: Did, groupId: GroupId, context: Chain, sender: Leaf, generation: nat)
    ensures !Remembers(es, 0, did, groupId, context, sender, generation)
  {
  }

  /** Afterwards only what was remembered in a state that is continued, or is being decrypted. */
  lemma {:induction false} RememberedOnlyIf(
      es: seq<Event>, k: nat, did: Did, groupId: GroupId, context: Chain, sender: Leaf, generation: nat)
    requires Run(es) && k < |es| && Remembers(es, k + 1, did, groupId, context, sender, generation)
    ensures
      || DecryptsAt(es, k, did, groupId, context, sender, generation)
      || exists i :: 0 <= i <= k && Continues(es, k, i, did, groupId)
                     && Remembers(es, i, did, groupId, context, sender, generation)
  {
    AfterNext(es, k);
    if es[k].Restart? && es[k].actor == did {
      var i := SavedAt(es, k);
      assert Continues(es, k, i, did, groupId);
    } else {
      WasRemembered(After(es[..k]), es[k], did, groupId, sender, generation);
      assert Continues(es, k, k, did, groupId);
    }
  }

  lemma {:induction false} FindDecryption(
      es: seq<Event>, n: nat, did: Did, groupId: GroupId, context: Chain, sender: Leaf, generation: nat) returns (j: nat)
    requires Run(es) && n <= |es| && Remembers(es, n, did, groupId, context, sender, generation)
    ensures j < n && DecryptsAt(es, j, did, groupId, context, sender, generation) && Descends(es, j + 1, n, did, groupId)
  {
    var origins := Origins(es, did, groupId);
    var holds := seq(|es| + 1, i requires 0 <= i <= |es| => Remembers(es, i, did, groupId, context, sender, generation));
    var made := seq(|es|, k requires 0 <= k < |es| => DecryptsAt(es, k, did, groupId, context, sender, generation));
    NothingAtFirst(es, did, groupId, context, sender, generation);
    forall k | 0 <= k < |es| && holds[k + 1]
      ensures made[k] || exists i :: 0 <= i <= k && i in origins[k] && holds[i]
    {
      RememberedOnlyIf(es, k, did, groupId, context, sender, generation);
      if !made[k] {
        var i :| 0 <= i <= k && Continues(es, k, i, did, groupId)
              && Remembers(es, i, did, groupId, context, sender, generation);
        assert i in origins[k] && holds[i];
      }
    }
    j := FindMaker(origins, holds, made, n);
  }

  /** A copy remembers a generation of its epoch if and only if it descends from a decryption of it. */
  lemma {:induction false} SeenIff(es: seq<Event>, did: Did, groupId: GroupId, sender: Leaf, generation: nat)
    requires Run(es) && groupId in GroupsOf(After(es), did)
    ensures var g := GroupsOf(After(es), did)[groupId];
      (sender, generation) in g.seen <==> HasDecrypted(es, did, groupId, g.chain, sender, generation)
  {
    assert es[..|es|] == es;
    var context := GroupsOf(After(es), did)[groupId].chain;
    RemembersIff(es, did, groupId, context, sender, generation);
  }

  lemma {:induction false} RemembersIff(
      es: seq<Event>, did: Did, groupId: GroupId, context: Chain, sender: Leaf, generation: nat)
    requires Run(es) && CopyAt(es, |es|, did, groupId).Some? && CopyAt(es, |es|, did, groupId).value.chain == context
    ensures Remembers(es, |es|, did, groupId, context, sender, generation)
        <==> HasDecrypted(es, did, groupId, context, sender, generation)
  {
    if Remembers(es, |es|, did, groupId, context, sender, generation) {
      var j := FindDecryption(es, |es|, did, groupId, context, sender, generation);
    }
    if HasDecrypted(es, did, groupId, context, sender, generation) {
      var j :| 0 <= j < |es| && DecryptsAt(es, j, did, groupId, context, sender, generation)
            && Descends(es, j + 1, |es|, did, groupId);
      DecryptionRemembered(es, j, did, groupId, context, sender, generation);
      DescendantLater(es, j + 1, |es|, did, groupId);
    }
  }

  lemma {:induction false} DecryptionRemembered(
      es: seq<Event>, j: nat, did: Did, groupId: GroupId, context: Chain, sender: Leaf, generation: nat)
    requires j < |es| && DecryptsAt(es, j, did, groupId, context, sender, generation)
    ensures Remembers(es, j + 1, did, groupId, context, sender, generation)
  {
    AfterNext(es, j);
    RemembersNext(After(es[..j]), es[j], did, groupId, context, sender, generation);
  }

  lemma RemembersNext(w: World, e: Event, did: Did, groupId: GroupId, context: Chain, sender: Leaf, generation: nat)
    requires e.Act? && e.actor == did && e.op.ProcessMessage? && e.op.groupId == groupId && groupId in GroupsOf(w, did)
    requires Decrypts(GroupsOf(w, did)[groupId], e.op, context, sender, generation)
    ensures groupId in GroupsOf(Next(w, e), did)
    ensures var h := GroupsOf(Next(w, e), did)[groupId]; h.chain == context && (sender, generation) in h.seen
  {
  }

  // ---- Encryption ----

  /** At event `i` the handler encrypts a message for the group. */
  predicate EncryptsAt(es: seq<Event>, i: nat, did: Did, groupId: GroupId)
    requires i < |es|
  {
    && es[i].Act? && es[i].actor == did && es[i].op.EncryptMessage? && es[i].op.groupId == groupId
    && CopyAt(es, i, did, groupId).Some? && MaySend(CopyAt(es, i, did, groupId).value)
  }

  predicate MaySend(g: Group) {
    g.active && g.proposals == {}
  }

  function NextMessage(g: Group, plaintext: string): Message {
    Application(g.chain, g.leaf, g.generation, plaintext)
  }

  function EncryptedAt(es: seq<Event>, i: nat, did: Did, groupId: GroupId): Message
    requires i < |es| && EncryptsAt(es, i, did, groupId)
  {
    NextMessage(CopyAt(es, i, did, groupId).value, es[i].op.plaintext)
  }

  /** Every message sent was encrypted at some event, by the member whose leaf it was sent from. */
  lemma {:induction false} FindEncryption(es: seq<Event>, m: Message) returns (i: nat)
    requires Run(es) && m.Application? && m in After(es).sent
    ensures i < |es| && es[i].Act? && es[i].op.EncryptMessage? && EncryptsAt(es, i, es[i].actor, es[i].op.groupId)
    ensures m == EncryptedAt(es, i, es[i].actor, es[i].op.groupId)
    ensures m.sender < |Replay(m.context)| && Replay(m.context)[m.sender] == Some(es[i].actor)
    ensures m.context.groupId == es[i].op.groupId
  {
    assert es != [];
    var init, k := es[..|es| - 1], |es| - 1;
    if m in After(init).sent {
      i := FindEncryption(init, m);
      assert init[..i] == es[..i];
    } else {
      i := k;
      ApplicationSent(After(init), es[k], m);
      InvAlways(init);
      assert GroupOk(es[k].actor, es[k].op.groupId, GroupsOf(After(init), es[k].actor)[es[k].op.groupId]);
    }
  }

  lemma ApplicationSent(w: World, e: Event, m: Message)
    requires m.Application? && m in Next(w, e).sent && m !in w.sent
    ensures e.Act? && e.op.EncryptMessage? && e.op.groupId in GroupsOf(w, e.actor)
    ensures var g := GroupsOf(w, e.actor)[e.op.groupId]; MaySend(g) && m == NextMessage(g, e.op.plaintext)
  {
    if e.Act? && e.op.Reinitialize? {
      WelcomesOnly(w, e.actor, e.op);
    }
  }

  lemma WelcomesOnly(w: World, actor: Did, op: Op)
    requires op.Reinitialize?
    ensures forall v :: v in Rebuilt(actor, GroupsOf(w, actor), op).welcomes ==> v.1.Welcome?
  {
    var groups := GroupsOf(w, actor);
    var newId, members := NewGroupId(op.groupId, EpochOr0(groups, op.groupId)), MembersOrNone(groups, op.groupId);
    ReinitialisedGroup(newId, actor, op.nonce, members, op.keyPackages, op.nonces);
    var p := Rebuilt(actor, groups, op);
    forall v | v in p.welcomes ensures v.1.Welcome? {
      var i :| 0 <= i < |p.welcomes| && p.welcomes[i] == v;
      assert WelcomeIs(p, Names(members, actor, op.keyPackages), i + 1);
    }
  }

  /** A generation is used again in an epoch only by a copy that does not descend from its first use. */
  lemma {:induction false} GenerationReusedOnlyIf(es: seq<Event>, i: nat, j: nat, did: Did, groupId: GroupId)
    requires i < j < |es| && EncryptsAt(es, i, did, groupId) && EncryptsAt(es, j, did, groupId)
    requires var m, n := EncryptedAt(es, i, did, groupId), EncryptedAt(es, j, did, groupId);
      m.context == n.context && m.generation == n.generation
    ensures !Descends(es, i + 1, j, did, groupId)
    ensures !Undisturbed(es, i + 1, j, did, groupId)
  {
    if Descends(es, i + 1, j, did, groupId) {
      GenerationCounted(es, i, did, groupId);
      DescendantLater(es, i + 1, j, did, groupId);
    }
    if Undisturbed(es, i + 1, j, did, groupId) {
      UndisturbedDescends(es, i + 1, j, did, groupId);
    }
  }

  lemma {:induction false} GenerationCounted(es: seq<Event>, i: nat, did: Did, groupId: GroupId)
    requires i < |es| && EncryptsAt(es, i, did, groupId)
    ensures CopyAt(es, i + 1, did, groupId).Some?
    ensures var g, h := CopyAt(es, i, did, groupId).value, CopyAt(es, i + 1, did, groupId).value;
      h.chain == g.chain && h.generation == g.generation + 1
  {
    AfterNext(es, i);
    CountedNext(After(es[..i]), es[i], did, groupId);
  }

  lemma CountedNext(w: World, e: Event, did: Did, groupId: GroupId)
    requires e.Act? && e.actor == did && e.op.EncryptMessage? && e.op.groupId == groupId
    requires groupId in GroupsOf(w, did) && MaySend(GroupsOf(w, did)[groupId])
    ensures groupId in GroupsOf(Next(w, e), did)
    ensures var g, h := GroupsOf(w, did)[groupId], GroupsOf(Next(w, e), did)[groupId];
      h.chain == g.chain && h.generation == g.generation + 1
  {
  }

  /** In every run a message goes out under the leaf of the member who encrypts it. */
  lemma {:induction false} EncryptedInOwnName(es: seq<Event>, i: nat, did: Did, groupId: GroupId)
    requires Run(es) && i < |es| && EncryptsAt(es, i, did, groupId)
    ensures var m := EncryptedAt(es, i, did, groupId);
      && m in After(es).sent && m.plaintext == es[i].op.plaintext
      && m.sender < |Replay(m.context)| && Replay(m.context)[m.sender] == Some(did)
  {
    var m := EncryptedAt(es, i, did, groupId);
    PossibleAt(es, i);
    InvAlways(es[..i]);
    assert GroupOk(did, groupId, CopyAt(es, i, did, groupId).value);
    SentNow(es, i, did, groupId);
    SentStays(es, i + 1, m);
  }

  lemma {:induction false} SentNow(es: seq<Event>, i: nat, did: Did, groupId: GroupId)
    requires i < |es| && EncryptsAt(es, i, did, groupId)
    ensures EncryptedAt(es, i, did, groupId) in After(es[..i + 1]).sent
  {
    AfterNext(es, i);
    assert es[i] == Act(did, EncryptMessage(groupId, es[i].op.plaintext));
    EncryptNext(After(es[..i]), did, groupId, es[i].op.plaintext);
  }

  lemma {:induction false} SentStays(es: seq<Event>, n: nat, m: Message)
    requires n <= |es| && m in After(es[..n]).sent
    ensures m in After(es).sent
  {
    if n == |es| {
      assert es[..n] == es;
    } else {
      assert es[..|es| - 1][..n] == es[..n];
      SentStays(es[..|es| - 1], n, m);
    }
  }

  // ---- Decryption ----

  /**
   The message is decrypted if and only if the receiver is an active member with exactly the history it was sent in, did
   not send it, and its copy does not descend from a decryption of a message with the same sender and generation. The
   plaintext is the one encrypted, the credential that of the member whose leaf it was sent from; all else stays.
  */
  ghost predicate DecryptedIff(es: seq<Event>, did: Did, groupId: GroupId, g: Group, m: Message, h: Group, answer: Answer)
    requires m.Application?
  {
    && (answer.Ok? <==>
          && g.active && g.chain == m.context && g.leaf != m.sender
          && !HasDecrypted(es, did, groupId, m.context, m.sender, m.generation))
    && (answer.Ok? ==>
          && Occupied(Replay(m.context), m.sender)
          && answer == Ok(Decrypted(m.plaintext, Replay(m.context)[m.sender].value))
          && h == g.(seen := g.seen + {(m.sender, m.generation)}))
    && (answer.Err? ==> h == g)
  }

  lemma {:induction false} ApplicationProcessedIff(es: seq<Event>, did: Did, groupId: GroupId, m: Message)
    requires Run(es) && m in After(es).sent && m.Application? && groupId in GroupsOf(After(es), did)
    ensures var g := GroupsOf(After(es), did)[groupId];
      var (h, answer) := GroupStep(g, ProcessMessage(groupId, m)); DecryptedIff(es, did, groupId, g, m, h, answer)
  {
    InvAlways(es);
    SeenIff(es, did, groupId, m.sender, m.generation);
    DecryptionEffect(did, groupId, GroupsOf(After(es), did)[groupId], m);
  }

  /** The same for one group, by what it remembers. */
  predicate DecryptedUnseen(g: Group, m: Message, h: Group, answer: Answer)
    requires m.Application?
  {
    && (answer.Ok? <==> g.active && g.chain == m.context && g.leaf != m.sender && (m.sender, m.generation) !in g.seen)
    && (answer.Ok? ==>
          && Occupied(Replay(m.context), m.sender)
          && answer == Ok(Decrypted(m.plaintext, Replay(m.context)[m.sender].value))
          && h == g.(seen := g.seen + {(m.sender, m.generation)}))
    && (answer.Err? ==> h == g)
  }

  lemma DecryptionEffect(did: Did, groupId: GroupId, g: Group, m: Message)
    requires GroupOk(did, groupId, g) && m.Application? && MessageOk(m)
    ensures var (h, answer) := GroupStep(g, ProcessMessage(groupId, m)); DecryptedUnseen(g, m, h, answer)
  {
  }

  // ---- When each message is decrypted exactly once ----

  /** The handler decrypts this message at event `j`. */
  predicate OpensAt(es: seq<Event>, j: nat, did: Did, groupId: GroupId, m: Message)
    requires j < |es|
  {
    m.Application? && DecryptsAt(es, j, did, groupId, m.context, m.sender, m.generation) && es[j].op.message == m
  }

  /** The handler's copy descends from a decryption of this message. */
  ghost predicate HasOpened(es: seq<Event>, did: Did, groupId: GroupId, m: Message) {
    exists j :: 0 <= j < |es| && OpensAt(es, j, did, groupId, m) && Descends(es, j + 1, |es|, did, groupId)
  }

  predicate SameGeneration(n: Message, m: Message)
    requires m.Application?
  {
    n.Application? && n.context == m.context && n.sender == m.sender && n.generation == m.generation
  }

  /** No other message of this sender and epoch has the same generation. */
  ghost predicate GenerationUnique(es: seq<Event>, m: Message)
    requires m.Application?
  {
    forall n :: n in After(es).sent && SameGeneration(n, m) ==> n == m
  }

  /** Each encryption of the handler for the group descends from the one before. */
  ghost predicate SendsInDescent(es: seq<Event>, did: Did, groupId: GroupId) {
    forall i, j :: 0 <= i < j < |es| && EncryptsAt(es, i, did, groupId) && EncryptsAt(es, j, did, groupId) ==>
      Descends(es, i + 1, j, did, groupId)
  }

  /** A sender whose copy was never replaced or restored between its encryptions uses no generation twice. */
  lemma {:induction false} DescentIsUnique(es: seq<Event>, m: Message)
    requires Run(es) && m in After(es).sent && m.Application?
    requires Occupied(Replay(m.context), m.sender) ==>
      SendsInDescent(es, Replay(m.context)[m.sender].value, m.context.groupId)
    ensures GenerationUnique(es, m)
  {
    forall n | n in After(es).sent && SameGeneration(n, m) ensures n == m {
      var i := FindEncryption(es, m);
      var j := FindEncryption(es, n);
      if i < j {
        GenerationReusedOnlyIf(es, i, j, es[i].actor, es[i].op.groupId);
      } else if j < i {
        GenerationReusedOnlyIf(es, j, i, es[i].actor, es[i].op.groupId);
      }
    }
  }

  /**
   A message of a sender that uses no generation twice is decrypted by an active other member with the same history if and
   only if that member's copy has not decrypted it yet.
  */
  lemma {:induction false} DecryptedOnce(es: seq<Event>, did: Did, groupId: GroupId, m: Message)
    requires Run(es) && m in After(es).sent && m.Application? && groupId in GroupsOf(After(es), did)
    requires GenerationUnique(es, m)
    ensures var g := GroupsOf(After(es), did)[groupId];
      GroupStep(g, ProcessMessage(groupId, m)).1.Ok? <==>
        g.active && g.chain == m.context && g.leaf != m.sender && !HasOpened(es, did, groupId, m)
  {
    ApplicationProcessedIff(es, did, groupId, m);
    OpenedIffDecrypted(es, did, groupId, m);
  }

  lemma {:induction false} OpenedIffDecrypted(es: seq<Event>, did: Did, groupId: GroupId, m: Message)
    requires Run(es) && m.Application? && GenerationUnique(es, m)
    ensures HasOpened(es, did, groupId, m) <==> HasDecrypted(es, did, groupId, m.context, m.sender, m.generation)
  {
    if HasDecrypted(es, did, groupId, m.context, m.sender, m.generation) {
      var j :| 0 <= j < |es| && DecryptsAt(es, j, did, groupId, m.context, m.sender, m.generation)
            && Descends(es, j + 1, |es|, did, groupId);
      PossibleAt(es, j);
      SentStays(es, j, es[j].op.message);
      assert OpensAt(es, j, did, groupId, m);
    }
  }

  /**
   So it is, whatever happened, when the copies of sender and receiver were never disturbed: the message is decrypted by an
   active other member with the same history if and only if that member has never decrypted it.
  */
  lemma {:induction false} UndisturbedDecryptOnce(es: seq<Event>, did: Did, groupId: GroupId, m: Message)
    requires Run(es) && m in After(es).sent && m.Application? && groupId in GroupsOf(After(es), did)
    requires Occupied(Replay(m.context), m.sender) ==>
      NeverDisturbed(es, Replay(m.context)[m.sender].value, m.context.groupId)
    requires NeverDisturbed(es, did, groupId)
    ensures var g := GroupsOf(After(es), did)[groupId];
      GroupStep(g, ProcessMessage(groupId, m)).1.Ok? <==>
        && g.active && g.chain == m.context && g.leaf != m.sender
        && !exists j :: 0 <= j < |es| && OpensAt(es, j, did, groupId, m)
  {
    InvAlways(es);
    var author, id := Replay(m.context)[m.sender].value, m.context.groupId;
    forall i, j | 0 <= i < j < |es| && EncryptsAt(es, i, author, id) && EncryptsAt(es, j, author, id)
      ensures Descends(es, i + 1, j, author, id)
    {
      GenerationCounted(es, i, author, id);
      NeverDisturbedDescends(es, i + 1, j, author, id);
    }
    DescentIsUnique(es, m);
    DecryptedOnce(es, did, groupId, m);
    forall j | 0 <= j < |es| && OpensAt(es, j, did, groupId, m) ensures Descends(es, j + 1, |es|, did, groupId) {
      DecryptionRemembered(es, j, did, groupId, m.context, m.sender, m.generation);
      NeverDisturbedDescends(es, j + 1, |es|, did, groupId);
    }
  }

  /**
   Otherwise a message can be refused that the copy has not decrypted: exactly when it has decrypted another one with the
   same sender and generation.
  */
  lemma {:induction false} RefusedUnopenedIff(es: seq<Event>, did: Did, groupId: GroupId, m: Message)
    requires Run(es) && m in After(es).sent && m.Application? && groupId in GroupsOf(After(es), did)
    requires var g := GroupsOf(After(es), did)[groupId]; g.active && g.chain == m.context && g.leaf != m.sender
    requires !HasOpened(es, did, groupId, m)
    ensures GroupStep(GroupsOf(After(es), did)[groupId], ProcessMessage(groupId, m)).1.Err? <==>
      exists j :: 0 <= j < |es| && DecryptsAt(es, j, did, groupId, m.context, m.sender, m.generation)
                  && es[j].op.message != m && Descends(es, j + 1, |es|, did, groupId)
  {
    ApplicationProcessedIff(es, did, groupId, m);
    if HasDecrypted(es, did, groupId, m.context, m.sender, m.generation) {
      var j :| 0 <= j < |es| && DecryptsAt(es, j, did, groupId, m.context, m.sender, m.generation)
            && Descends(es, j + 1, |es|, did, groupId);
      assert es[j].op.message == m ==> OpensAt(es, j, did, groupId, m);
    }
  }

  // ---- A restart of the sender ----

  /** Two members with the same history, one about to send a message the other will accept. */
  predicate ReadyToSend(es: seq<Event>, a: Did, b: Did, groupId: GroupId) {
    && a != b && groupId in GroupsOf(After(es), a) && groupId in GroupsOf(After(es), b)
    && var g, h := GroupsOf(After(es), a)[groupId], GroupsOf(After(es), b)[groupId];
       MaySend(g) && h.active && g.chain == h.chain && (g.leaf, g.generation) !in h.seen
  }

  function Sends(w: World, a: Did, groupId: GroupId, plaintext: string): Message
    requires groupId in GroupsOf(w, a)
  {
    NextMessage(GroupsOf(w, a)[groupId], plaintext)
  }

  /** One message is sent and decrypted; the sender restarts from a state saved before, and sends another. */
  function RestartedSender(es: seq<Event>, a: Did, b: Did, groupId: GroupId, one: string, two: string): seq<Event>
    requires groupId in GroupsOf(After(es), a)
  {
    es + [Act(a, EncryptMessage(groupId, one)), Act(b, ProcessMessage(groupId, Sends(After(es), a, groupId, one))),
          Restart(a, AccountOf(After(es), a)), Act(a, EncryptMessage(groupId, two))]
  }

  lemma {:induction false} AfterOneMore(es: seq<Event>, e: Event)
    ensures After(es + [e]) == Next(After(es), e)
    ensures Run(es + [e]) <==> Run(es) && Possible(es, e)
  {
    assert (es + [e])[..|es|] == es;
  }

  lemma EncryptNext(w: World, a: Did, groupId: GroupId, plaintext: string)
    requires groupId in GroupsOf(w, a) && MaySend(GroupsOf(w, a)[groupId])
    ensures var after := Next(w, Act(a, EncryptMessage(groupId, plaintext)));
      && Sends(w, a, groupId, plaintext) in after.sent
      && forall d :: d != a ==> AccountOf(after, d) == AccountOf(w, d)
  {
    assert Sends(w, a, groupId, plaintext) in Sent(Ok(Encrypted(Sends(w, a, groupId, plaintext))));
  }

  lemma DecryptNext(w: World, b: Did, groupId: GroupId, m: Message)
    requires groupId in GroupsOf(w, b) && m.Application? && Accepts(GroupsOf(w, b)[groupId], m)
    ensures var g := GroupsOf(w, b)[groupId];
      var after := Next(w, Act(b, ProcessMessage(groupId, m)));
      && groupId in GroupsOf(after, b)
      && GroupsOf(after, b)[groupId] == g.(seen := g.seen + {(m.sender, m.generation)})
  {
  }

  lemma ReadyAccepts(w: World, a: Did, b: Did, groupId: GroupId, plaintext: string)
    requires Inv(w) && a != b && groupId in GroupsOf(w, a) && groupId in GroupsOf(w, b)
    requires var g, h := GroupsOf(w, a)[groupId], GroupsOf(w, b)[groupId];
      MaySend(g) && h.active && g.chain == h.chain && (g.leaf, g.generation) !in h.seen
    ensures Accepts(GroupsOf(w, b)[groupId], Sends(w, a, groupId, plaintext))
    ensures GroupsOf(w, a)[groupId].leaf != GroupsOf(w, b)[groupId].leaf
  {
    assert GroupOk(a, groupId, GroupsOf(w, a)[groupId]) && GroupOk(b, groupId, GroupsOf(w, b)[groupId]);
  }

  /** The receiver has decrypted the first message. */
  predicate HasFirst(w: World, after: World, a: Did, b: Did, groupId: GroupId) {
    && groupId in GroupsOf(w, a) && groupId in GroupsOf(after, b)
    && var g, h := GroupsOf(w, a)[groupId], GroupsOf(after, b)[groupId];
       h.active && h.chain == g.chain && h.leaf != g.leaf && (g.leaf, g.generation) in h.seen
  }

  lemma {:induction false} FirstDecrypted(es: seq<Event>, a: Did, b: Did, groupId: GroupId, one: string)
      returns (after: seq<Event>)
    requires Run(es) && ReadyToSend(es, a, b, groupId)
    ensures after == es + [Act(a, EncryptMessage(groupId, one))]
                   + [Act(b, ProcessMessage(groupId, Sends(After(es), a, groupId, one)))]
    ensures Run(after) && HasFirst(After(es), After(after), a, b, groupId)
  {
    InvAlways(es);
    var w, m := After(es), Sends(After(es), a, groupId, one);
    ReadyAccepts(w, a, b, groupId, one);
    EncryptNext(w, a, groupId, one);
    var first := es + [Act(a, EncryptMessage(groupId, one))];
    AfterOneMore(es, Act(a, EncryptMessage(groupId, one)));
    assert GroupsOf(After(first), b)[groupId] == GroupsOf(w, b)[groupId];
    DecryptNext(After(first), b, groupId, m);
    after := first + [Act(b, ProcessMessage(groupId, m))];
    AfterOneMore(first, Act(b, ProcessMessage(groupId, m)));
  }

  /** The sender restarts from before the first message. */
  lemma {:induction false} SenderRestored(es: seq<Event>, before: seq<Event>, a: Did)
      returns (after: seq<Event>)
    requires Run(before) && |es| <= |before| && before[..|es|] == es
    ensures after == before + [Restart(a, AccountOf(After(es), a))] && Run(after)
    ensures After(after) == Next(After(before), Restart(a, AccountOf(After(es), a)))
  {
    var e := Restart(a, AccountOf(After(es), a));
    after := before + [e];
    assert WasSaved(before, a, AccountOf(After(es), a));
    AfterOneMore(before, e);
  }

  /** A message under a generation that the receiver remembers is refused. */
  lemma SecondRefused(w: World, before: World, a: Did, b: Did, groupId: GroupId, two: string)
    requires HasFirst(w, before, a, b, groupId) && MaySend(GroupsOf(w, a)[groupId]) && a != b
    ensures var restored := Next(before, Restart(a, AccountOf(w, a)));
      var after := Next(restored, Act(a, EncryptMessage(groupId, two)));
      var m := Sends(w, a, groupId, two);
      && m in after.sent && groupId in GroupsOf(after, b)
      && var h := GroupsOf(after, b)[groupId];
         && h.active && h.chain == m.context && h.leaf != m.sender
         && GroupStep(h, ProcessMessage(groupId, m)) == (h, Err(DecryptionFailed))
  {
    var restored := Next(before, Restart(a, AccountOf(w, a)));
    assert AccountOf(restored, a) == AccountOf(w, a) && AccountOf(restored, b) == AccountOf(before, b);
    EncryptNext(restored, a, groupId, two);
  }

  /** The second message comes under the same generation, and is refused. */
  lemma {:induction false} RestartedSenderIsRefused(
      es: seq<Event>, a: Did, b: Did, groupId: GroupId, one: string, two: string)
    requires Run(es) && ReadyToSend(es, a, b, groupId)
    ensures var run, m := RestartedSender(es, a, b, groupId, one, two), Sends(After(es), a, groupId, two);
      && Run(run) && m in After(run).sent && groupId in GroupsOf(After(run), b)
      && var h := GroupsOf(After(run), b)[groupId];
         && h.active && h.chain == m.context && h.leaf != m.sender
         && GroupStep(h, ProcessMessage(groupId, m)) == (h, Err(DecryptionFailed))
  {
    var decrypted := FirstDecrypted(es, a, b, groupId, one);
    assert decrypted[..|es|] == es;
    var restored := SenderRestored(es, decrypted, a);
    var e := Act(a, EncryptMessage(groupId, two));
    AfterOneMore(restored, e);
    assert RestartedSender(es, a, b, groupId, one, two) == restored + [e];
    SecondRefused(After(es), After(decrypted), a, b, groupId, two);
  }

  /** A generation not remembered, and not offered since, was not opened. */
  lemma {:induction false} NotOpened(es: seq<Event>, n: nat, did: Did, groupId: GroupId, m: Message)
    requires m.Application? && n <= |es| && !Remembers(es, n, did, groupId, m.context, m.sender, m.generation)
    requires CopyAt(es, n, did, groupId).Some? && CopyAt(es, n, did, groupId).value.chain == m.context
    requires forall k :: n <= k < |es| ==> Spares(es[k], did, m)
    ensures !HasOpened(es, did, groupId, m)
  {
    forall j | 0 <= j < |es| ensures !(OpensAt(es, j, did, groupId, m) && Descends(es, j + 1, |es|, did, groupId)) {
      if j < n {
        OnlyIfRemembered(es, j, n, did, groupId, m);
      } else {
        assert Spares(es[j], did, m);
      }
    }
  }

  lemma {:induction false} OnlyIfRemembered(es: seq<Event>, j: nat, n: nat, did: Did, groupId: GroupId, m: Message)
    requires j < n <= |es|
    requires m.Application? && CopyAt(es, n, did, groupId).Some? && CopyAt(es, n, did, groupId).value.chain == m.context
    requires forall k :: n <= k < |es| ==> Spares(es[k], did, m)
    ensures OpensAt(es, j, did, groupId, m) && Descends(es, j + 1, |es|, did, groupId) ==>
      Remembers(es, n, did, groupId, m.context, m.sender, m.generation)
  {
    if OpensAt(es, j, did, groupId, m) && Descends(es, j + 1, |es|, did, groupId) {
      RememberedSince(es, j, n, did, groupId, m);
    }
  }

  lemma {:induction false} RememberedSince(es: seq<Event>, j: nat, n: nat, did: Did, groupId: GroupId, m: Message)
    requires j < n <= |es| && OpensAt(es, j, did, groupId, m) && Descends(es, j + 1, |es|, did, groupId)
    requires CopyAt(es, n, did, groupId).Some? && CopyAt(es, n, did, groupId).value.chain == m.context
    requires forall k :: n <= k < |es| ==> Spares(es[k], did, m)
    ensures Remembers(es, n, did, groupId, m.context, m.sender, m.generation)
  {
    forall k | n <= k < |es| ensures !(es[k].Restart? && es[k].actor == did) {
      assert Spares(es[k], did, m);
    }
    DescendsThrough(es, j + 1, n, |es|, did, groupId);
    DecryptionRemembered(es, j, did, groupId, m.context, m.sender, m.generation);
    DescendantLater(es, j + 1, n, did, groupId);
  }

  predicate Spares(e: Event, did: Did, m: Message) {
    if e.Restart? then e.actor != did else !(e.op.ProcessMessage? && e.op.message == m)
  }

  /** The copy that refuses it has not decrypted it, but the first message only. */
  lemma {:induction false} SecondNeverOpened(
      es: seq<Event>, a: Did, b: Did, groupId: GroupId, one: string, two: string)
    requires Run(es) && ReadyToSend(es, a, b, groupId) && one != two
    ensures !HasOpened(RestartedSender(es, a, b, groupId, one, two), b, groupId, Sends(After(es), a, groupId, two))
  {
    var run, m := RestartedSender(es, a, b, groupId, one, two), Sends(After(es), a, groupId, two);
    assert run[..|es|] == es;
    LastFour(run, es, Act(a, EncryptMessage(groupId, one)),
             Act(b, ProcessMessage(groupId, Sends(After(es), a, groupId, one))), Restart(a, AccountOf(After(es), a)), Act(a, EncryptMessage(groupId, two)), b, m);
    NotOpened(run, |es|, b, groupId, m);
  }

  lemma LastFour(run: seq<Event>, es: seq<Event>, e: Event, f: Event, g: Event, h: Event, did: Did, m: Message)
    requires run == es + [e, f, g, h]
    requires Spares(e, did, m) && Spares(f, did, m) && Spares(g, did, m) && Spares(h, did, m)
    ensures forall k :: |es| <= k < |run| ==> Spares(run[k], did, m)
  {
  }

  /** Such a pair of members exists: one creates a group, adds the other, and the other joins. */
  lemma {:induction false} ReadyPair() returns (es: seq<Event>)
    ensures Run(es) && ReadyToSend(es, "a", "b", "g")
  {
    var generate, create := Act("b", GenerateKeyPackage(0)), Act("a", CreateGroup("g", 0));
    AfterOneMore([], generate);
    AfterOneMore([] + [generate], create);
    var two := [] + [generate] + [create];
    var w := After(two);
    Introduced();
    var add := Act("a", AddMember("g", KeyPackage("b", 0), 1));
    var join := Act("b", JoinFromWelcome(WelcomeFor(Created("g", "a", 0), FirstAddition())));
    BothIn(w);
    AfterOneMore(two, add);
    AfterOneMore(two + [add], join);
    es := two + [add] + [join];
  }

  predicate Prepared(w: World) {
    && "g" in GroupsOf(w, "a") && GroupsOf(w, "a")["g"] == Created("g", "a", 0)
    && AccountOf(w, "b") == Account(map[], {KeyPackage("b", 0)})
  }

  lemma Introduced()
    ensures Prepared(Next(Next(EMPTY, Act("b", GenerateKeyPackage(0))), Act("a", CreateGroup("g", 0))))
  {
  }

  function FirstAddition(): Change {
    NewChange(Created("g", "a", 0), Some(KeyPackage("b", 0)), {}, 1)
  }

  lemma BothIn(w: World)
    requires Prepared(w)
    ensures var added := Next(w, Act("a", AddMember("g", KeyPackage("b", 0), 1)));
      var welcome := WelcomeFor(Created("g", "a", 0), FirstAddition());
      var joined := Next(added, Act("b", JoinFromWelcome(welcome)));
      && welcome in added.sent
      && "g" in GroupsOf(joined, "a") && GroupsOf(joined, "a")["g"] == Advanced(Created("g", "a", 0), FirstAddition())
      && "g" in GroupsOf(joined, "b") && GroupsOf(joined, "b")["g"] == Welcomed(welcome)
  {
    var g, c := Created("g", "a", 0), FirstAddition();
    assert Gone(c) == {} && Blanked(g.tree, {}) == g.tree;
    assert Committable(g, c);
    assert WelcomeFor(g, c) in Sent(Ok(CommittedWith(g, c)));
  }
}
