/**
 Typing indicators of the messaging store: who is typing in which conversation, with one expiry timer per indicator.

 A timer is represented by its deadline in milliseconds; an event of the store happens at a time `now`.
*/
module TypingStore {
  import opened Wrappers

  type Id = string

  const TYPING_EXPIRY_MS: nat := 3_000

  datatype Conversation = Dm(peerId: Id) | Group(groupId: Id)

  function ConversationKey(c: Conversation): Id {
    match c
    case Dm(peerId) => peerId
    case Group(groupId) => "group:" + groupId
  }

  function TimerKey(recipient: Id, from: Id): string {
    recipient + "::" + from
  }

  /** A pending expiry: the callback remembers the pair it was made for. */
  datatype Timer = Timer(recipient: Id, from: Id, deadline: nat)

  type Indicators = map<Id, set<Id>>

  datatype Store = Store(active: Option<Conversation>, typing: Indicators, timers: map<string, Timer>)

  // ---- Specification ----

  function SendersOf(typing: Indicators, recipient: Id): set<Id> {
    if recipient in typing then typing[recipient] else {}
  }

  /** The indicators with the set of one recipient replaced; an empty set is not kept. */
  function WithSenders(typing: Indicators, recipient: Id, senders: set<Id>): Indicators {
    if senders == {} then typing - {recipient} else typing[recipient := senders]
  }

  function TypingSet(s: Store, from: Id, recipient: Id, isTyping: bool, now: nat): Store {
    var key, senders := TimerKey(recipient, from), SendersOf(s.typing, recipient);
    if isTyping then
      s.(timers := s.timers[key := Timer(recipient, from, now + TYPING_EXPIRY_MS)],
         typing := WithSenders(s.typing, recipient, senders + {from}))
    else
      s.(timers := s.timers - {key}, typing := WithSenders(s.typing, recipient, senders - {from}))
  }

  /** The timer under `key` fires. */
  function Expired(s: Store, key: string): Store
    requires key in s.timers
  {
    var t := s.timers[key];
    s.(timers := s.timers - {key}, typing := WithSenders(s.typing, t.recipient, SendersOf(s.typing, t.recipient) - {t.from}))
  }

  /** Leaving a conversation clears its indicators and cancels the timers under its prefix. */
  function Switched(s: Store, conversation: Option<Conversation>): Store {
    match s.active
    case None => s.(active := conversation)
    case Some(left) =>
      var key := ConversationKey(left);
      Store(conversation, s.typing - {key}, map k | k in s.timers && !(key + "::" <= k) :: s.timers[k])
  }

  // ---- The store ----

  class MessagingStore {
    var activeConversation: Option<Conversation>
    var typingUsers: Indicators
    var typingExpireTimers: map<string, Timer>

    ghost function State(): Store
      reads this
    {
      Store(activeConversation, typingUsers, typingExpireTimers)
    }

    constructor ()
      ensures State() == Store(None, map[], map[])
    {
      activeConversation, typingUsers, typingExpireTimers := None, map[], map[];
    }

    method SetTyping(from: Id, recipient: Id, isTyping: bool, now: nat)
      modifies this
      ensures State() == TypingSet(old(State()), from, recipient, isTyping, now)
    {
      var timerKey := TimerKey(recipient, from);
      // Cancel any pending expiry of this pair.
      if timerKey in typingExpireTimers {
        typingExpireTimers := typingExpireTimers - {timerKey};
      }
      if isTyping {
        typingExpireTimers := typingExpireTimers[timerKey := Timer(recipient, from, now + TYPING_EXPIRY_MS)];
      }
      var current := SendersOf(typingUsers, recipient);
      current := if isTyping then current + {from} else current - {from};
      typingUsers := WithSenders(typingUsers, recipient, current);
    }

    /** The expiry callback. */
    method Expire(key: string)
      requires key in typingExpireTimers
      modifies this
      ensures State() == Expired(old(State()), key)
    {
      var timer := typingExpireTimers[key];
      typingExpireTimers := typingExpireTimers - {key};
      var current := SendersOf(typingUsers, timer.recipient) - {timer.from};
      typingUsers := WithSenders(typingUsers, timer.recipient, current);
    }

    method SetActiveConversation(conversation: Option<Conversation>)
      modifies this
      ensures State() == Switched(old(State()), conversation)
    {
      if activeConversation.Some? {
        var oldKey := ConversationKey(activeConversation.value);
        typingUsers := typingUsers - {oldKey};
        CancelTimers(oldKey + "::");
      }
      activeConversation := conversation;
    }

    /** The loop over the timer table. */
    method CancelTimers(prefix: string)
      modifies this`typingExpireTimers
      ensures typingExpireTimers == map k | k in old(typingExpireTimers) && !(prefix <= k) :: old(typingExpireTimers)[k]
    {
      var rest := typingExpireTimers.Keys;
      while rest != {}
        invariant forall k :: k in typingExpireTimers <==> k in old(typingExpireTimers) && (k in rest || !(prefix <= k))
        invariant forall k :: k in typingExpireTimers ==> typingExpireTimers[k] == old(typingExpireTimers)[k]
        decreases |rest|
      {
        var timerKey :| timerKey in rest;
        rest := rest - {timerKey};
        if prefix <= timerKey {
          typingExpireTimers := typingExpireTimers - {timerKey};
        }
      }
    }
  }

  // ---- Keys ----

  /** No `::` inside, no `:` at the end: every colon is followed by another character. */
  predicate CleanId(id: Id) {
    forall i :: 0 <= i < |id| && id[i] == ':' ==> i + 1 < |id| && id[i + 1] != ':'
  }

  /** In a timer key the first `::` is the one after the recipient. */
  lemma FirstColons(recipient: Id, from: Id, i: nat)
    requires CleanId(recipient) && i < |recipient|
    ensures var key := TimerKey(recipient, from); !(key[i] == ':' && key[i + 1] == ':')
  {
    var key := TimerKey(recipient, from);
    assert key[i] == recipient[i];
    if i + 1 < |recipient| {
      assert key[i + 1] == recipient[i + 1];
    }
  }

  /** For clean recipients the prefix test is exact, and timer keys tell pairs apart. */
  lemma PrefixExact(recipient: Id, from: Id, other: Id)
    requires CleanId(recipient) && CleanId(other)
    ensures other + "::" <= TimerKey(recipient, from) <==> other == recipient
  {
    var key := TimerKey(recipient, from);
    assert recipient + "::" <= key;
    if other + "::" <= key {
      var from' := key[|other| + 2..];
      assert key == TimerKey(other, from');
      assert key[|other|] == (other + "::")[|other|] && key[|other| + 1] == (other + "::")[|other| + 1];
      if |other| < |recipient| {
        FirstColons(recipient, from, |other|);
      }
      if |recipient| < |other| {
        FirstColons(other, from', |recipient|);
      }
      assert other == key[..|other|] && recipient == key[..|recipient|];
    }
  }

  /**
   Conversations with different keys are told apart; two have the same key if and only if they are the same, or one is a
   direct conversation whose peer id is `group:` and the id of the other, a group. So a group and a peer with one id never
   share their indicators.
  */
  lemma SameKeyIff(c: Conversation, d: Conversation)
    ensures ConversationKey(c) == ConversationKey(d) <==>
      || c == d
      || (c.Dm? && d.Group? && c.peerId == "group:" + d.groupId)
      || (d.Dm? && c.Group? && d.peerId == "group:" + c.groupId)
    ensures forall id: Id :: ConversationKey(Dm(id)) != ConversationKey(Group(id))
  {
    if c.Group? && d.Group? {
      assert c.groupId == ConversationKey(c)[6..];
      assert d.groupId == ConversationKey(d)[6..];
    }
    forall id: Id ensures ConversationKey(Dm(id)) != ConversationKey(Group(id)) {
      assert |ConversationKey(Group(id))| == |id| + 6;
    }
  }

  /** Reporting a sender as typing shows it, and reporting the end hides it; all other indicators stay. */
  lemma SetTypingShows(s: Store, from: Id, recipient: Id, isTyping: bool, now: nat, other: Id, sender: Id)
    ensures Shown(TypingSet(s, from, recipient, isTyping, now), other, sender) <==>
      if (other, sender) == (recipient, from) then isTyping else Shown(s, other, sender)
  {
    var senders := SendersOf(s.typing, recipient);
    assert from in senders + {from} && from !in senders - {from};
    assert sender != from ==>
      (sender in senders + {from} <==> sender in senders) && (sender in senders - {from} <==> sender in senders);
  }

  predicate ColonsAt(s: string, i: nat) {
    i + 1 < |s| && s[i] == ':' && s[i + 1] == ':'
  }

  /** The first place of `::` in a string that has one. */
  lemma {:induction false} LeastColons(s: string, i: nat) returns (first: nat)
    requires ColonsAt(s, i)
    ensures first <= i && ColonsAt(s, first) && forall j :: 0 <= j < first ==> !ColonsAt(s, j)
  {
    if j :| 0 <= j < i && ColonsAt(s, j) {
      first := LeastColons(s, j);
    } else {
      first := i;
    }
  }

  /** Every timer key of an unclean id is also a timer key of a clean one. */
  lemma UncleanCollides(id: Id, from: Id) returns (other: Id, sender: Id)
    requires !CleanId(id)
    ensures CleanId(other) && other != id && TimerKey(other, sender) == TimerKey(id, from)
  {
    var key := TimerKey(id, from);
    var i :| 0 <= i < |id| && id[i] == ':' && !(i + 1 < |id| && id[i + 1] != ':');
    assert key[i] == id[i] && key[i + 1] == if i + 1 < |id| then id[i + 1] else ':';
    var first := LeastColons(key, i);
    other, sender := key[..first], key[first + 2..];
    assert key == TimerKey(other, sender);
    forall k | 0 <= k < |other| && other[k] == ':' ensures k + 1 < |other| && other[k + 1] != ':' {
      assert !ColonsAt(key, k);
      assert key[k] == other[k] && (k + 1 < |other| ==> key[k + 1] == other[k + 1]);
    }
  }

  /** The prefix test of an id selects its own timers only, among those of clean ids, if and only if it is clean. */
  ghost predicate SelectsOwn(id: Id) {
    forall recipient, from :: CleanId(recipient) ==> (id + "::" <= TimerKey(recipient, from) <==> id == recipient)
  }

  lemma PrefixExactIff(id: Id)
    ensures SelectsOwn(id) <==> CleanId(id)
  {
    if CleanId(id) {
      forall recipient, from | CleanId(recipient)
        ensures id + "::" <= TimerKey(recipient, from) <==> id == recipient
      {
        PrefixExact(recipient, from, id);
      }
    } else {
      var other, sender := UncleanCollides(id, "");
      assert id + "::" <= TimerKey(id, "");
      assert id + "::" <= TimerKey(other, sender);
    }
  }

  lemma TimerKeyInjective(recipient: Id, from: Id, recipient': Id, from': Id)
    requires CleanId(recipient) && CleanId(recipient')
    ensures TimerKey(recipient, from) == TimerKey(recipient', from') <==> recipient == recipient' && from == from'
  {
    if TimerKey(recipient, from) == TimerKey(recipient', from') {
      PrefixExact(recipient, from, recipient');
      PrefixExact(recipient', from', recipient);
      var key := TimerKey(recipient, from);
      assert from == key[|recipient| + 2..] == from';
    }
  }

  // ---- Runs ----

  datatype Event =
    | SetTyping(from: Id, recipient: Id, isTyping: bool, now: nat)
    | Fire(key: string, now: nat)
    | Switch(conversation: Option<Conversation>, now: nat)

  function Next(s: Store, e: Event): Store {
    match e
    case SetTyping(from, recipient, isTyping, now) => TypingSet(s, from, recipient, isTyping, now)
    case Fire(key, now) => if key in s.timers && s.timers[key].deadline <= now then Expired(s, key) else s
    case Switch(conversation, _) => Switched(s, conversation)
  }

  const EMPTY := Store(None, map[], map[])

  function After(es: seq<Event>, n: nat): Store
    requires n <= |es|
  {
    if n == 0 then EMPTY else Next(After(es, n - 1), es[n - 1])
  }

  predicate CleanEvent(e: Event) {
    match e
    case SetTyping(_, recipient, _, _) => CleanId(recipient)
    case Fire(_, _) => true
    case Switch(conversation, _) => conversation.Some? ==> CleanId(ConversationKey(conversation.value))
  }

  predicate CleanRun(es: seq<Event>) {
    forall e :: e in es ==> CleanEvent(e)
  }

  predicate Shown(s: Store, recipient: Id, from: Id) {
    recipient in s.typing && from in s.typing[recipient]
  }

  /** A timer for exactly this pair is pending. */
  predicate Pending(s: Store, recipient: Id, from: Id) {
    var key := TimerKey(recipient, from);
    key in s.timers && s.timers[key].recipient == recipient && s.timers[key].from == from
  }

  predicate NoEmptySet(s: Store) {
    forall recipient :: recipient in s.typing ==> s.typing[recipient] != {}
  }

  /** Timers sit under the key of their pair, for clean recipients. */
  predicate TimersKeyed(s: Store) {
    && (forall k :: k in s.timers ==> k == TimerKey(s.timers[k].recipient, s.timers[k].from) && CleanId(s.timers[k].recipient))
    && (s.active.Some? ==> CleanId(ConversationKey(s.active.value)))
  }

  ghost predicate LockStep(s: Store) {
    NoEmptySet(s) && TimersKeyed(s) && forall recipient, from :: Shown(s, recipient, from) <==> Pending(s, recipient, from)
  }

  /** One event touches an indicator and its timer together. */
  lemma StepTogether(s: Store, e: Event, recipient: Id, from: Id)
    requires LockStep(s) && CleanEvent(e)
    ensures Shown(Next(s, e), recipient, from) <==> Pending(Next(s, e), recipient, from)
  {
    assert Shown(s, recipient, from) <==> Pending(s, recipient, from);
    if CleanId(recipient) {
      match e
      case SetTyping(from', recipient', _, _) =>
        TimerKeyInjective(recipient, from, recipient', from');
      case Fire(key, _) =>
        if key in s.timers {
          var timer := s.timers[key];
          TimerKeyInjective(recipient, from, timer.recipient, timer.from);
          assert from in SendersOf(s.typing, recipient) - {timer.from} <==> Shown(s, recipient, from) && from != timer.from;
        }
      case Switch(_, _) =>
        if s.active.Some? {
          PrefixExact(recipient, from, ConversationKey(s.active.value));
        }
    } else {
      assert !Pending(s, recipient, from);
      assert !Pending(Next(s, e), recipient, from);
    }
  }

  lemma StepKeepsLockStep(s: Store, e: Event)
    requires LockStep(s) && CleanEvent(e)
    ensures LockStep(Next(s, e))
  {
    forall recipient, from ensures Shown(Next(s, e), recipient, from) <==> Pending(Next(s, e), recipient, from) {
      StepTogether(s, e, recipient, from);
    }
  }

  /** In every run with clean ids an indicator is shown exactly while its timer is pending, and no empty set is kept. */
  lemma {:induction false} AlwaysLockStep(es: seq<Event>, n: nat)
    requires CleanRun(es) && n <= |es|
    ensures LockStep(After(es, n))
  {
    if n != 0 {
      AlwaysLockStep(es, n - 1);
      StepKeepsLockStep(After(es, n - 1), es[n - 1]);
    }
  }

  // ---- Expiry ----

  /** No pending timer is overdue: timers fire on time. */
  predicate OnTime(s: Store, now: nat) {
    forall k :: k in s.timers ==> now <= s.timers[k].deadline
  }

  /** The last time the sender was reported typing there. */
  function LastRenewal(es: seq<Event>, n: nat, recipient: Id, from: Id): Option<nat>
    requires n <= |es|
  {
    if n == 0 then None else
    match es[n - 1]
    case SetTyping(f, r, isTyping, now) =>
      if f == from && r == recipient && isTyping then Some(now) else LastRenewal(es, n - 1, recipient, from)
    case _ => LastRenewal(es, n - 1, recipient, from)
  }

  lemma {:induction false} DeadlineFollowsRenewal(es: seq<Event>, n: nat, recipient: Id, from: Id)
    requires CleanRun(es) && n <= |es| && Pending(After(es, n), recipient, from)
    ensures LastRenewal(es, n, recipient, from).Some?
    ensures After(es, n).timers[TimerKey(recipient, from)].deadline
      == LastRenewal(es, n, recipient, from).value + TYPING_EXPIRY_MS
  {
    if n != 0 {
      var s, e := After(es, n - 1), es[n - 1];
      AlwaysLockStep(es, n);
      AlwaysLockStep(es, n - 1);
      if e.SetTyping? {
        assert es[n - 1] in es && CleanEvent(e);
        TimerKeyInjective(recipient, from, e.recipient, e.from);
      }
      if Pending(s, recipient, from) {
        DeadlineFollowsRenewal(es, n - 1, recipient, from);
      }
    }
  }

  /** With punctual timers, an indicator is gone 3000 ms after its last renewal. */
  lemma IndicatorsExpire(es: seq<Event>, now: nat, recipient: Id, from: Id)
    requires CleanRun(es) && OnTime(After(es, |es|), now) && Shown(After(es, |es|), recipient, from)
    ensures var renewal := LastRenewal(es, |es|, recipient, from);
      renewal.Some? && now <= renewal.value + 3000
  {
    AlwaysLockStep(es, |es|);
    DeadlineFollowsRenewal(es, |es|, recipient, from);
  }

  /** Leaving a conversation removes all its indicators and leaves those of every other conversation. */
  lemma SwitchClearsOne(es: seq<Event>, conversation: Option<Conversation>, now: nat, recipient: Id, from: Id)
    requires CleanRun(es)
    ensures var s := After(es, |es|);
      Shown(Next(s, Switch(conversation, now)), recipient, from) <==>
        Shown(s, recipient, from) && !(s.active.Some? && ConversationKey(s.active.value) == recipient)
    ensures Next(After(es, |es|), Switch(conversation, now)).active == conversation
  {
  }

  // ---- Which ids need to be clean ----

  /** What lock-step means to the user: a sender is shown exactly while its timer is pending, and no empty set is kept. */
  ghost predicate Together(s: Store) {
    NoEmptySet(s) && forall recipient, from :: Shown(s, recipient, from) <==> Pending(s, recipient, from)
  }

  predicate OverIds(e: Event, id: Id) {
    match e
    case SetTyping(_, recipient, _, _) => recipient == id || CleanId(recipient)
    case Fire(_, _) => true
    case Switch(conversation, _) =>
      conversation.Some? ==> ConversationKey(conversation.value) == id || CleanId(ConversationKey(conversation.value))
  }

  /** Recipients and conversations are `id` or clean. */
  predicate RunOver(es: seq<Event>, id: Id) {
    forall e :: e in es ==> OverIds(e, id)
  }

  ghost predicate AlwaysTogether(id: Id) {
    forall es :: RunOver(es, id) ==> Together(After(es, |es|))
  }

  /** One more id is allowed besides the clean ones, without indicators and timers ever coming apart, exactly if it is clean. */
  lemma LockStepIffClean(id: Id)
    ensures AlwaysTogether(id) <==> CleanId(id)
  {
    if CleanId(id) {
      forall es | RunOver(es, id) ensures Together(After(es, |es|)) {
        forall e | e in es ensures CleanEvent(e) {
          assert OverIds(e, id);
        }
        AlwaysLockStep(es, |es|);
      }
    } else {
      var es := CollidingKeysLeakIndicator(id, "");
    }
  }

  /** For every unclean id: another sender's stop takes the timer of an indicator away, which then stays for ever. */
  lemma CollidingKeysLeakIndicator(id: Id, from: Id) returns (es: seq<Event>)
    requires !CleanId(id)
    ensures RunOver(es, id) && Shown(After(es, |es|), id, from) && After(es, |es|).timers == map[]
    ensures !Together(After(es, |es|))
  {
    var other, sender := UncleanCollides(id, from);
    es := [SetTyping(from, id, true, 0), SetTyping(sender, other, false, 1)];
    assert After(es, 0) == EMPTY;
    assert After(es, 1) == Next(EMPTY, es[0]);
    assert After(es, 2) == Next(After(es, 1), es[1]);
    assert from in After(es, 1).typing[id] && After(es, 1).timers.Keys == {TimerKey(id, from)};
    assert After(es, 2).timers == map[];
    assert !Pending(After(es, 2), id, from);
  }
}
