/**
 Squashing the reaction messages of a group into counts per message and emoji: the last action of each sender wins.

 The program lists the emoji of a message in the order in which they first occur; here they are the keys of a map.
*/
module Reactions {
  import opened Wrappers

  type Did = string

  /** A reaction message with the metadata fields the aggregation reads; each of them may be missing. */
  datatype Message = Message(sender: Did, timestamp: int, target: Option<string>, emoji: Option<string>, action: Option<string>)

  datatype Key = Key(target: string, emoji: string, sender: Did)

  datatype Summary = Summary(count: nat, reactedByMe: bool)

  type Aggregate = map<string, map<string, Summary>>

  // Reactors of an emoji with their last action; emoji of a message; messages.
  type Reactors = map<Did, string>
  type ByEmoji = map<string, Reactors>
  type ByMessage = map<string, ByEmoji>

  predicate Filled(field: Option<string>) {
    field.Some? && field.value != ""
  }

  predicate Complete(m: Message) {
    Filled(m.target) && Filled(m.emoji) && Filled(m.action)
  }

  predicate Matches(m: Message, key: Key) {
    Complete(m) && m.target.value == key.target && m.emoji.value == key.emoji && m.sender == key.sender
  }

  // ---- Reference: last writer wins ----

  predicate SameKey(a: Message, b: Message) {
    Complete(a) && Complete(b) && a.target == b.target && a.emoji == b.emoji && a.sender == b.sender
  }

  /** Message `i` is the last one with its key, in timestamp order and, for equal timestamps, in the order given. */
  predicate Wins(messages: seq<Message>, i: nat)
    requires i < |messages|
  {
    Complete(messages[i]) && forall j :: 0 <= j < |messages| && SameKey(messages[j], messages[i]) ==>
      messages[j].timestamp < messages[i].timestamp || (messages[j].timestamp == messages[i].timestamp && j <= i)
  }

  /** The senders whose last action for this message and emoji is "add". */
  function Adders(messages: seq<Message>, target: string, emoji: string): set<Did> {
    set i | 0 <= i < |messages| && Wins(messages, i) && messages[i].target == Some(target) && messages[i].emoji == Some(emoji)
        && messages[i].action == Some("add") :: messages[i].sender
  }

  function SummaryOf(adders: set<Did>, localDid: Option<Did>): Option<Summary> {
    if adders == {} then None else Some(Summary(|adders|, localDid.Some? && localDid.value in adders))
  }

  function Entry(result: Aggregate, target: string, emoji: string): Option<Summary> {
    if target in result && emoji in result[target] then Some(result[target][emoji]) else None
  }

  predicate NoEmptyEntry(result: Aggregate) {
    forall target :: target in result ==> result[target] != map[]
  }

  /** The result has exactly the pairs somebody has added, with the number of those senders; no count is zero. */
  ghost predicate Represents(result: Aggregate, messages: seq<Message>, localDid: Option<Did>) {
    && NoEmptyEntry(result)
    && forall target, emoji :: Entry(result, target, emoji) == SummaryOf(Adders(messages, target, emoji), localDid)
  }

  // ---- The stable sort ----

  predicate Sorted(s: seq<Message>) {
    forall i, j :: 0 <= i < j < |s| ==> s[i].timestamp <= s[j].timestamp
  }

  /** The message goes after all that are not later. */
  function Inserted(s: seq<Message>, m: Message): seq<Message> {
    if s == [] || s[|s| - 1].timestamp <= m.timestamp then s + [m]
    else Inserted(s[..|s| - 1], m) + [s[|s| - 1]]
  }

  function SortedByTime(messages: seq<Message>): seq<Message> {
    if messages == [] then [] else Inserted(SortedByTime(messages[..|messages| - 1]), messages[|messages| - 1])
  }

  predicate NotAfter(s: seq<Message>, bound: int) {
    forall i :: 0 <= i < |s| ==> s[i].timestamp <= bound
  }

  lemma {:induction false} InsertedNotAfter(s: seq<Message>, m: Message, bound: int)
    requires NotAfter(s, bound) && m.timestamp <= bound
    ensures NotAfter(Inserted(s, m), bound)
  {
    if s != [] && s[|s| - 1].timestamp > m.timestamp {
      InsertedNotAfter(s[..|s| - 1], m, bound);
    }
  }

  lemma {:induction false} InsertedSorts(s: seq<Message>, m: Message)
    requires Sorted(s)
    ensures Sorted(Inserted(s, m))
  {
    if s != [] && s[|s| - 1].timestamp > m.timestamp {
      InsertedSorts(s[..|s| - 1], m);
      InsertedNotAfter(s[..|s| - 1], m, s[|s| - 1].timestamp);
    }
  }

  lemma {:induction false} InsertedPermutes(s: seq<Message>, m: Message)
    ensures multiset(Inserted(s, m)) == multiset(s) + multiset{m}
  {
    if s != [] && s[|s| - 1].timestamp > m.timestamp {
      InsertedPermutes(s[..|s| - 1], m);
      assert s == s[..|s| - 1] + [s[|s| - 1]];
    }
  }

  /** The sort orders by timestamp and neither drops nor invents messages; `LastOfInserted` says it is stable. */
  lemma {:induction false} SortSorts(messages: seq<Message>)
    ensures Sorted(SortedByTime(messages)) && multiset(SortedByTime(messages)) == multiset(messages)
  {
    if messages != [] {
      var init := messages[..|messages| - 1];
      SortSorts(init);
      InsertedSorts(SortedByTime(init), messages[|messages| - 1]);
      InsertedPermutes(SortedByTime(init), messages[|messages| - 1]);
      assert messages == init + [messages[|messages| - 1]];
    }
  }

  /** The last message with this key, in the order of the sequence. */
  function LastOf(s: seq<Message>, key: Key): Option<Message> {
    if s == [] then None
    else if Matches(s[|s| - 1], key) then Some(s[|s| - 1])
    else LastOf(s[..|s| - 1], key)
  }

  lemma {:induction false} LastOfBound(s: seq<Message>, key: Key, bound: int)
    requires NotAfter(s, bound)
    ensures LastOf(s, key).Some? ==> LastOf(s, key).value.timestamp <= bound
  {
    if s != [] {
      LastOfBound(s[..|s| - 1], key, bound);
    }
  }

  lemma {:induction false} LastOfInserted(s: seq<Message>, m: Message, key: Key)
    requires Sorted(s)
    ensures var before := LastOf(s, key);
      LastOf(Inserted(s, m), key)
        == if Matches(m, key) && (before.None? || before.value.timestamp <= m.timestamp) then Some(m) else before
  {
    if s == [] || s[|s| - 1].timestamp <= m.timestamp {
      LastOfBound(s, key, m.timestamp);
      assert (s + [m])[..|s|] == s;
    } else {
      var init, last := s[..|s| - 1], s[|s| - 1];
      LastOfInserted(init, m, key);
      assert (Inserted(init, m) + [last])[..|Inserted(init, m)|] == Inserted(init, m);
    }
  }

  lemma LastOfSorted(messages: seq<Message>, key: Key)
    requires messages != []
    ensures var m := messages[|messages| - 1];
      var before := LastOf(SortedByTime(messages[..|messages| - 1]), key);
      LastOf(SortedByTime(messages), key)
        == if Matches(m, key) && (before.None? || before.value.timestamp <= m.timestamp) then Some(m) else before
  {
    SortSorts(messages[..|messages| - 1]);
    LastOfInserted(SortedByTime(messages[..|messages| - 1]), messages[|messages| - 1], key);
  }

  predicate SomeMatches(messages: seq<Message>, key: Key) {
    exists i :: 0 <= i < |messages| && Matches(messages[i], key)
  }

  lemma {:induction false} NoneMatches(messages: seq<Message>, key: Key)
    requires !SomeMatches(messages, key)
    ensures LastOf(SortedByTime(messages), key) == None
  {
    if messages != [] {
      assert !SomeMatches(messages[..|messages| - 1], key);
      NoneMatches(messages[..|messages| - 1], key);
      LastOfSorted(messages, key);
    }
  }

  predicate WinsKey(messages: seq<Message>, key: Key, i: nat) {
    i < |messages| && Wins(messages, i) && Matches(messages[i], key)
  }

  /** The last message in the sorted sequence is the one that wins in the original one. */
  lemma {:induction false} LastWins(messages: seq<Message>, key: Key) returns (i: nat)
    requires SomeMatches(messages, key)
    ensures WinsKey(messages, key, i) && LastOf(SortedByTime(messages), key) == Some(messages[i])
  {
    var n := |messages| - 1;
    LastOfSorted(messages, key);
    if SomeMatches(messages[..n], key) {
      i := LastWins(messages[..n], key);
      WinsExtended(messages, key, i);
      if Matches(messages[n], key) && messages[i].timestamp <= messages[n].timestamp {
        i := n;
      }
    } else {
      i := n;
      NoneMatches(messages[..n], key);
      FirstWins(messages, key);
    }
  }

  lemma FirstWins(messages: seq<Message>, key: Key)
    requires SomeMatches(messages, key) && !SomeMatches(messages[..|messages| - 1], key)
    ensures WinsKey(messages, key, |messages| - 1)
  {
    var init := messages[..|messages| - 1];
    assert forall j :: 0 <= j < |init| ==> messages[j] == init[j];
  }

  /** A later message takes over from the winner, unless its timestamp is smaller. */
  lemma WinsExtended(messages: seq<Message>, key: Key, i: nat)
    requires messages != [] && WinsKey(messages[..|messages| - 1], key, i)
    ensures var m := messages[|messages| - 1];
      WinsKey(messages, key, if Matches(m, key) && messages[i].timestamp <= m.timestamp then |messages| - 1 else i)
  {
    var init := messages[..|messages| - 1];
    assert forall j :: 0 <= j < |init| ==> messages[j] == init[j];
  }

  lemma WinnerUnique(messages: seq<Message>, i: nat, j: nat)
    requires i < |messages| && j < |messages| && Wins(messages, i) && Wins(messages, j) && SameKey(messages[i], messages[j])
    ensures i == j
  {
  }

  lemma AddersByLast(messages: seq<Message>, key: Key)
    ensures key.sender in Adders(messages, key.target, key.emoji)
      <==> ActionOf(LastOf(SortedByTime(messages), key)) == Some("add")
  {
    if SomeMatches(messages, key) {
      var i := LastWins(messages, key);
      if key.sender in Adders(messages, key.target, key.emoji) {
        var j :| 0 <= j < |messages| && Wins(messages, j) && messages[j].target == Some(key.target)
              && messages[j].emoji == Some(key.emoji) && messages[j].action == Some("add") && messages[j].sender == key.sender;
        WinnerUnique(messages, i, j);
      }
    } else {
      NoneMatches(messages, key);
    }
  }

  // ---- The aggregation ----

  function ReactorsOf(byMessage: ByMessage, target: string, emoji: string): Reactors {
    if target in byMessage && emoji in byMessage[target] then byMessage[target][emoji] else map[]
  }

  function ActionOf(last: Option<Message>): Option<string> {
    if last.Some? then last.value.action else None
  }

  function Lookup(reactors: Reactors, did: Did): Option<string> {
    if did in reactors then Some(reactors[did]) else None
  }

  function AddersIn(reactors: Reactors): (adders: set<Did>)
    ensures reactors == map[] ==> adders == {}
  {
    set did | did in reactors && reactors[did] == "add"
  }

  /** One pass over the sorted messages; an entry is overwritten by every later message with its key. */
  method CollectActions(sorted: seq<Message>) returns (byMessage: ByMessage)
    ensures forall key: Key :: Lookup(ReactorsOf(byMessage, key.target, key.emoji), key.sender) == ActionOf(LastOf(sorted, key))
  {
    byMessage := map[];
    for i := 0 to |sorted|
      invariant forall key: Key ::
        Lookup(ReactorsOf(byMessage, key.target, key.emoji), key.sender) == ActionOf(LastOf(sorted[..i], key))
    {
      var msg := sorted[i];
      assert sorted[..i + 1][..i] == sorted[..i];
      if !Filled(msg.target) || !Filled(msg.emoji) || !Filled(msg.action) {
        continue;
      }
      var target, emoji := msg.target.value, msg.emoji.value;
      if target !in byMessage {
        byMessage := byMessage[target := map[]];
      }
      var byEmoji := byMessage[target];
      if emoji !in byEmoji {
        byEmoji := byEmoji[emoji := map[]];
      }
      byEmoji := byEmoji[emoji := byEmoji[emoji][msg.sender := msg.action.value]];
      byMessage := byMessage[target := byEmoji];
    }
    assert sorted[..|sorted|] == sorted;
  }

  method CountReactors(reactors: Reactors, localDid: Option<Did>) returns (count: nat, reactedByMe: bool)
    ensures count == |AddersIn(reactors)|
    ensures reactedByMe <==> localDid.Some? && localDid.value in AddersIn(reactors)
  {
    count, reactedByMe := 0, false;
    var rest := reactors.Keys;
    while rest != {}
      invariant rest <= reactors.Keys
      invariant count == |AddersIn(reactors) - rest|
      invariant reactedByMe <==> localDid.Some? && localDid.value in AddersIn(reactors) - rest
      decreases |rest|
    {
      var did :| did in rest;
      CountOne(reactors, rest, did);
      rest := rest - {did};
      if reactors[did] == "add" {
        count := count + 1;
        if localDid == Some(did) {
          reactedByMe := true;
        }
      }
    }
    assert AddersIn(reactors) - {} == AddersIn(reactors);
  }

  lemma CountOne(reactors: Reactors, rest: set<Did>, did: Did)
    requires did in rest && rest <= reactors.Keys
    ensures var before, after := AddersIn(reactors) - rest, AddersIn(reactors) - (rest - {did});
      && after == before + (if reactors[did] == "add" then {did} else {})
      && |after| == |before| + (if reactors[did] == "add" then 1 else 0)
  {
    var before, after := AddersIn(reactors) - rest, AddersIn(reactors) - (rest - {did});
    if reactors[did] == "add" {
      assert after == before + {did};
    } else {
      assert after == before;
    }
  }

  function SummaryIn(summaries: map<string, Summary>, emoji: string): Option<Summary> {
    if emoji in summaries then Some(summaries[emoji]) else None
  }

  function ReactorsIn(byEmoji: ByEmoji, emoji: string): Reactors {
    if emoji in byEmoji then byEmoji[emoji] else map[]
  }

  method Summarise(byEmoji: ByEmoji, localDid: Option<Did>) returns (summaries: map<string, Summary>)
    ensures forall emoji :: SummaryIn(summaries, emoji) == SummaryOf(AddersIn(ReactorsIn(byEmoji, emoji)), localDid)
  {
    summaries := map[];
    var rest := byEmoji.Keys;
    while rest != {}
      invariant rest <= byEmoji.Keys
      invariant forall emoji ::
        SummaryIn(summaries, emoji)
        == if emoji in rest then None else SummaryOf(AddersIn(ReactorsIn(byEmoji, emoji)), localDid)
      decreases |rest|
    {
      var emoji :| emoji in rest;
      rest := rest - {emoji};
      var count, reactedByMe := CountReactors(byEmoji[emoji], localDid);
      if count > 0 {
        summaries := summaries[emoji := Summary(count, reactedByMe)];
      }
    }
  }

  /** The messages that are not in `rest` have their entries. */
  ghost predicate Summed(result: Aggregate, byMessage: ByMessage, rest: set<string>, localDid: Option<Did>) {
    forall target, emoji ::
      Entry(result, target, emoji)
      == if target in rest then None else SummaryOf(AddersIn(ReactorsOf(byMessage, target, emoji)), localDid)
  }

  lemma SumOne(result: Aggregate, byMessage: ByMessage, rest: set<string>, localDid: Option<Did>, target: string,
      summaries: map<string, Summary>)
    requires target in byMessage && Summed(result, byMessage, rest + {target}, localDid)
    requires forall emoji :: SummaryIn(summaries, emoji) == SummaryOf(AddersIn(ReactorsIn(byMessage[target], emoji)), localDid)
    requires target !in rest
    ensures Summed(if summaries == map[] then result else result[target := summaries], byMessage, rest, localDid)
  {
    var after := if summaries == map[] then result else result[target := summaries];
    forall t, emoji ensures Entry(after, t, emoji)
        == if t in rest then None else SummaryOf(AddersIn(ReactorsOf(byMessage, t, emoji)), localDid) {
      assert Entry(result, t, emoji)
          == if t in rest + {target} then None else SummaryOf(AddersIn(ReactorsOf(byMessage, t, emoji)), localDid);
      if t == target {
        assert ReactorsOf(byMessage, t, emoji) == ReactorsIn(byMessage[target], emoji);
        assert SummaryIn(summaries, emoji) == SummaryOf(AddersIn(ReactorsIn(byMessage[target], emoji)), localDid);
      }
    }
  }

  method AggregateGroupReactions(messages: seq<Message>, localDid: Option<Did>) returns (result: Aggregate)
    ensures Represents(result, messages, localDid)
  {
    var byMessage := CollectActions(SortedByTime(messages));
    result := map[];
    var rest := byMessage.Keys;
    while rest != {}
      invariant rest <= byMessage.Keys
      invariant NoEmptyEntry(result)
      invariant Summed(result, byMessage, rest, localDid)
      decreases |rest|
    {
      var target :| target in rest;
      ghost var before := rest;
      rest := rest - {target};
      assert rest + {target} == before;
      var summaries := Summarise(byMessage[target], localDid);
      SumOne(result, byMessage, rest, localDid, target, summaries);
      if summaries != map[] {
        result := result[target := summaries];
      }
    }
    forall target, emoji ensures Entry(result, target, emoji) == SummaryOf(Adders(messages, target, emoji), localDid) {
      CollectedAdders(messages, byMessage, target, emoji);
    }
  }

  lemma CollectedAdders(messages: seq<Message>, byMessage: ByMessage, target: string, emoji: string)
    requires forall key: Key ::
      Lookup(ReactorsOf(byMessage, key.target, key.emoji), key.sender) == ActionOf(LastOf(SortedByTime(messages), key))
    ensures AddersIn(ReactorsOf(byMessage, target, emoji)) == Adders(messages, target, emoji)
  {
    forall did ensures did in AddersIn(ReactorsOf(byMessage, target, emoji)) <==> did in Adders(messages, target, emoji) {
      var key := Key(target, emoji, did);
      AddersByLast(messages, key);
      assert Lookup(ReactorsOf(byMessage, key.target, key.emoji), key.sender)
          == ActionOf(LastOf(SortedByTime(messages), key));
    }
  }

  // ---- Independence of the input order ----

  /** No message with the same key has a larger timestamp. */
  predicate IsLatest(messages: seq<Message>, m: Message) {
    m in messages && Complete(m) && forall x :: x in messages && SameKey(x, m) ==> x.timestamp <= m.timestamp
  }

  /** Of each key, the messages with the largest timestamp agree on being "add". */
  ghost predicate LatestAgree(messages: seq<Message>) {
    forall a, b :: IsLatest(messages, a) && IsLatest(messages, b) && SameKey(a, b) ==>
      (a.action == Some("add") <==> b.action == Some("add"))
  }

  ghost predicate SameMessages(a: seq<Message>, b: seq<Message>) {
    forall m :: m in a <==> m in b
  }

  lemma WinnerIsLatest(messages: seq<Message>, i: nat)
    requires i < |messages| && Wins(messages, i)
    ensures IsLatest(messages, messages[i])
  {
    forall x | x in messages && SameKey(x, messages[i]) ensures x.timestamp <= messages[i].timestamp {
      var j :| 0 <= j < |messages| && messages[j] == x;
    }
  }

  lemma AddersDependOnSet(messages: seq<Message>, others: seq<Message>, target: string, emoji: string, did: Did)
    requires LatestAgree(messages) && SameMessages(messages, others) && did in Adders(messages, target, emoji)
    ensures did in Adders(others, target, emoji)
  {
    var i :| 0 <= i < |messages| && Wins(messages, i) && messages[i].target == Some(target)
          && messages[i].emoji == Some(emoji) && messages[i].action == Some("add") && messages[i].sender == did;
    WinnerIsLatest(messages, i);
    var key := Key(target, emoji, did);
    assert messages[i] in others;
    var k :| 0 <= k < |others| && others[k] == messages[i];
    var j := LastWins(others, key);
    WinnerIsLatest(others, j);
    assert IsLatest(messages, others[j]) && SameKey(others[j], messages[i]);
  }

  lemma SetDecides(messages: seq<Message>, others: seq<Message>, target: string, emoji: string)
    requires LatestAgree(messages) && SameMessages(messages, others)
    ensures Adders(messages, target, emoji) == Adders(others, target, emoji)
  {
    assert forall m :: IsLatest(messages, m) <==> IsLatest(others, m);
    forall did ensures did in Adders(messages, target, emoji) <==> did in Adders(others, target, emoji) {
      if did in Adders(messages, target, emoji) {
        AddersDependOnSet(messages, others, target, emoji, did);
      }
      if did in Adders(others, target, emoji) {
        AddersDependOnSet(others, messages, target, emoji, did);
      }
    }
  }

  /** The two lists of messages aggregate to the same entries. */
  ghost predicate SameEntries(a: seq<Message>, b: seq<Message>, localDid: Option<Did>) {
    forall target, emoji ::
      SummaryOf(Adders(a, target, emoji), localDid) == SummaryOf(Adders(b, target, emoji), localDid)
  }

  /** So it is for the results that the aggregation returns. */
  lemma ResultsEqualIff(a: seq<Message>, b: seq<Message>, localDid: Option<Did>, r: Aggregate, q: Aggregate)
    requires Represents(r, a, localDid) && Represents(q, b, localDid)
    ensures r == q <==> SameEntries(a, b, localDid)
  {
    if SameEntries(a, b, localDid) {
      forall target, emoji ensures Entry(r, target, emoji) == Entry(q, target, emoji) {
        assert SummaryOf(Adders(a, target, emoji), localDid) == SummaryOf(Adders(b, target, emoji), localDid);
      }
      EntriesDetermine(r, q);
    }
    if r == q {
      forall target, emoji
        ensures SummaryOf(Adders(a, target, emoji), localDid) == SummaryOf(Adders(b, target, emoji), localDid)
      {
        assert Entry(r, target, emoji) == Entry(q, target, emoji);
      }
    }
  }

  lemma EntriesDetermine(r: Aggregate, q: Aggregate)
    requires NoEmptyEntry(r) && NoEmptyEntry(q)
    requires forall target, emoji :: Entry(r, target, emoji) == Entry(q, target, emoji)
    ensures r == q
  {
    forall target ensures target in r <==> target in q {
      if target in r {
        var emoji :| emoji in r[target];
        assert Entry(q, target, emoji) == Entry(r, target, emoji);
      }
      if target in q {
        var emoji :| emoji in q[target];
        assert Entry(r, target, emoji) == Entry(q, target, emoji);
      }
    }
    forall target | target in r ensures r[target] == q[target] {
      forall emoji ensures emoji in r[target] <==> emoji in q[target] {
        assert Entry(r, target, emoji) == Entry(q, target, emoji);
      }
      forall emoji | emoji in r[target] ensures r[target][emoji] == q[target][emoji] {
        assert Entry(r, target, emoji) == Entry(q, target, emoji);
      }
    }
  }

  predicate Permutes(a: seq<Message>, b: seq<Message>) {
    multiset(a) == multiset(b)
  }

  /** Every order of the messages aggregates to the same. */
  ghost predicate OrderIrrelevant(messages: seq<Message>, localDid: Option<Did>) {
    forall a, b :: Permutes(a, messages) && Permutes(b, messages) ==> SameEntries(a, b, localDid)
  }

  lemma PermutedAgree(messages: seq<Message>, a: seq<Message>, localDid: Option<Did>)
    requires LatestAgree(messages) && Permutes(a, messages)
    ensures SameEntries(a, messages, localDid)
  {
    PermutedIsSame(messages, a);
    forall target, emoji ensures Adders(a, target, emoji) == Adders(messages, target, emoji) {
      SetDecides(messages, a, target, emoji);
    }
  }

  lemma SameEntriesCompose(a: seq<Message>, messages: seq<Message>, b: seq<Message>, localDid: Option<Did>)
    requires SameEntries(a, messages, localDid) && SameEntries(b, messages, localDid)
    ensures SameEntries(a, b, localDid)
  {
    forall target, emoji
      ensures SummaryOf(Adders(a, target, emoji), localDid) == SummaryOf(Adders(b, target, emoji), localDid)
    {
      assert SummaryOf(Adders(a, target, emoji), localDid) == SummaryOf(Adders(messages, target, emoji), localDid);
      assert SummaryOf(Adders(b, target, emoji), localDid) == SummaryOf(Adders(messages, target, emoji), localDid);
    }
  }

  /** If the latest messages of a key disagree, two orders of the list differ in the count of that key. */
  lemma DisagreementShows(messages: seq<Message>, localDid: Option<Did>) returns (a: seq<Message>, b: seq<Message>)
    requires !LatestAgree(messages)
    ensures Permutes(a, messages) && Permutes(b, messages) && !SameEntries(a, b, localDid)
  {
    var x, y :| IsLatest(messages, x) && IsLatest(messages, y) && SameKey(x, y)
             && x.action == Some("add") && y.action != Some("add");
    var rest := TakeTwo(messages, x, y);
    TieDecidedByOrder(rest, x, y, localDid);
    a, b := rest + [y, x], rest + [x, y];
  }

  /** The order of the input is irrelevant if and only if, of each key, the latest messages agree on being "add". */
  lemma OrderIrrelevantIff(messages: seq<Message>, localDid: Option<Did>)
    ensures OrderIrrelevant(messages, localDid) <==> LatestAgree(messages)
  {
    if LatestAgree(messages) {
      forall a, b | Permutes(a, messages) && Permutes(b, messages) ensures SameEntries(a, b, localDid) {
        PermutedAgree(messages, a, localDid);
        PermutedAgree(messages, b, localDid);
        SameEntriesCompose(a, messages, b, localDid);
      }
    } else {
      var a, b := DisagreementShows(messages, localDid);
    }
  }

  lemma PermutedIsSame(a: seq<Message>, b: seq<Message>)
    requires Permutes(b, a)
    ensures SameMessages(a, b)
  {
    forall m ensures m in a <==> m in b {
      assert m in a <==> m in multiset(a);
      assert m in b <==> m in multiset(b);
    }
  }

  /** Two messages of a list, put at its end in either order. */
  lemma TakeTwo(messages: seq<Message>, x: Message, y: Message) returns (rest: seq<Message>)
    requires x in messages && y in messages && x != y
    ensures Permutes(rest + [y, x], messages) && Permutes(rest + [x, y], messages)
    ensures forall m :: m in rest ==> m in messages
  {
    var most := TakeOne(messages, x);
    PermutedIsSame(messages, most + [x]);
    assert y in most + [x];
    rest := TakeOne(most, y);
    PermutedIsSame(most, rest + [y]);
    assert multiset(rest + [y, x]) == multiset(rest) + multiset{y} + multiset{x};
    assert multiset(rest + [x, y]) == multiset(rest) + multiset{y} + multiset{x};
    assert multiset(rest + [y]) == multiset(rest) + multiset{y};
    assert multiset(most + [x]) == multiset(most) + multiset{x};
    assert forall m :: m in rest ==> m in rest + [y];
    assert forall m :: m in most ==> m in most + [x];
  }

  lemma TakeOne(messages: seq<Message>, x: Message) returns (rest: seq<Message>)
    requires x in messages
    ensures Permutes(rest + [x], messages)
  {
    var i :| 0 <= i < |messages| && messages[i] == x;
    rest := messages[..i] + messages[i + 1..];
    assert messages == messages[..i] + [x] + messages[i + 1..];
  }

  /** Two latest messages of one key that disagree: whichever comes last decides, and nothing else changes. */
  lemma TieDecidedByOrder(rest: seq<Message>, add: Message, other: Message, localDid: Option<Did>)
    requires SameKey(add, other) && add.action == Some("add") && other.action != Some("add")
    requires add.timestamp == other.timestamp
    requires forall m :: m in rest && SameKey(m, add) ==> m.timestamp <= add.timestamp
    ensures var target, emoji := add.target.value, add.emoji.value;
      && Adders(rest + [other, add], target, emoji) == Adders(rest + [add, other], target, emoji) + {add.sender}
      && add.sender !in Adders(rest + [add, other], target, emoji)
    ensures !SameEntries(rest + [other, add], rest + [add, other], localDid)
  {
    var target, emoji := add.target.value, add.emoji.value;
    var a, b := rest + [other, add], rest + [add, other];
    assert Wins(a, |rest| + 1) && Wins(b, |rest| + 1);
    forall did ensures did in Adders(a, target, emoji) <==> did in Adders(b, target, emoji) || did == add.sender {
      if did != add.sender {
        if did in Adders(a, target, emoji) {
          AddersElsewhere(rest, other, add, target, emoji, did);
        }
        if did in Adders(b, target, emoji) {
          AddersElsewhere(rest, add, other, target, emoji, did);
        }
      }
    }
    if add.sender in Adders(b, target, emoji) {
      var i :| 0 <= i < |b| && Wins(b, i) && b[i].target == Some(target) && b[i].emoji == Some(emoji)
            && b[i].action == Some("add") && b[i].sender == add.sender;
      WinnerUnique(b, i, |rest| + 1);
    }
    assert Adders(a, target, emoji) == Adders(b, target, emoji) + {add.sender};
    assert |Adders(a, target, emoji)| == |Adders(b, target, emoji)| + 1;
    assert SummaryOf(Adders(a, target, emoji), localDid) != SummaryOf(Adders(b, target, emoji), localDid);
  }

  /** For the other senders the order of the last two messages does not matter. */
  lemma AddersElsewhere(rest: seq<Message>, x: Message, y: Message, target: string, emoji: string, did: Did)
    requires SameKey(x, y) && did != x.sender && did in Adders(rest + [x, y], target, emoji)
    ensures did in Adders(rest + [y, x], target, emoji)
  {
    var a, b := rest + [x, y], rest + [y, x];
    var i :| 0 <= i < |a| && Wins(a, i) && a[i].target == Some(target) && a[i].emoji == Some(emoji)
          && a[i].action == Some("add") && a[i].sender == did;
    assert i < |rest| && b[i] == a[i];
    forall j | 0 <= j < |b| && SameKey(b[j], b[i])
      ensures b[j].timestamp < b[i].timestamp || (b[j].timestamp == b[i].timestamp && j <= i)
    {
      assert j < |rest| && a[j] == b[j];
    }
    assert Wins(b, i);
  }
}
