/** What the cache guarantees over whole runs: coherence, bounded staleness, hits, and that eviction is invisible. */
module CacheRuns {
  import opened Wrappers
  import opened IdentityCache

  datatype Op = Get(key: Key) | Insert(key: Key, value: Did, verified: bool) | Remove(key: Key) | Evict | Restart

  datatype Event = Event(op: Op, now: nat)

  function Next(c: Cache, e: Event, offset: nat): Cache {
    var wall := Wall(e.now, offset);
    match e.op
    case Get(key) => Got(c, key, e.now, wall).0
    case Insert(key, value, verified) => Inserted(c, key, value, verified, e.now, wall)
    case Remove(key) => Removed(c, key)
    case Evict => Evicted(c, e.now, wall)
    case Restart => Restarted(c)
  }

  const EMPTY := Cache(map[], map[], map[])

  function After(es: seq<Event>, n: nat, offset: nat): Cache
    requires n <= |es|
  {
    if n == 0 then EMPTY else Next(After(es, n - 1, offset), es[n - 1], offset)
  }

  predicate Timed(es: seq<Event>) {
    forall i, j :: 0 <= i < j < |es| ==> es[i].now <= es[j].now
  }

  /** The reference: the last verified insertion of the key among the first `n` events, unless removed since. */
  function Latest(es: seq<Event>, n: nat, key: Key): Option<(Did, nat)>
    requires n <= |es|
  {
    if n == 0 then None else
    match es[n - 1].op
    case Insert(k, value, verified) => if k == key && verified then Some((value, es[n - 1].now)) else Latest(es, n - 1, key)
    case Remove(k) => if k == key then None else Latest(es, n - 1, key)
    case _ => Latest(es, n - 1, key)
  }

  const L3_TTL: nat := L3_TTL_SECONDS * SECOND
  const MAX_AGE: nat := L3_TTL + L2_TTL + L1_TTL

  /** The disk still vouches for a value inserted at `t`. */
  predicate Vouched(t: nat, now: nat, offset: nat) {
    Wall(now, offset) < Wall(t, offset) + L3_TTL_SECONDS
  }

  lemma VouchedIsYoung(t: nat, now: nat, offset: nat)
    requires Vouched(t, now, offset)
    ensures now < t + L3_TTL
  {
  }

  /** Each layer holds nothing but the latest value, with an expiry within its share of the maximal age. */
  predicate Holds(c: Cache, key: Key, latest: Option<(Did, nat)>, now: nat, offset: nat) {
    match latest
    case None => key !in c.l1 && key !in c.l2 && key !in c.l3
    case Some((v, t)) =>
      && (key in c.l1 ==> c.l1[key].value == v && c.l1[key].expiresAt < t + MAX_AGE)
      && (key in c.l2 ==> c.l2[key].value == v && c.l2[key].expiresAt < t + L3_TTL + L2_TTL)
      && (key in c.l3 ==> c.l3[key] == Entry(v, Wall(t, offset) + L3_TTL_SECONDS))
      && (Vouched(t, now, offset) ==> key in c.l3)
  }

  lemma StepHolds(c: Cache, e: Event, key: Key, latest: Option<(Did, nat)>, before: nat, offset: nat, after: Option<(Did, nat)>)
    requires Holds(c, key, latest, before, offset) && before <= e.now
    requires after == match e.op
      case Insert(k, value, verified) => if k == key && verified then Some((value, e.now)) else latest
      case Remove(k) => if k == key then None else latest
      case _ => latest
    ensures Holds(Next(c, e, offset), key, after, e.now, offset)
  {
    if latest.Some? && Vouched(latest.value.1, e.now, offset) {
      VouchedIsYoung(latest.value.1, e.now, offset);
    }
  }

  lemma {:induction false} RunHolds(es: seq<Event>, n: nat, key: Key, offset: nat)
    requires n <= |es| && Timed(es)
    ensures Holds(After(es, n, offset), key, Latest(es, n, key), if n == 0 then 0 else es[n - 1].now, offset)
  {
    if n != 0 {
      RunHolds(es, n - 1, key, offset);
      StepHolds(After(es, n - 1, offset), es[n - 1], key, Latest(es, n - 1, key), if n == 1 then 0 else es[n - 2].now,
                offset, Latest(es, n, key));
    }
  }

  /** What `Get` answers at event `n` of the run. */
  function Answer(es: seq<Event>, n: nat, offset: nat): Option<Did>
    requires n < |es| && es[n].op.Get?
  {
    Got(After(es, n, offset), es[n].op.key, es[n].now, Wall(es[n].now, offset)).1
  }

  /**
   In every run: an answer is the value most recently inserted since the last removal, and it is younger than the sum of
   the three lifetimes, although promotions restart them; and while the disk vouches for that value it is always found,
   whatever happened to the layers in memory.
  */
  lemma AnswerIsLatest(es: seq<Event>, n: nat, offset: nat)
    requires Timed(es) && n < |es| && es[n].op.Get?
    ensures var answer, latest := Answer(es, n, offset), Latest(es, n, es[n].op.key);
      && (answer.Some? ==> latest.Some? && answer.value == latest.value.0 && es[n].now < latest.value.1 + MAX_AGE)
      && (latest.Some? && Vouched(latest.value.1, es[n].now, offset) ==> answer == Some(latest.value.0))
  {
    var key := es[n].op.key;
    RunHolds(es, n, key, offset);
    var latest := Latest(es, n, key);
    if latest.Some? && Vouched(latest.value.1, es[n].now, offset) {
      VouchedIsYoung(latest.value.1, es[n].now, offset);
    }
  }

  /**
   Eviction rids every layer of its expired entries and of nothing else: afterwards a layer has a key exactly if the key is
   answered from that layer alone, and the cache has a key in some layer exactly if a get would have answered it.
  */
  lemma EvictionIsExact(c: Cache, key: Key, now: nat, offset: nat)
    ensures var e, wall := Next(c, Event(Evict, now), offset), Wall(now, offset);
      && (key in e.l1 <==> Got(Cache(c.l1, map[], map[]), key, now, wall).1.Some?)
      && (key in e.l2 <==> Got(Cache(map[], c.l2, map[]), key, now, wall).1.Some?)
      && (key in e.l3 <==> Got(Cache(map[], map[], c.l3), key, now, wall).1.Some?)
      && (key in e.l1 || key in e.l2 || key in e.l3 <==> Got(c, key, now, wall).1.Some?)
  {
  }

  /** A get that finds nothing rids the disk of the expired entry, and changes nothing else; a get never loses a live one. */
  lemma MissCleansDisk(c: Cache, key: Key, now: nat, wall: nat)
    ensures var (d, answer) := Got(c, key, now, wall);
      && (answer.None? ==> key !in d.l3 && d.l1 == c.l1 && d.l2 == c.l2 && d.l3 == c.l3 - {key})
      && (answer.Some? ==> d.l3 == c.l3 && Got(d, key, now, wall) == (d, answer))
  {
  }

  /** The bound on the age, 24 h + 1 h + 5 min, is tight: a run in which an answer is one nanosecond younger than it. */
  lemma MaxAgeIsTight(key: Key, value: Did)
    ensures MAX_AGE == (24 * 3600 + 3600 + 5 * 60) * 1_000_000_000
    ensures exists es: seq<Event>, n: nat ::
      && n < |es| && Timed(es) && es[n].op == Get(key)
      && Latest(es, n, key) == Some((value, 0)) && es[n].now == MAX_AGE - 1 && Answer(es, n, 0) == Some(value)
  {
    var es := [Event(Insert(key, value, true), 0), Event(Get(key), L3_TTL - 1), Event(Get(key), L3_TTL + L2_TTL - 1),
               Event(Get(key), MAX_AGE - 1)];
    var c1 := After(es, 1, 0);
    assert After(es, 0, 0) == EMPTY;
    assert c1 == Next(EMPTY, es[0], 0);
    assert Wall(L3_TTL - 1, 0) == L3_TTL_SECONDS - 1;
    var c2 := After(es, 2, 0);
    assert c2 == Next(c1, es[1], 0);
    assert c2.l2[key] == Entry(value, L3_TTL + L2_TTL - 1);
    var c3 := After(es, 3, 0);
    assert c3 == Next(c2, es[2], 0);
    assert c3.l1[key] == Entry(value, MAX_AGE - 1);
    assert Latest(es, 1, key) == Some((value, 0)) && Latest(es, 2, key) == Some((value, 0));
    assert Latest(es, 3, key) == Some((value, 0));
    assert Answer(es, 3, 0) == Some(value);
  }

  // ---- When a get answers ----

  /** When one key was last put into each layer, since its last removal and, for the layers in memory, the last restart. */
  datatype Clocks = Clocks(hot: Option<nat>, warm: Option<nat>, disk: Option<nat>)

  predicate Within(filled: Option<nat>, ttl: nat, now: nat) {
    filled.Some? && now <= filled.value + ttl
  }

  predicate OnDisk(filled: Option<nat>, now: nat, offset: nat) {
    filled.Some? && Vouched(filled.value, now, offset)
  }

  /** A get fills the layers above the one that answers. */
  function Asked(k: Clocks, now: nat, offset: nat): Clocks {
    if Within(k.hot, L1_TTL, now) then k
    else if Within(k.warm, L2_TTL, now) then k.(hot := Some(now))
    else if OnDisk(k.disk, now, offset) then k.(hot := Some(now), warm := Some(now))
    else k
  }

  function Ticked(k: Clocks, e: Event, key: Key, offset: nat): Clocks {
    match e.op
    case Get(asked) => if asked == key then Asked(k, e.now, offset) else k
    case Insert(inserted, _, verified) =>
      if inserted == key && verified then Clocks(Some(e.now), Some(e.now), Some(e.now)) else k
    case Remove(removed) => if removed == key then Clocks(None, None, None) else k
    case Evict => k
    case Restart => Clocks(None, None, k.disk)
  }

  function ClocksOf(es: seq<Event>, n: nat, key: Key, offset: nat): Clocks
    requires n <= |es|
  {
    if n == 0 then Clocks(None, None, None) else Ticked(ClocksOf(es, n - 1, key, offset), es[n - 1], key, offset)
  }

  /** An entry is there with the expiry that its clock gives, or it has expired. */
  predicate LayerClocked(layer: Layer, key: Key, filled: Option<nat>, ttl: nat, now: nat) {
    && (key in layer ==> filled.Some? && layer[key].expiresAt == filled.value + ttl)
    && (key !in layer ==> !Within(filled, ttl, now))
  }

  predicate DiskClocked(layer: Layer, key: Key, filled: Option<nat>, now: nat, offset: nat) {
    && (key in layer ==> filled.Some? && layer[key].expiresAt == Wall(filled.value, offset) + L3_TTL_SECONDS)
    && (key !in layer ==> !OnDisk(filled, now, offset))
  }

  predicate Clocked(c: Cache, key: Key, k: Clocks, now: nat, offset: nat) {
    && LayerClocked(c.l1, key, k.hot, L1_TTL, now)
    && LayerClocked(c.l2, key, k.warm, L2_TTL, now)
    && DiskClocked(c.l3, key, k.disk, now, offset)
  }

  lemma ClockedLater(c: Cache, key: Key, k: Clocks, before: nat, now: nat, offset: nat)
    requires Clocked(c, key, k, before, offset) && before <= now
    ensures Clocked(c, key, k, now, offset)
  {
    WallMonotone(before, now, offset);
  }

  lemma StepClocked(c: Cache, e: Event, key: Key, k: Clocks, offset: nat)
    requires Clocked(c, key, k, e.now, offset)
    ensures Clocked(Next(c, e, offset), key, Ticked(k, e, key, offset), e.now, offset)
  {
    match e.op
    case Get(asked) =>
      if asked == key {
        AskedClocked(c, key, k, e.now, offset);
      } else {
        OtherKeyClocked(c, asked, key, k, e.now, offset);
      }
    case Insert(inserted, value, verified) =>
      InsertClocked(c, inserted, value, verified, key, k, e.now, offset);
    case Evict =>
      EvictClocked(c, key, k, e.now, offset);
    case Remove(_) =>
    case Restart =>
  }

  lemma AskedClocked(c: Cache, key: Key, k: Clocks, now: nat, offset: nat)
    requires Clocked(c, key, k, now, offset)
    ensures Clocked(Got(c, key, now, Wall(now, offset)).0, key, Asked(k, now, offset), now, offset)
    ensures Got(c, key, now, Wall(now, offset)).1.Some? <==>
      Within(k.hot, L1_TTL, now) || Within(k.warm, L2_TTL, now) || OnDisk(k.disk, now, offset)
  {
    assert Fetch(c.l1, key, now).Some? <==> Within(k.hot, L1_TTL, now);
    assert Fetch(c.l2, key, now).Some? <==> Within(k.warm, L2_TTL, now);
    assert FetchDisk(c.l3, key, Wall(now, offset)).Some? <==> OnDisk(k.disk, now, offset);
  }

  lemma OtherKeyClocked(c: Cache, asked: Key, key: Key, k: Clocks, now: nat, offset: nat)
    requires Clocked(c, key, k, now, offset) && asked != key
    ensures Clocked(Got(c, asked, now, Wall(now, offset)).0, key, k, now, offset)
  {
  }

  lemma InsertClocked(c: Cache, inserted: Key, value: Did, verified: bool, key: Key, k: Clocks, now: nat, offset: nat)
    requires Clocked(c, key, k, now, offset)
    ensures Clocked(Next(c, Event(Insert(inserted, value, verified), now), offset), key,
                    Ticked(k, Event(Insert(inserted, value, verified), now), key, offset), now, offset)
  {
  }

  lemma EvictClocked(c: Cache, key: Key, k: Clocks, now: nat, offset: nat)
    requires Clocked(c, key, k, now, offset)
    ensures Clocked(Evicted(c, now, Wall(now, offset)), key, k, now, offset)
  {
  }

  lemma {:induction false} RunClocked(es: seq<Event>, n: nat, key: Key, now: nat, offset: nat)
    requires n <= |es| && Timed(es) && (n != 0 ==> es[n - 1].now <= now)
    ensures Clocked(After(es, n, offset), key, ClocksOf(es, n, key, offset), now, offset)
  {
    if n != 0 {
      RunClocked(es, n - 1, key, es[n - 1].now, offset);
      StepClocked(After(es, n - 1, offset), es[n - 1], key, ClocksOf(es, n - 1, key, offset), offset);
      ClockedLater(After(es, n, offset), key, ClocksOf(es, n, key, offset), es[n - 1].now, now, offset);
    }
  }

  /**
   In every run, a get answers if and only if the key was put into the hot layer at most five minutes ago, or into the warm
   one at most an hour ago, by an insertion or a promotion, or the disk still vouches for the insertion.
  */
  lemma {:induction false} AnswersIff(es: seq<Event>, n: nat, offset: nat)
    requires Timed(es) && n < |es| && es[n].op.Get?
    ensures var k := ClocksOf(es, n, es[n].op.key, offset);
      Answer(es, n, offset).Some? <==>
        Within(k.hot, L1_TTL, es[n].now) || Within(k.warm, L2_TTL, es[n].now) || OnDisk(k.disk, es[n].now, offset)
  {
    var key := es[n].op.key;
    RunClocked(es, n, key, es[n].now, offset);
    AskedClocked(After(es, n, offset), key, ClocksOf(es, n, key, offset), es[n].now, offset);
  }

  // ---- Eviction is invisible ----

  /** The answers to the `Get`s of a run from `c`, in order. */
  function Answers(c: Cache, es: seq<Event>, offset: nat): seq<Option<Did>>
    decreases |es|
  {
    if es == [] then [] else
    var e := es[0];
    (if e.op.Get? then [Got(c, e.op.key, e.now, Wall(e.now, offset)).1] else [])
      + Answers(Next(c, e, offset), es[1..], offset)
  }

  function WithoutEvictions(es: seq<Event>): seq<Event> {
    if es == [] then []
    else (if es[0].op.Evict? then [] else [es[0]]) + WithoutEvictions(es[1..])
  }

  function Live(layer: Layer, key: Key, now: nat): Option<Entry> {
    if key in layer && !Expired(layer[key], now) then Some(layer[key]) else None
  }

  function LiveOnDisk(layer: Layer, key: Key, wall: nat): Option<Entry> {
    if key in layer && !DiskExpired(layer[key], wall) then Some(layer[key]) else None
  }

  /** Two caches with the same unexpired entries. */
  ghost predicate SameLive(c: Cache, d: Cache, now: nat, offset: nat) {
    forall key :: SameLiveAt(c, d, key, now, Wall(now, offset))
  }

  lemma WallMonotone(t: nat, now: nat, offset: nat)
    requires t <= now
    ensures Wall(t, offset) <= Wall(now, offset)
  {
  }

  lemma SameLiveLater(c: Cache, d: Cache, t: nat, now: nat, offset: nat)
    requires SameLive(c, d, t, offset) && t <= now
    ensures SameLive(c, d, now, offset)
  {
    WallMonotone(t, now, offset);
    forall key ensures SameLiveAt(c, d, key, now, Wall(now, offset)) {
      assert SameLiveAt(c, d, key, t, Wall(t, offset));
    }
  }

  lemma EvictionKeepsLive(c: Cache, d: Cache, now: nat, offset: nat)
    requires SameLive(c, d, now, offset)
    ensures SameLive(Evicted(c, now, Wall(now, offset)), d, now, offset)
  {
    forall key ensures SameLiveAt(Evicted(c, now, Wall(now, offset)), d, key, now, Wall(now, offset)) {
      assert SameLiveAt(c, d, key, now, Wall(now, offset));
    }
  }

  ghost predicate SameLiveAt(c: Cache, d: Cache, key: Key, now: nat, wall: nat) {
    && Live(c.l1, key, now) == Live(d.l1, key, now)
    && Live(c.l2, key, now) == Live(d.l2, key, now)
    && LiveOnDisk(c.l3, key, wall) == LiveOnDisk(d.l3, key, wall)
  }

  /** Caches with the same live entries answer alike and stay alike under every operation. */
  lemma StepSameLive(c: Cache, d: Cache, e: Event, offset: nat)
    requires SameLive(c, d, e.now, offset)
    ensures SameLive(Next(c, e, offset), Next(d, e, offset), e.now, offset)
    ensures e.op.Get? ==>
      Got(c, e.op.key, e.now, Wall(e.now, offset)).1 == Got(d, e.op.key, e.now, Wall(e.now, offset)).1
  {
    var wall := Wall(e.now, offset);
    if e.op.Get? {
      GotSameLive(c, d, e.op.key, e.now, wall);
    }
    forall key ensures SameLiveAt(Next(c, e, offset), Next(d, e, offset), key, e.now, wall) {
      assert SameLiveAt(c, d, key, e.now, wall);
      StepSameLiveAt(c, d, e, key, offset);
    }
  }

  lemma StepSameLiveAt(c: Cache, d: Cache, e: Event, key: Key, offset: nat)
    requires SameLiveAt(c, d, key, e.now, Wall(e.now, offset))
    requires e.op.Get? ==> SameLiveAt(c, d, e.op.key, e.now, Wall(e.now, offset))
    ensures SameLiveAt(Next(c, e, offset), Next(d, e, offset), key, e.now, Wall(e.now, offset))
  {
    if e.op.Get? {
      GotSameLiveElsewhere(c, d, e.op.key, key, e.now, Wall(e.now, offset));
    } else if e.op.Evict? {
      EvictedSameLiveAt(c, d, key, e.now, Wall(e.now, offset));
    }
  }

  lemma EvictedSameLiveAt(c: Cache, d: Cache, key: Key, now: nat, wall: nat)
    requires SameLiveAt(c, d, key, now, wall)
    ensures SameLiveAt(Evicted(c, now, wall), Evicted(d, now, wall), key, now, wall)
  {
  }

  lemma GotSameLive(c: Cache, d: Cache, key: Key, now: nat, wall: nat)
    requires SameLiveAt(c, d, key, now, wall)
    ensures Got(c, key, now, wall).1 == Got(d, key, now, wall).1
    ensures SameLiveAt(Got(c, key, now, wall).0, Got(d, key, now, wall).0, key, now, wall)
  {
  }

  lemma GotSameLiveElsewhere(c: Cache, d: Cache, asked: Key, key: Key, now: nat, wall: nat)
    requires SameLiveAt(c, d, asked, now, wall) && SameLiveAt(c, d, key, now, wall)
    ensures SameLiveAt(Got(c, asked, now, wall).0, Got(d, asked, now, wall).0, key, now, wall)
  {
    GotSameLive(c, d, asked, now, wall);
  }

  /** Running evictions at any times changes no answer of the run. */
  lemma EvictionsChangeNoAnswer(c: Cache, es: seq<Event>, offset: nat)
    requires Timed(es)
    ensures Answers(c, es, offset) == Answers(c, WithoutEvictions(es), offset)
  {
    EvictionInvisible(c, c, es, 0, offset);
  }

  lemma {:induction false} EvictionInvisible(c: Cache, d: Cache, es: seq<Event>, t: nat, offset: nat)
    requires SameLive(c, d, t, offset) && Timed(es) && (es != [] ==> t <= es[0].now)
    ensures Answers(c, es, offset) == Answers(d, WithoutEvictions(es), offset)
    decreases |es|
  {
    if es != [] {
      var e := es[0];
      SameLiveLater(c, d, t, e.now, offset);
      assert forall k :: 0 <= k < |es| - 1 ==> es[1..][k] == es[k + 1];
      if e.op.Evict? {
        EvictionKeepsLive(c, d, e.now, offset);
        EvictionInvisible(Next(c, e, offset), d, es[1..], e.now, offset);
        assert WithoutEvictions(es) == WithoutEvictions(es[1..]);
      } else {
        StepSameLive(c, d, e, offset);
        EvictionInvisible(Next(c, e, offset), Next(d, e, offset), es[1..], e.now, offset);
        assert ([e] + WithoutEvictions(es[1..]))[1..] == WithoutEvictions(es[1..]);
      }
    }
  }
}
