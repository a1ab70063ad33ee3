/** What the limiter guarantees over whole runs: what its index holds, how much it lets through, when it denies. */
module RateLimits {
  import opened Wrappers
  import opened TokenBuckets
  import opened RateLimiter
  import BucketHistory

  // ---- Runs ----

  datatype Event =
    | Check(peer: Peer, protocol: Label, now: real)
    | RemovePeer(peer: Peer)
    | SetConfig(protocol: Label, config: Config)

  function Next(s: Limiter, e: Event): Limiter {
    match e
    case Check(peer, protocol, now) => Checked(s, peer, protocol, now)
    case RemovePeer(peer) => PeerRemoved(s, peer)
    case SetConfig(protocol, config) => Configured(s, protocol, config)
  }

  /** The tables after the first `n` events of a run from `s`. */
  function After(s: Limiter, es: seq<Event>, n: nat): Limiter
    requires n <= |es|
  {
    if n == 0 then s else Next(After(s, es, n - 1), es[n - 1])
  }

  /** The clock never goes back. */
  predicate Timed(es: seq<Event>) {
    forall i, j :: 0 <= i < j < |es| && es[i].Check? && es[j].Check? ==> es[i].now <= es[j].now
  }

  predicate CheckedWithin(es: seq<Event>, start: real, end: real) {
    forall n :: 0 <= n < |es| && es[n].Check? ==> start <= es[n].now <= end
  }

  // ---- The index ----

  predicate NoDuplicates(labels: seq<Label>) {
    forall i, j :: 0 <= i < j < |labels| ==> labels[i] != labels[j]
  }

  /** The bucket table holds exactly the pairs the index lists, each label once. */
  ghost predicate IndexAgrees(s: Limiter) {
    && (forall peer, protocol :: (peer, protocol) in s.protocolBuckets <==> protocol in LabelsOf(s.peerProtocols, peer))
    && (forall peer :: NoDuplicates(LabelsOf(s.peerProtocols, peer)))
  }

  lemma DroppedExactly<B>(buckets: map<(Peer, Label), B>, peer: Peer, labels: seq<Label>, key: (Peer, Label))
    ensures key in Dropped(buckets, peer, labels) <==> key in buckets && !(key.0 == peer && key.1 in labels)
  {
    if labels != [] {
      var init, last := labels[..|labels| - 1], labels[|labels| - 1];
      DroppedExactly(buckets, peer, init, key);
      assert labels == init + [last];
    }
  }

  /** A request leaves the entries of all others alone, and the index changes only with the set of entries. */
  lemma CheckedTables(s: Limiter, peer: Peer, protocol: Label, now: real)
    ensures var t := Checked(s, peer, protocol, now);
      && (protocol !in s.configs ==> t == s)
      && (forall k :: k != (peer, protocol) ==>
            (k in t.protocolBuckets <==> k in s.protocolBuckets)
            && (k in t.protocolBuckets ==> t.protocolBuckets[k] == s.protocolBuckets[k]))
      && (forall p :: p != peer ==>
            (p in t.globalBuckets <==> p in s.globalBuckets)
            && (p in t.globalBuckets ==> t.globalBuckets[p] == s.globalBuckets[p]))
      && (protocol in s.configs ==> t.protocolBuckets.Keys == s.protocolBuckets.Keys + {(peer, protocol)})
      && t.peerProtocols == if protocol !in s.configs || (peer, protocol) in s.protocolBuckets then s.peerProtocols
                            else s.peerProtocols[peer := LabelsOf(s.peerProtocols, peer) + [protocol]]
  {
    if protocol in s.configs {
      var taken := Verdict(s, peer, protocol, now) != ProtocolLimited;
      ProtocolTakenTables(s, peer, protocol, now, taken);
      var t := ProtocolTaken(s, peer, protocol, now, taken);
      assert t.peerProtocols == Checked(s, peer, protocol, now).peerProtocols;
    }
  }

  lemma ProtocolTakenTables(s: Limiter, peer: Peer, protocol: Label, now: real, take: bool)
    requires protocol in s.configs
    ensures var t := ProtocolTaken(s, peer, protocol, now, take);
      && t.protocolBuckets.Keys == s.protocolBuckets.Keys + {(peer, protocol)}
      && (forall k :: k in s.protocolBuckets && k != (peer, protocol) ==> t.protocolBuckets[k] == s.protocolBuckets[k])
      && t.globalBuckets == s.globalBuckets
      && t.peerProtocols == if (peer, protocol) in s.protocolBuckets then s.peerProtocols
                            else s.peerProtocols[peer := LabelsOf(s.peerProtocols, peer) + [protocol]]
  {
  }

  lemma IndexStep(s: Limiter, e: Event)
    requires IndexAgrees(s)
    ensures IndexAgrees(Next(s, e))
  {
    if e.RemovePeer? {
      RemovalIsFullScan(s, e.peer);
    } else if e.Check? {
      CheckedTables(s, e.peer, e.protocol, e.now);
      IndexChecked(s, Checked(s, e.peer, e.protocol, e.now), e.peer, e.protocol);
    }
  }

  lemma IndexChecked(s: Limiter, t: Limiter, peer: Peer, protocol: Label)
    requires IndexAgrees(s)
    requires protocol !in s.configs ==> t == s
    requires protocol in s.configs ==> t.protocolBuckets.Keys == s.protocolBuckets.Keys + {(peer, protocol)}
    requires t.peerProtocols == if protocol !in s.configs || (peer, protocol) in s.protocolBuckets then s.peerProtocols
                                else s.peerProtocols[peer := LabelsOf(s.peerProtocols, peer) + [protocol]]
    ensures IndexAgrees(t)
  {
    forall p, l ensures (p, l) in t.protocolBuckets <==> l in LabelsOf(t.peerProtocols, p) {
      assert (p, l) in t.protocolBuckets.Keys <==> (p, l) in t.protocolBuckets;
      assert (p, l) in s.protocolBuckets.Keys <==> (p, l) in s.protocolBuckets;
    }
    forall p ensures NoDuplicates(LabelsOf(t.peerProtocols, p)) {
      assert NoDuplicates(LabelsOf(s.peerProtocols, p));
      assert (peer, protocol) !in s.protocolBuckets ==> protocol !in LabelsOf(s.peerProtocols, peer);
    }
  }

  lemma {:induction false} IndexKept(s: Limiter, es: seq<Event>, n: nat)
    requires IndexAgrees(s) && n <= |es|
    ensures IndexAgrees(After(s, es, n))
  {
    if n != 0 {
      IndexKept(s, es, n - 1);
      IndexStep(After(s, es, n - 1), es[n - 1]);
    }
  }

  /** In every reachable state the index and the bucket table agree. */
  lemma IndexAlwaysAgrees(s: Limiter, es: seq<Event>, n: nat)
    requires Unused(s) && n <= |es|
    ensures IndexAgrees(After(s, es, n))
  {
    IndexKept(s, es, n);
  }

  /** Removing a peer through the index deletes what a scan of the whole table would, and nothing else. */
  lemma RemovalIsFullScan(s: Limiter, peer: Peer)
    requires IndexAgrees(s)
    ensures var t := PeerRemoved(s, peer);
      && t.protocolBuckets == (map k | k in s.protocolBuckets && k.0 != peer :: s.protocolBuckets[k])
      && t.globalBuckets == (map p | p in s.globalBuckets && p != peer :: s.globalBuckets[p])
      && t.configs == s.configs && t.globalConfig == s.globalConfig
      && IndexAgrees(t)
  {
    var t, labels := PeerRemoved(s, peer), LabelsOf(s.peerProtocols, peer);
    DroppedKeys(s.protocolBuckets, s.protocolBuckets, peer, labels);
    forall k ensures k in t.protocolBuckets <==> k in s.protocolBuckets && k.0 != peer {
      DroppedExactly(s.protocolBuckets, peer, labels, k);
      assert (k.0, k.1) == k;
    }
    forall p ensures NoDuplicates(LabelsOf(t.peerProtocols, p)) {
      assert NoDuplicates(LabelsOf(s.peerProtocols, p));
    }
  }

  // ---- One bucket at a time ----

  /** A request that the budget `id` is meant to meter. Requests on unregistered protocols are not metered. */
  predicate Metered(s: Limiter, e: Event, id: BucketId) {
    e.Check? && e.protocol in s.configs && e.peer == id.peer && (id.Protocol? ==> e.protocol == id.protocol)
  }

  /** A metered request that was let through. */
  predicate Admits(s: Limiter, e: Event, id: BucketId) {
    Metered(s, e, id) && Verdict(s, e.peer, e.protocol, e.now) == Allowed
  }

  /** The global bucket is not looked at once the protocol bucket has denied. */
  predicate Touches(s: Limiter, e: Event, id: BucketId) {
    Metered(s, e, id) && (id.Global? ==> Verdict(s, e.peer, e.protocol, e.now) != ProtocolLimited)
  }

  function DenialBy(id: BucketId): Decision {
    if id.Protocol? then ProtocolLimited else GlobalLimited
  }

  function View(s: Limiter, id: BucketId): Option<Bucket> {
    match id
    case Protocol(peer, protocol) =>
      if (peer, protocol) in s.protocolBuckets then Some(s.protocolBuckets[(peer, protocol)]) else None
    case Global(peer) =>
      if peer in s.globalBuckets then Some(s.globalBuckets[peer]) else None
  }

  function ConfigFor(s: Limiter, id: BucketId): Config
    requires id.Protocol? ==> id.protocol in s.configs
  {
    if id.Protocol? then s.configs[id.protocol] else s.globalConfig
  }

  /** The refilled bucket a request at `now` is checked against. */
  function Current(s: Limiter, id: BucketId, now: real): Bucket
    requires id.Protocol? ==> id.protocol in s.configs
  {
    BucketHistory.OnUse(View(s, id), ConfigFor(s, id), now)
  }

  /** What an event means for one bucket. */
  function TurnOf(s: Limiter, e: Event, id: BucketId): BucketHistory.Turn {
    if Touches(s, e, id) then BucketHistory.Use(ConfigFor(s, id), e.now, Admits(s, e, id))
    else if e == RemovePeer(id.peer) then BucketHistory.Remove
    else BucketHistory.Skip
  }

  lemma CheckEffect(s: Limiter, e: Event, id: BucketId)
    requires e.Check? && Metered(s, e, id)
    ensures View(Next(s, e), id) == BucketHistory.Apply(View(s, id), TurnOf(s, e, id))
    ensures Touches(s, e, id) ==>
      (Verdict(s, e.peer, e.protocol, e.now) == DenialBy(id) <==> Current(s, id, e.now).tokens < 1.0)
  {
  }

  /**
   Each event acts on each bucket as its turn says: a touched bucket loses a token exactly if the request is let
   through, a refund leaves no trace, and the bucket that denies is the one that is short of a token.
  */
  lemma TurnEffect(s: Limiter, e: Event, id: BucketId)
    requires IndexAgrees(s)
    ensures View(Next(s, e), id) == BucketHistory.Apply(View(s, id), TurnOf(s, e, id))
    ensures Touches(s, e, id) ==>
      (Verdict(s, e.peer, e.protocol, e.now) == DenialBy(id) <==> Current(s, id, e.now).tokens < 1.0)
    ensures Admits(s, e, id) ==> Touches(s, e, id) && Current(s, id, e.now).tokens >= 1.0
  {
    if e.RemovePeer? {
      RemovalIsFullScan(s, e.peer);
    } else if Metered(s, e, id) {
      CheckEffect(s, e, id);
    } else if e.Check? {
      UnmeteredEffect(s, e.peer, e.protocol, e.now, id);
    }
  }

  lemma UnmeteredEffect(s: Limiter, peer: Peer, protocol: Label, now: real, id: BucketId)
    requires !Metered(s, Check(peer, protocol, now), id)
    ensures View(Checked(s, peer, protocol, now), id) == View(s, id)
  {
    CheckedTables(s, peer, protocol, now);
  }

  /** The bucket of `id` before each event of the run, and after the last. */
  function Views(s: Limiter, es: seq<Event>, id: BucketId): seq<Option<Bucket>> {
    seq(|es| + 1, n requires 0 <= n <= |es| => View(After(s, es, n), id))
  }

  function History(s: Limiter, es: seq<Event>, id: BucketId): seq<BucketHistory.Turn> {
    seq(|es|, n requires 0 <= n < |es| => TurnOf(After(s, es, n), es[n], id))
  }

  /** Which requests of the run the budget `id` metered and let through. */
  function Admissions(s: Limiter, es: seq<Event>, id: BucketId): seq<bool> {
    seq(|es|, n requires 0 <= n < |es| => Admits(After(s, es, n), es[n], id))
  }

  function Count(flags: seq<bool>, i: nat, n: nat): nat
    requires i <= n <= |flags|
  {
    if i == n then 0 else Count(flags, i, n - 1) + (if flags[n - 1] then 1 else 0)
  }

  function Removals(es: seq<Event>, n: nat, peer: Peer): nat
    requires n <= |es|
  {
    if n == 0 then 0 else Removals(es, n - 1, peer) + (if es[n - 1] == RemovePeer(peer) then 1 else 0)
  }

  lemma TurnAt(s: Limiter, es: seq<Event>, n: nat, id: BucketId)
    requires n < |es| && IndexAgrees(s)
    ensures var turn, views := History(s, es, id)[n], Views(s, es, id);
      && views[n + 1] == BucketHistory.Apply(views[n], turn)
      && (Admissions(s, es, id)[n] <==> turn.Use? && turn.admit)
      && (turn.Remove? <==> es[n] == RemovePeer(id.peer))
      && (turn.Use? ==> es[n].Check? && turn.now == es[n].now)
      && (turn.Use? && turn.admit ==> BucketHistory.OnUse(views[n], turn.config, turn.now).tokens >= 1.0)
  {
    IndexKept(s, es, n);
    TurnEffect(After(s, es, n), es[n], id);
  }

  lemma {:induction false} LifeFollows(views: seq<Option<Bucket>>, ts: seq<BucketHistory.Turn>, n: nat)
    requires n <= |ts| < |views|
    requires forall k :: 0 <= k < n ==> views[k + 1] == BucketHistory.Apply(views[k], ts[k])
    ensures views[n] == BucketHistory.Life(views[0], ts, n)
  {
    if n != 0 {
      LifeFollows(views, ts, n - 1);
    }
  }

  /** The bucket of `id` in the limiter lives the history that the run gives it. */
  lemma LivesHistory(s: Limiter, es: seq<Event>, id: BucketId)
    requires IndexAgrees(s)
    ensures forall n :: 0 <= n <= |es| ==>
      Views(s, es, id)[n] == BucketHistory.Life(View(s, id), History(s, es, id), n)
  {
    var views, ts := Views(s, es, id), History(s, es, id);
    forall k | 0 <= k < |es| ensures views[k + 1] == BucketHistory.Apply(views[k], ts[k]) {
      TurnAt(s, es, k, id);
    }
    forall n | 0 <= n <= |es| ensures views[n] == BucketHistory.Life(views[0], ts, n) {
      LifeFollows(views, ts, n);
    }
  }

  lemma HistoryIsHonest(s: Limiter, es: seq<Event>, id: BucketId)
    requires IndexAgrees(s) && Timed(es)
    ensures BucketHistory.Honest(View(s, id), History(s, es, id)) && BucketHistory.Timed(History(s, es, id))
  {
    var ts := History(s, es, id);
    LivesHistory(s, es, id);
    forall n | 0 <= n < |es|
      ensures ts[n].Use? ==> es[n].Check? && ts[n].now == es[n].now
      ensures ts[n].Use? && ts[n].admit ==>
        BucketHistory.OnUse(BucketHistory.Life(View(s, id), ts, n), ts[n].config, ts[n].now).tokens >= 1.0
    {
      TurnAt(s, es, n, id);
    }
  }

  lemma HistoryUsedWithin(s: Limiter, es: seq<Event>, id: BucketId, start: real, end: real)
    requires IndexAgrees(s) && CheckedWithin(es, start, end)
    ensures BucketHistory.UsedFrom(History(s, es, id), start) && BucketHistory.UsedUntil(History(s, es, id), end)
  {
    forall n | 0 <= n < |es| ensures History(s, es, id)[n].Use? ==> start <= History(s, es, id)[n].now <= end {
      TurnAt(s, es, n, id);
    }
  }

  lemma {:induction false} CountsAgree(flags: seq<bool>, es: seq<Event>, ts: seq<BucketHistory.Turn>, peer: Peer, i: nat, n: nat)
    requires i <= n <= |ts| == |flags| == |es|
    requires forall k :: 0 <= k < |ts| ==> (flags[k] <==> ts[k].Use? && ts[k].admit)
    requires forall k :: 0 <= k < |ts| ==> (ts[k].Remove? <==> es[k] == RemovePeer(peer))
    ensures Count(flags, i, n) == BucketHistory.Admitted(ts, i, n)
    ensures Removals(es, n, peer) == BucketHistory.Removals(ts, n)
  {
    if i < n {
      CountsAgree(flags, es, ts, peer, i, n - 1);
    } else if 0 < n {
      CountsAgree(flags, es, ts, peer, i - 1, n - 1);
    }
  }

  lemma HistoryCounts(s: Limiter, es: seq<Event>, id: BucketId, i: nat, n: nat)
    requires IndexAgrees(s) && i <= n <= |es|
    ensures Admitted(s, es, i, n, id) == BucketHistory.Admitted(History(s, es, id), i, n)
    ensures Removals(es, n, id.peer) == BucketHistory.Removals(History(s, es, id), n)
  {
    var flags, ts := Admissions(s, es, id), History(s, es, id);
    forall k | 0 <= k < |es|
      ensures (flags[k] <==> ts[k].Use? && ts[k].admit) && (ts[k].Remove? <==> es[k] == RemovePeer(id.peer))
    {
      TurnAt(s, es, k, id);
    }
    CountsAgree(flags, es, ts, id.peer, i, n);
  }

  // ---- The rate bound ----

  /** Metered requests let through among events `i..n` of the run. */
  function Admitted(s: Limiter, es: seq<Event>, i: nat, n: nat, id: BucketId): nat
    requires i <= n <= |es|
  {
    Count(Admissions(s, es, id), i, n)
  }

  /** Throughout the run the bucket, whenever there is one, has at most this burst and rate. */
  predicate AlwaysWithin(s: Limiter, es: seq<Event>, id: BucketId, burst: real, rate: real) {
    forall n :: 0 <= n <= |es| ==> BucketHistory.Within(Views(s, es, id)[n], burst, rate)
  }

  lemma StaysWithin(s: Limiter, es: seq<Event>, id: BucketId, burst: real, rate: real)
    requires IndexAgrees(s) && AlwaysWithin(s, es, id, burst, rate)
    ensures BucketHistory.AlwaysWithin(View(s, id), History(s, es, id), burst, rate)
  {
    LivesHistory(s, es, id);
    forall n | 0 <= n <= |es|
      ensures BucketHistory.Within(BucketHistory.Life(View(s, id), History(s, es, id), n), burst, rate)
    {
      assert BucketHistory.Within(Views(s, es, id)[n], burst, rate);
    }
  }

  /**
   In every window of length `length`, a budget lets through at most one burst, plus one per removal of the peer, plus
   the refill. `id` is one peer on one protocol, or one peer over all registered protocols; the run may start in any
   state whose index agrees and interleave any other peers, removals and reconfigurations, as long as the buckets of
   `id` stay within the two parameters.
  */
  lemma RateBound(s: Limiter, es: seq<Event>, id: BucketId, burst: real, rate: real, start: real, length: real)
    requires IndexAgrees(s) && Timed(es) && CheckedWithin(es, start, start + length)
    requires burst >= 0.0 && rate >= 0.0 && length >= 0.0 && AlwaysWithin(s, es, id, burst, rate)
    ensures BucketHistory.WithinBudget(Admitted(s, es, 0, |es|, id), Removals(es, |es|, id.peer), burst, rate, length)
  {
    var v, ts := BoundedHistory(s, es, id, burst, rate, start, start + length);
    BucketHistory.Bound(v, ts, burst, rate, start, length);
  }

  /** The history of a budget in such a window, with all that the bound on one bucket needs. */
  lemma BoundedHistory(s: Limiter, es: seq<Event>, id: BucketId, burst: real, rate: real, start: real, end: real)
      returns (v: Option<Bucket>, ts: seq<BucketHistory.Turn>)
    requires IndexAgrees(s) && Timed(es) && CheckedWithin(es, start, end) && AlwaysWithin(s, es, id, burst, rate)
    ensures BucketHistory.Honest(v, ts) && BucketHistory.Timed(ts) && BucketHistory.AlwaysWithin(v, ts, burst, rate)
    ensures BucketHistory.UsedFrom(ts, start) && BucketHistory.UsedUntil(ts, end)
    ensures Admitted(s, es, 0, |es|, id) == BucketHistory.Admitted(ts, 0, |ts|)
    ensures Removals(es, |es|, id.peer) == BucketHistory.Removals(ts, |ts|)
  {
    v, ts := View(s, id), History(s, es, id);
    HistoryIsHonest(s, es, id);
    HistoryUsedWithin(s, es, id, start, end);
    StaysWithin(s, es, id, burst, rate);
    HistoryCounts(s, es, id, 0, |es|);
  }

  /** A global bucket always has the global parameters. */
  predicate GlobalParameters(s: Limiter) {
    forall p :: p in s.globalBuckets ==>
      s.globalBuckets[p].maxTokens == s.globalConfig.maxTokens && s.globalBuckets[p].refillRate == s.globalConfig.refillRate
  }

  lemma {:induction false} GlobalParametersKept(s: Limiter, es: seq<Event>, n: nat)
    requires GlobalParameters(s) && IndexAgrees(s) && n <= |es|
    ensures GlobalParameters(After(s, es, n)) && After(s, es, n).globalConfig == s.globalConfig
  {
    if n != 0 {
      GlobalParametersKept(s, es, n - 1);
      IndexKept(s, es, n - 1);
      GlobalParametersStep(After(s, es, n - 1), es[n - 1]);
    }
  }

  lemma GlobalParametersStep(s: Limiter, e: Event)
    requires GlobalParameters(s) && IndexAgrees(s)
    ensures GlobalParameters(Next(s, e)) && Next(s, e).globalConfig == s.globalConfig
  {
    forall p | p in Next(s, e).globalBuckets ensures HasParameters(View(Next(s, e), Global(p)), s.globalConfig) {
      assert HasParameters(View(s, Global(p)), s.globalConfig);
      ParametersAt(s, e, Global(p), s.globalConfig);
    }
  }

  /** What a peer gets over all registered protocols together is bounded by the global parameters. */
  lemma GlobalRateBound(s: Limiter, es: seq<Event>, peer: Peer, start: real, length: real)
    requires IndexAgrees(s) && GlobalParameters(s)
    requires Timed(es) && CheckedWithin(es, start, start + length) && length >= 0.0
    requires s.globalConfig.maxTokens >= 0.0 && s.globalConfig.refillRate >= 0.0
    ensures BucketHistory.WithinBudget(Admitted(s, es, 0, |es|, Global(peer)), Removals(es, |es|, peer),
                                       s.globalConfig.maxTokens, s.globalConfig.refillRate, length)
  {
    var id := Global(peer);
    forall n | 0 <= n <= |es|
      ensures BucketHistory.Within(Views(s, es, id)[n], s.globalConfig.maxTokens, s.globalConfig.refillRate)
    {
      GlobalParametersKept(s, es, n);
    }
    RateBound(s, es, id, s.globalConfig.maxTokens, s.globalConfig.refillRate, start, length);
  }

  /** Every bucket of `protocol` has the parameters now configured for it. */
  predicate ProtocolParameters(s: Limiter, protocol: Label, config: Config) {
    protocol in s.configs && s.configs[protocol] == config
    && forall k :: k in s.protocolBuckets && k.1 == protocol ==>
      s.protocolBuckets[k].maxTokens == config.maxTokens && s.protocolBuckets[k].refillRate == config.refillRate
  }

  predicate NotReconfigured(es: seq<Event>, protocol: Label) {
    forall k :: 0 <= k < |es| && es[k].SetConfig? ==> es[k].protocol != protocol
  }

  lemma {:induction false} ProtocolParametersKept(s: Limiter, es: seq<Event>, n: nat, protocol: Label, config: Config)
    requires ProtocolParameters(s, protocol, config) && IndexAgrees(s) && NotReconfigured(es, protocol) && n <= |es|
    ensures ProtocolParameters(After(s, es, n), protocol, config)
  {
    if n != 0 {
      ProtocolParametersKept(s, es, n - 1, protocol, config);
      IndexKept(s, es, n - 1);
      ProtocolParametersStep(After(s, es, n - 1), es[n - 1], protocol, config);
    }
  }

  lemma ProtocolParametersStep(s: Limiter, e: Event, protocol: Label, config: Config)
    requires ProtocolParameters(s, protocol, config) && IndexAgrees(s) && (e.SetConfig? ==> e.protocol != protocol)
    ensures ProtocolParameters(Next(s, e), protocol, config)
  {
    var t := Next(s, e);
    forall k | k in t.protocolBuckets && k.1 == protocol
      ensures t.protocolBuckets[k].maxTokens == config.maxTokens && t.protocolBuckets[k].refillRate == config.refillRate
    {
      assert HasParameters(View(s, Protocol(k.0, k.1)), config);
      ParametersAt(s, e, Protocol(k.0, k.1), config);
    }
  }

  predicate HasParameters(v: Option<Bucket>, config: Config) {
    v.Some? ==> v.value.maxTokens == config.maxTokens && v.value.refillRate == config.refillRate
  }

  /** A bucket keeps its parameters, and a new one gets those of its configuration. */
  lemma ParametersAt(s: Limiter, e: Event, id: BucketId, config: Config)
    requires IndexAgrees(s) && HasParameters(View(s, id), config)
    requires (id.Protocol? ==> id.protocol in s.configs) && ConfigFor(s, id) == config
    ensures HasParameters(View(Next(s, e), id), config)
  {
    TurnEffect(s, e, id);
    ApplyKeepsParameters(View(s, id), TurnOf(s, e, id), config);
  }

  lemma ApplyKeepsParameters(v: Option<Bucket>, t: BucketHistory.Turn, config: Config)
    requires HasParameters(v, config) && (t.Use? ==> t.config == config)
    ensures HasParameters(BucketHistory.Apply(v, t), config)
  {
  }

  /** A peer gets on one protocol what its configuration allows, as long as that is not changed. */
  lemma ProtocolRateBound(s: Limiter, es: seq<Event>, peer: Peer, protocol: Label, config: Config, start: real, length: real)
    requires IndexAgrees(s) && ProtocolParameters(s, protocol, config) && NotReconfigured(es, protocol)
    requires Timed(es) && CheckedWithin(es, start, start + length) && length >= 0.0
    requires config.maxTokens >= 0.0 && config.refillRate >= 0.0
    ensures BucketHistory.WithinBudget(Admitted(s, es, 0, |es|, Protocol(peer, protocol)), Removals(es, |es|, peer),
                                       config.maxTokens, config.refillRate, length)
  {
    var id := Protocol(peer, protocol);
    forall n | 0 <= n <= |es| ensures BucketHistory.Within(Views(s, es, id)[n], config.maxTokens, config.refillRate) {
      ProtocolParametersKept(s, es, n, protocol, config);
    }
    RateBound(s, es, id, config.maxTokens, config.refillRate, start, length);
  }

  // ---- Reconfiguration ----

  lemma {:induction false} ParametersKept(s: Limiter, es: seq<Event>, n: nat, peer: Peer, protocol: Label, config: Config)
    requires IndexAgrees(s) && NotReconfigured(es, protocol) && n <= |es|
    requires protocol in s.configs && s.configs[protocol] == config && HasParameters(View(s, Protocol(peer, protocol)), config)
    ensures var t := After(s, es, n);
      protocol in t.configs && t.configs[protocol] == config && HasParameters(View(t, Protocol(peer, protocol)), config)
  {
    if n != 0 {
      ParametersKept(s, es, n - 1, peer, protocol, config);
      IndexKept(s, es, n - 1);
      ParametersAt(After(s, es, n - 1), es[n - 1], Protocol(peer, protocol), config);
    }
  }

  /**
   A new configuration holds for every peer that has no bucket on the protocol yet: from then on it gets what the new
   configuration allows.
  */
  lemma ReconfiguredBound(
      s: Limiter, peer: Peer, protocol: Label, config: Config, es: seq<Event>, start: real, length: real)
    requires IndexAgrees(s) && (peer, protocol) !in s.protocolBuckets && NotReconfigured(es, protocol)
    requires Timed(es) && CheckedWithin(es, start, start + length) && length >= 0.0
    requires config.maxTokens >= 0.0 && config.refillRate >= 0.0
    ensures var t := Next(s, SetConfig(protocol, config));
      BucketHistory.WithinBudget(Admitted(t, es, 0, |es|, Protocol(peer, protocol)), Removals(es, |es|, peer),
                                 config.maxTokens, config.refillRate, length)
  {
    var t := Next(s, SetConfig(protocol, config));
    ParametersThroughout(t, peer, protocol, config, es);
    RateBound(t, es, Protocol(peer, protocol), config.maxTokens, config.refillRate, start, length);
  }

  lemma ParametersThroughout(t: Limiter, peer: Peer, protocol: Label, config: Config, es: seq<Event>)
    requires IndexAgrees(t) && (peer, protocol) !in t.protocolBuckets && NotReconfigured(es, protocol)
    requires protocol in t.configs && t.configs[protocol] == config
    ensures AlwaysWithin(t, es, Protocol(peer, protocol), config.maxTokens, config.refillRate)
  {
    forall n | 0 <= n <= |es|
      ensures BucketHistory.Within(Views(t, es, Protocol(peer, protocol))[n], config.maxTokens, config.refillRate)
    {
      ParametersKept(t, es, n, peer, protocol, config);
    }
  }

  /** At once, such a peer is short of a token exactly if the new burst is less than one; existing buckets keep theirs. */
  lemma ReconfiguredAtOnce(s: Limiter, peer: Peer, protocol: Label, config: Config, now: real)
    requires (peer, protocol) !in s.protocolBuckets
    ensures var t := Next(s, SetConfig(protocol, config));
      && (Verdict(t, peer, protocol, now) == ProtocolLimited <==> config.maxTokens < 1.0)
      && forall p, l :: l != protocol || (l in s.configs && (p, l) in s.protocolBuckets) ==>
           Verdict(t, p, l, now) == Verdict(s, p, l, now)
  {
  }

  /** Requests on a protocol that is not registered are always allowed, and leave the tables as they are. */
  lemma {:induction false} UnregisteredUnlimited(s: Limiter, es: seq<Event>, n: nat, peer: Peer, protocol: Label, now: real)
    requires protocol !in s.configs && NotReconfigured(es, protocol) && n <= |es|
    ensures var t := After(s, es, n);
      && protocol !in t.configs
      && Verdict(t, peer, protocol, now) == Allowed && Next(t, Check(peer, protocol, now)) == t
  {
    if n != 0 {
      UnregisteredUnlimited(s, es, n - 1, peer, protocol, now);
    }
  }

  // ---- Exactness ----

  /** Event `i` checked the bucket of `id` when it was full. */
  predicate FullAt(s: Limiter, es: seq<Event>, i: nat, id: BucketId)
    requires i < |es|
  {
    var t := After(s, es, i);
    Touches(t, es[i], id) && Current(t, id, es[i].now).tokens == Current(t, id, es[i].now).maxTokens
  }

  predicate NoRemoval(es: seq<Event>, i: nat, n: nat, peer: Peer)
    requires i <= n <= |es|
  {
    forall k :: i <= k < n ==> es[k] != RemovePeer(peer)
  }

  /** One more admission by event `n` would exceed the burst, plus the refill since event `i`. */
  predicate Overdraws(s: Limiter, es: seq<Event>, i: nat, n: nat, id: BucketId)
    requires i <= n < |es| && Touches(After(s, es, i), es[i], id) && Touches(After(s, es, n), es[n], id)
  {
    BucketHistory.ExceedsBudget(Admitted(s, es, i, n, id), Current(After(s, es, n), id, es[n].now), es[i].now, es[n].now)
  }

  /**
   Denials are exact. In every run from an unused limiter, a checked bucket denies event `n` exactly if, since some
   earlier check that found it full (with the peer not removed in between), one more admission would exceed the burst
   plus the refill. So a peer that stays within every such budget is never denied.
  */
  lemma {:induction false} DeniedIffOverBudget(s: Limiter, es: seq<Event>, n: nat, id: BucketId)
    requires Unused(s) && Timed(es) && n < |es| && Touches(After(s, es, n), es[n], id)
    ensures Verdict(After(s, es, n), es[n].peer, es[n].protocol, es[n].now) == DenialBy(id)
      <==> exists i :: 0 <= i <= n && FullAt(s, es, i, id) && NoRemoval(es, i, n, id.peer) && Overdraws(s, es, i, n, id)
  {
    IndexAlwaysAgrees(s, es, n);
    TurnEffect(After(s, es, n), es[n], id);
    HistoryIsHonest(s, es, id);
    BucketHistory.ShortIffOverdraws(History(s, es, id), n);
    ExactnessAgrees(s, es, n, id);
  }

  lemma UseAgrees(s: Limiter, es: seq<Event>, i: nat, id: BucketId)
    requires Unused(s) && i < |es|
    ensures var ts := History(s, es, id);
      && (ts[i].Use? <==> Touches(After(s, es, i), es[i], id))
      && (ts[i].Use? ==> ts[i].now == es[i].now
                         && BucketHistory.UsedBucket(ts, i) == Current(After(s, es, i), id, es[i].now))
      && (BucketHistory.FullAt(ts, i) <==> FullAt(s, es, i, id))
      && (ts[i].Remove? <==> es[i] == RemovePeer(id.peer))
  {
    IndexAlwaysAgrees(s, es, 0);
    LivesHistory(s, es, id);
    assert Views(s, es, id)[i] == BucketHistory.Life(None, History(s, es, id), i);
  }

  lemma ExactnessAgrees(s: Limiter, es: seq<Event>, n: nat, id: BucketId)
    requires Unused(s) && n < |es| && Touches(After(s, es, n), es[n], id)
    ensures var ts := History(s, es, id);
      ts[n].Use? && BucketHistory.UsedBucket(ts, n) == Current(After(s, es, n), id, es[n].now)
      && forall i :: 0 <= i <= n ==>
        (BucketHistory.FullAt(ts, i) <==> FullAt(s, es, i, id))
        && (BucketHistory.NoRemoval(ts, i, n) <==> NoRemoval(es, i, n, id.peer))
        && (FullAt(s, es, i, id) ==> (BucketHistory.Overdraws(ts, i, n) <==> Overdraws(s, es, i, n, id)))
  {
    var ts := History(s, es, id);
    UseAgrees(s, es, n, id);
    forall i | 0 <= i <= n
      ensures BucketHistory.FullAt(ts, i) <==> FullAt(s, es, i, id)
      ensures BucketHistory.NoRemoval(ts, i, n) <==> NoRemoval(es, i, n, id.peer)
      ensures FullAt(s, es, i, id) ==> (BucketHistory.Overdraws(ts, i, n) <==> Overdraws(s, es, i, n, id))
    {
      UseAgrees(s, es, i, id);
      NoRemovalAgrees(s, es, i, n, id);
      IndexAlwaysAgrees(s, es, 0);
      HistoryCounts(s, es, id, i, n);
    }
  }

  lemma NoRemovalAgrees(s: Limiter, es: seq<Event>, i: nat, n: nat, id: BucketId)
    requires Unused(s) && i <= n <= |es|
    ensures BucketHistory.NoRemoval(History(s, es, id), i, n) <==> NoRemoval(es, i, n, id.peer)
  {
    var ts := History(s, es, id);
    forall k | 0 <= k < |es| ensures ts[k].Remove? <==> es[k] == RemovePeer(id.peer) {
      UseAgrees(s, es, k, id);
    }
  }
}
