/** The per-peer, per-protocol limiter: state, its specification, and the class that updates it in place. */
module RateLimiter {
  import opened TokenBuckets

  type Peer = string
  type Label = string

  datatype Decision = Allowed | ProtocolLimited | GlobalLimited

  /** The tables of the limiter. `peerProtocols` is the inverted index used for cleanup. */
  datatype Limiter = Limiter(
    protocolBuckets: map<(Peer, Label), Bucket>,
    globalBuckets: map<Peer, Bucket>,
    configs: map<Label, Config>,
    globalConfig: Config,
    peerProtocols: map<Peer, seq<Label>>)

  function LabelsOf(index: map<Peer, seq<Label>>, peer: Peer): seq<Label> {
    if peer in index then index[peer] else []
  }

  /** The bucket a request at `now` is checked against, refilled: an existing one, or one created on the spot. */
  function ProtocolBucket(s: Limiter, peer: Peer, protocol: Label, now: real): Bucket
    requires protocol in s.configs
  {
    var key := (peer, protocol);
    Refilled(if key in s.protocolBuckets then s.protocolBuckets[key] else Fresh(s.configs[protocol], now), now)
  }

  function GlobalBucket(s: Limiter, peer: Peer, now: real): Bucket {
    Refilled(if peer in s.globalBuckets then s.globalBuckets[peer] else Fresh(s.globalConfig, now), now)
  }

  /** The tables once the entry for `peer` on `protocol` exists. */
  function ProtocolEntered(s: Limiter, peer: Peer, protocol: Label, now: real): Limiter
    requires protocol in s.configs
  {
    var key := (peer, protocol);
    if key in s.protocolBuckets then s else
    s.(protocolBuckets := s.protocolBuckets[key := Fresh(s.configs[protocol], now)],
       peerProtocols := s.peerProtocols[peer := LabelsOf(s.peerProtocols, peer) + [protocol]])
  }

  function GlobalEntered(s: Limiter, peer: Peer, now: real): Limiter {
    if peer in s.globalBuckets then s
    else s.(globalBuckets := s.globalBuckets[peer := Fresh(s.globalConfig, now)])
  }

  function WithProtocol(s: Limiter, peer: Peer, protocol: Label, b: Bucket): Limiter {
    s.(protocolBuckets := s.protocolBuckets[(peer, protocol) := b])
  }

  function WithGlobal(s: Limiter, peer: Peer, g: Bucket): Limiter {
    s.(globalBuckets := s.globalBuckets[peer := g])
  }

  /** The tables once the protocol bucket is refilled, less one token if `take`. */
  function ProtocolTaken(s: Limiter, peer: Peer, protocol: Label, now: real, take: bool): Limiter
    requires protocol in s.configs
  {
    var b := ProtocolBucket(s, peer, protocol, now);
    WithProtocol(ProtocolEntered(s, peer, protocol, now), peer, protocol, if take then Consumed(b) else b)
  }

  function GlobalTaken(s: Limiter, peer: Peer, now: real, take: bool): Limiter {
    var g := GlobalBucket(s, peer, now);
    WithGlobal(GlobalEntered(s, peer, now), peer, if take then Consumed(g) else g)
  }

  predicate HasProtocolToken(s: Limiter, peer: Peer, protocol: Label, now: real)
    requires protocol in s.configs
  {
    ProtocolBucket(s, peer, protocol, now).tokens >= 1.0
  }

  predicate HasGlobalToken(s: Limiter, peer: Peer, now: real) {
    GlobalBucket(s, peer, now).tokens >= 1.0
  }

  function Verdict(s: Limiter, peer: Peer, protocol: Label, now: real): Decision {
    if protocol !in s.configs then
      Allowed
    else if !HasProtocolToken(s, peer, protocol, now) then
      ProtocolLimited
    else if !HasGlobalToken(s, peer, now) then
      GlobalLimited
    else
      Allowed
  }

  /** The tables once a request that holds its protocol token is checked against the global bucket. */
  function GlobalChecked(s: Limiter, peer: Peer, protocol: Label, now: real): Limiter
    requires (peer, protocol) in s.protocolBuckets
  {
    var ok := HasGlobalToken(s, peer, now);
    var t := GlobalTaken(s, peer, now, ok);
    if ok then t
    else WithProtocol(t, peer, protocol, Refunded(t.protocolBuckets[(peer, protocol)]))
  }

  /** The tables after a request. */
  function Checked(s: Limiter, peer: Peer, protocol: Label, now: real): Limiter {
    if protocol !in s.configs then s else
    var ok := HasProtocolToken(s, peer, protocol, now);
    var t := ProtocolTaken(s, peer, protocol, now, ok);
    if ok then GlobalChecked(t, peer, protocol, now) else t
  }

  /** Drops the buckets of `peer` for the listed labels, one at a time. */
  function Dropped<B>(buckets: map<(Peer, Label), B>, peer: Peer, labels: seq<Label>): map<(Peer, Label), B> {
    if labels == [] then buckets
    else Dropped(buckets, peer, labels[..|labels| - 1]) - {(peer, labels[|labels| - 1])}
  }

  function PeerRemoved(s: Limiter, peer: Peer): Limiter {
    s.(globalBuckets := s.globalBuckets - {peer},
       protocolBuckets := Dropped(s.protocolBuckets, peer, LabelsOf(s.peerProtocols, peer)),
       peerProtocols := s.peerProtocols - {peer})
  }

  function Configured(s: Limiter, protocol: Label, config: Config): Limiter {
    s.(configs := s.configs[protocol := config])
  }

  /** A limiter that has seen no peer yet. */
  predicate Unused(s: Limiter) {
    s.protocolBuckets == map[] && s.globalBuckets == map[] && s.peerProtocols == map[]
  }

  // The table of default budgets, per 60 s.
  const DEFAULT_CONFIGS: map<Label, Config> := map[
    "direct_messages" := FromWindow(60, 60),
    "typing_indicators" := FromWindow(20, 60),
    "signaling" := FromWindow(30, 60),
    "identity" := FromWindow(10, 60),
    "offline_messages" := FromWindow(3, 60),
    "rename" := FromWindow(2, 60),
    "group_sync" := FromWindow(10, 60)]

  const DEFAULT_GLOBAL_CONFIG: Config := FromWindow(500, 60)

  class PeerRateLimiter {
    var protocolBuckets: map<(Peer, Label), TokenBucket>
    var globalBuckets: map<Peer, TokenBucket>
    var configs: map<Label, Config>
    const globalConfig: Config
    var peerProtocols: map<Peer, seq<Label>>

    /** The value of all the tables, buckets included; `Valid` ties it to the fields. */
    ghost var state: Limiter

    /** The buckets of all entries, and possibly of entries that were removed. */
    ghost var repr: set<TokenBucket>

    /** `state` shows every table; each bucket sits in the entry of its own id, so no two entries share an object. */
    ghost predicate Valid()
      reads this, repr
    {
      && state.configs == configs && state.globalConfig == globalConfig && state.peerProtocols == peerProtocols
      && state.protocolBuckets.Keys == protocolBuckets.Keys
      && state.globalBuckets.Keys == globalBuckets.Keys
      && (forall k :: k in protocolBuckets ==> protocolBuckets[k] in repr)
      && (forall p :: p in globalBuckets ==> globalBuckets[p] in repr)
      && (forall k :: k in protocolBuckets ==>
            protocolBuckets[k].id == Protocol(k.0, k.1) && protocolBuckets[k].Value() == state.protocolBuckets[k])
      && (forall p :: p in globalBuckets ==>
            globalBuckets[p].id == Global(p) && globalBuckets[p].Value() == state.globalBuckets[p])
    }

    constructor ()
      ensures Valid() && Unused(state)
      ensures state.configs == DEFAULT_CONFIGS && state.globalConfig == DEFAULT_GLOBAL_CONFIG
    {
      protocolBuckets, globalBuckets, peerProtocols, repr := map[], map[], map[], {};
      configs := DEFAULT_CONFIGS;
      globalConfig := DEFAULT_GLOBAL_CONFIG;
      state := Limiter(map[], map[], DEFAULT_CONFIGS, DEFAULT_GLOBAL_CONFIG, map[]);
    }

    constructor WithGlobalConfig(globalConfig: Config)
      ensures Valid() && Unused(state)
      ensures state.configs == DEFAULT_CONFIGS && state.globalConfig == globalConfig
    {
      protocolBuckets, globalBuckets, peerProtocols, repr := map[], map[], map[], {};
      configs := DEFAULT_CONFIGS;
      this.globalConfig := globalConfig;
      state := Limiter(map[], map[], DEFAULT_CONFIGS, globalConfig, map[]);
    }

    method SetProtocolConfig(protocol: Label, config: Config)
      requires Valid()
      modifies this`configs, this`state
      ensures Valid() && state == Configured(old(state), protocol, config)
    {
      configs := configs[protocol := config];
      state := Configured(state, protocol, config);
    }

    /** The entry of `peer` on `protocol`; a new one is recorded in the index for cleanup. */
    method ProtocolEntry(peer: Peer, protocol: Label, now: real) returns (bucket: TokenBucket)
      requires Valid() && protocol in configs
      modifies this`protocolBuckets, this`peerProtocols, this`state, this`repr
      ensures Valid() && fresh(repr - old(repr))
      ensures (peer, protocol) in protocolBuckets && bucket == protocolBuckets[(peer, protocol)]
      ensures state == ProtocolEntered(old(state), peer, protocol, now)
    {
      if (peer, protocol) !in protocolBuckets {
        peerProtocols := peerProtocols[peer := LabelsOf(peerProtocols, peer) + [protocol]];
        var created := new TokenBucket(configs[protocol], now, Protocol(peer, protocol));
        protocolBuckets := protocolBuckets[(peer, protocol) := created];
        repr := repr + {created};
      }
      bucket := protocolBuckets[(peer, protocol)];
      state := ProtocolEntered(state, peer, protocol, now);
    }

    method GlobalEntry(peer: Peer, now: real) returns (bucket: TokenBucket)
      requires Valid()
      modifies this`globalBuckets, this`state, this`repr
      ensures Valid() && fresh(repr - old(repr))
      ensures peer in globalBuckets && bucket == globalBuckets[peer]
      ensures state == GlobalEntered(old(state), peer, now)
    {
      if peer !in globalBuckets {
        var created := new TokenBucket(globalConfig, now, Global(peer));
        globalBuckets := globalBuckets[peer := created];
        repr := repr + {created};
      }
      bucket := globalBuckets[peer];
      state := GlobalEntered(state, peer, now);
    }

    /** Takes a token from the bucket of `peer` on `protocol`, if there is one. */
    method TakeProtocol(peer: Peer, protocol: Label, now: real) returns (bucket: TokenBucket, ok: bool)
      requires Valid() && protocol in configs
      modifies this`protocolBuckets, this`peerProtocols, this`state, this`repr, repr
      ensures Valid() && fresh(repr - old(repr))
      ensures (peer, protocol) in protocolBuckets && bucket == protocolBuckets[(peer, protocol)]
      ensures ok <==> HasProtocolToken(old(state), peer, protocol, now)
      ensures state == ProtocolTaken(old(state), peer, protocol, now, ok)
    {
      bucket := ProtocolEntry(peer, protocol, now);
      ok := ConsumeProtocol(peer, protocol, bucket, now);
    }

    method ConsumeProtocol(peer: Peer, protocol: Label, bucket: TokenBucket, now: real) returns (ok: bool)
      requires Valid() && (peer, protocol) in protocolBuckets && bucket == protocolBuckets[(peer, protocol)]
      modifies this`state, bucket
      ensures Valid()
      ensures var b := Refilled(old(state).protocolBuckets[(peer, protocol)], now);
        && (ok <==> b.tokens >= 1.0)
        && state == WithProtocol(old(state), peer, protocol, if ok then Consumed(b) else b)
    {
      ok := bucket.TryConsume(now);
      state := WithProtocol(state, peer, protocol, bucket.Value());
    }

    method TakeGlobal(peer: Peer, now: real) returns (ok: bool)
      requires Valid()
      modifies this`globalBuckets, this`state, this`repr, repr
      ensures Valid() && fresh(repr - old(repr))
      ensures ok <==> HasGlobalToken(old(state), peer, now)
      ensures state == GlobalTaken(old(state), peer, now, ok)
    {
      var bucket := GlobalEntry(peer, now);
      ok := ConsumeGlobal(peer, bucket, now);
    }

    method ConsumeGlobal(peer: Peer, bucket: TokenBucket, now: real) returns (ok: bool)
      requires Valid() && peer in globalBuckets && bucket == globalBuckets[peer]
      modifies this`state, bucket
      ensures Valid()
      ensures var g := Refilled(old(state).globalBuckets[peer], now);
        && (ok <==> g.tokens >= 1.0)
        && state == WithGlobal(old(state), peer, if ok then Consumed(g) else g)
    {
      ok := bucket.TryConsume(now);
      state := WithGlobal(state, peer, bucket.Value());
    }

    method GiveBack(peer: Peer, protocol: Label, bucket: TokenBucket)
      requires Valid() && (peer, protocol) in protocolBuckets && bucket == protocolBuckets[(peer, protocol)]
      modifies this`state, bucket
      ensures Valid()
      ensures state == WithProtocol(old(state), peer, protocol, Refunded(old(state).protocolBuckets[(peer, protocol)]))
    {
      bucket.Refund();
      state := WithProtocol(state, peer, protocol, bucket.Value());
    }

    /** The global check of a request that holds its protocol token; the token is given back if it fails. */
    method CheckGlobal(peer: Peer, protocol: Label, bucket: TokenBucket, now: real) returns (ok: bool)
      requires Valid() && (peer, protocol) in protocolBuckets && bucket == protocolBuckets[(peer, protocol)]
      modifies this`globalBuckets, this`state, this`repr, repr
      ensures Valid() && fresh(repr - old(repr))
      ensures ok <==> HasGlobalToken(old(state), peer, now)
      ensures state == GlobalChecked(old(state), peer, protocol, now)
    {
      ok := TakeGlobal(peer, now);
      if !ok {
        GiveBack(peer, protocol, bucket);
      }
    }

    method Check(peer: Peer, protocol: Label, now: real) returns (d: Decision)
      requires Valid()
      modifies this, repr
      ensures Valid() && fresh(repr - old(repr))
      ensures d == Verdict(old(state), peer, protocol, now)
      ensures state == Checked(old(state), peer, protocol, now)
    {
      if protocol !in configs {
        return Allowed;
      }
      var bucket, ok := TakeProtocol(peer, protocol, now);
      CheckDecides(old(state), peer, protocol, now);
      if !ok {
        return ProtocolLimited;
      }
      ok := CheckGlobal(peer, protocol, bucket, now);
      d := if ok then Allowed else GlobalLimited;
    }

    method RemovePeer(peer: Peer)
      requires Valid()
      modifies this
      ensures Valid() && repr == old(repr)
      ensures state == PeerRemoved(old(state), peer)
    {
      globalBuckets := globalBuckets - {peer};
      state := state.(globalBuckets := state.globalBuckets - {peer});
      if peer in peerProtocols {
        RemoveProtocols(peer);
      }
    }

    method RemoveProtocols(peer: Peer)
      requires Valid() && peer in peerProtocols
      modifies this`protocolBuckets, this`peerProtocols, this`state
      ensures Valid()
      ensures state == old(state).(protocolBuckets := Dropped(old(state).protocolBuckets, peer, old(peerProtocols)[peer]),
                                   peerProtocols := old(peerProtocols) - {peer})
    {
      var labels := peerProtocols[peer];
      peerProtocols := peerProtocols - {peer};
      DropProtocols(peer, labels);
      DroppedKeys(old(protocolBuckets), state.protocolBuckets, peer, labels);
      state := state.(protocolBuckets := Dropped(state.protocolBuckets, peer, labels), peerProtocols := peerProtocols);
    }

    /** The loop over the listed labels. */
    method DropProtocols(peer: Peer, labels: seq<Label>)
      modifies this`protocolBuckets
      ensures protocolBuckets == Dropped(old(protocolBuckets), peer, labels)
    {
      for i := 0 to |labels|
        invariant protocolBuckets == Dropped(old(protocolBuckets), peer, labels[..i])
      {
        assert labels[..i + 1][..i] == labels[..i];
        protocolBuckets := protocolBuckets - {(peer, labels[i])};
      }
      assert labels[..|labels|] == labels;
    }
  }

  /** The two checks of a request, one after the other, on the tables as they are then. */
  lemma CheckDecides(s: Limiter, peer: Peer, protocol: Label, now: real)
    requires protocol in s.configs
    ensures var ok := HasProtocolToken(s, peer, protocol, now);
      var t := ProtocolTaken(s, peer, protocol, now, ok);
      && (!ok ==> Checked(s, peer, protocol, now) == t && Verdict(s, peer, protocol, now) == ProtocolLimited)
      && (ok ==>
            && Checked(s, peer, protocol, now) == GlobalChecked(t, peer, protocol, now)
            && Verdict(s, peer, protocol, now) == if HasGlobalToken(t, peer, now) then Allowed else GlobalLimited)
  {
  }

  /** Dropping entries depends on the keys alone, and keeps the values of the others. */
  lemma DroppedKeys<A, B>(a: map<(Peer, Label), A>, b: map<(Peer, Label), B>, peer: Peer, labels: seq<Label>)
    requires a.Keys == b.Keys
    ensures Dropped(a, peer, labels).Keys == Dropped(b, peer, labels).Keys <= a.Keys
    ensures forall k :: k in Dropped(a, peer, labels) ==> Dropped(a, peer, labels)[k] == a[k]
    ensures forall k :: k in Dropped(b, peer, labels) ==> Dropped(b, peer, labels)[k] == b[k]
  {
    if labels != [] {
      DroppedKeys(a, b, peer, labels[..|labels| - 1]);
    }
  }
}
