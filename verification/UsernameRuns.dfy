/** What the registry keeps: that its two maps are inverse, and that display names lead back to their DIDs. */
module UsernameRuns {
  import opened Wrappers
  import opened Decimal
  import opened Usernames

  datatype Op =
    | RegisterLocal(username: string, did: Did, draws: seq<U32>)
    | RegisterWith(username: string, discriminator: U32, did: Did)
    | CacheMapping(username: string, discriminator: U32, did: Did)

  function Next(r: Registry, op: Op): Registry {
    match op
    case RegisterLocal(username, did, draws) => LocallyRegistered(r, username, did, draws).0
    case RegisterWith(username, d, did) => RegisteredWith(r, username, d, did).0
    case CacheMapping(username, d, did) => Mapped(r, username, d, did)
  }

  function After(r: Registry, ops: seq<Op>): Registry {
    if ops == [] then r else Next(After(r, ops[..|ops| - 1]), ops[|ops| - 1])
  }

  /** Following either map and then the other leads back. */
  ghost predicate Inverse(r: Registry) {
    && (forall did :: did in r.reverse ==> KeyOf(r.reverse[did]) in r.local && r.local[KeyOf(r.reverse[did])] == did)
    && (forall key :: key in r.local ==> r.local[key] in r.reverse && KeyOf(r.reverse[r.local[key]]) == key)
  }

  lemma EvictionKeepsInverse(r: Registry, did: Did)
    requires Inverse(r)
    ensures Inverse(Evicted(r, did)) && did !in Evicted(r, did).reverse
    ensures forall key :: key in Evicted(r, did).local <==> key in r.local && r.local[key] != did
  {
  }

  /** A new entry for a DID without a name keeps the maps inverse exactly if its key is free. */
  lemma EntryKeepsInverse(r: Registry, name: string, d: U32, did: Did)
    requires Inverse(r) && did !in r.reverse
    ensures Inverse(Entered(r, name, d, did)) <==> CompoundKey(name, d) !in r.local
  {
    var key, t := CompoundKey(name, d), Entered(r, name, d, did);
    if key in r.local {
      var other := r.local[key];
      assert other in t.reverse && KeyOf(t.reverse[other]) == key;
    } else {
      assert KeyOf(t.reverse[did]) == key;
      forall other | other in t.reverse && other != did
        ensures KeyOf(t.reverse[other]) in t.local && t.local[KeyOf(t.reverse[other])] == other
      {
        assert other in r.reverse;
      }
    }
  }

  lemma FirstFreeIsFree(local: map<string, Did>, name: string, draws: seq<U32>)
    ensures match FirstFree(local, name, draws)
      case Some(d) => d in draws && CompoundKey(name, d) !in local
      case None => forall d :: d in draws ==> CompoundKey(name, d) in local
  {
    if draws != [] {
      assert draws == [draws[0]] + draws[1..];
      FirstFreeIsFree(local, name, draws[1..]);
    }
  }

  predicate Available(r: Registry, name: string, d: U32, did: Did) {
    CompoundKey(name, d) in r.local ==> r.local[CompoundKey(name, d)] == did
  }

  /**
   Registering locally keeps the maps inverse, whether it succeeds or not. With a valid name it succeeds exactly if one
   of the draws is free once the old name of the DID is gone; when it fails for want of one, that old name is lost.
  */
  lemma RegisterLocalKeepsInverse(r: Registry, username: string, did: Did, draws: seq<U32>)
    requires Inverse(r)
    ensures var (t, result) := LocallyRegistered(r, username, did, draws);
      && Inverse(t)
      && (Validate(username).Some? ==> t == r && result == Err(Validate(username).value))
      && (Validate(username).None? ==>
            && (result.Ok? <==> exists d :: d in draws && Available(r, Lower(username), d, did))
            && (result.Ok? ==> t.reverse == r.reverse[did := result.value] && result.value.0 == Lower(username)
                               && result.value.1 in draws)
            && (result.Err? ==> t.reverse == r.reverse - {did}))
  {
    if Validate(username).None? {
      var name := Lower(username);
      EvictionKeepsInverse(r, did);
      FirstFreeIsFree(Evicted(r, did).local, name, draws);
      match FirstFree(Evicted(r, did).local, name, draws)
      case Some(d) =>
        EntryKeepsInverse(Evicted(r, did), name, d, did);
      case None =>
    }
  }

  /** With a given discriminator: the maps stay inverse exactly if the key is taken (an error) or the DID has no name. */
  lemma RegisterWithKeepsInverse(r: Registry, username: string, d: U32, did: Did)
    requires Inverse(r)
    ensures Inverse(RegisteredWith(r, username, d, did).0)
      <==> CompoundKey(Lower(username), d) in r.local || did !in r.reverse
    ensures var (t, result) := RegisteredWith(r, username, d, did);
      if LookupExact(r, username, d).Some? then result.Err? && t == r
      else result.Ok? && LookupExact(t, username, d) == Some(did) && t.reverse == r.reverse[did := (Lower(username), d)]
  {
    var name := Lower(username);
    if CompoundKey(name, d) !in r.local {
      if did in r.reverse {
        var t, stale := Entered(r, name, d, did), KeyOf(r.reverse[did]);
        assert stale in t.local && t.local[stale] == did && KeyOf(t.reverse[did]) != stale;
      } else {
        EntryKeepsInverse(r, name, d, did);
      }
    }
  }

  /** Caching a mapping: the maps stay inverse exactly if the key is free or already that of the DID. */
  lemma CacheMappingKeepsInverse(r: Registry, username: string, d: U32, did: Did)
    requires Inverse(r)
    ensures Inverse(Mapped(r, username, d, did))
      <==> Available(r, Lower(username), d, did)
    ensures var t := Mapped(r, username, d, did);
      LookupExact(t, username, d) == Some(did) && t.reverse == r.reverse[did := (Lower(username), d)]
  {
    EvictionKeepsInverse(r, did);
    EntryKeepsInverse(Evicted(r, did), Lower(username), d, did);
  }

  /** Names on record are lower-cased, do not start with `@`, and have a discriminator in range. */
  predicate Named(r: Registry) {
    forall did :: did in r.reverse ==> ProperName(r.reverse[did].0) && ValidDiscriminator(r.reverse[did].1)
  }

  predicate ProperName(name: string) {
    Lower(name) == name && (name == "" || name[0] != '@')
  }

  /** The calls under which the registry promises its invariants. */
  predicate Proper(r: Registry, op: Op) {
    match op
    case RegisterLocal(_, _, draws) => forall d :: d in draws ==> ValidDiscriminator(d)
    case RegisterWith(username, d, did) =>
      ValidDiscriminator(d) && (username == "" || username[0] != '@')
      && (did in r.reverse ==> CompoundKey(Lower(username), d) in r.local)
    case CacheMapping(username, d, did) =>
      ValidDiscriminator(d) && (username == "" || username[0] != '@')
      && Available(r, Lower(username), d, did)
  }

  predicate ProperRun(r: Registry, ops: seq<Op>) {
    ops != [] ==> ProperRun(r, ops[..|ops| - 1]) && Proper(After(r, ops[..|ops| - 1]), ops[|ops| - 1])
  }

  /** In every run of proper calls the two maps are inverse and the names on record are proper. */
  lemma {:induction false} RunsKeepInverse(ops: seq<Op>)
    requires ProperRun(Registry(map[], map[]), ops)
    ensures Inverse(After(Registry(map[], map[]), ops)) && Named(After(Registry(map[], map[]), ops))
  {
    if ops != [] {
      var init, op := ops[..|ops| - 1], ops[|ops| - 1];
      RunsKeepInverse(init);
      StepKeepsInverse(After(Registry(map[], map[]), init), op);
      StepKeepsNamed(After(Registry(map[], map[]), init), op);
    }
  }

  lemma StepKeepsInverse(r: Registry, op: Op)
    requires Inverse(r) && Proper(r, op)
    ensures Inverse(Next(r, op))
  {
    match op
    case RegisterLocal(username, did, draws) =>
      RegisterLocalKeepsInverse(r, username, did, draws);
    case RegisterWith(username, d, did) =>
      RegisterWithKeepsInverse(r, username, d, did);
    case CacheMapping(username, d, did) =>
      CacheMappingKeepsInverse(r, username, d, did);
  }

  lemma StepKeepsNamed(r: Registry, op: Op)
    requires Named(r) && Proper(r, op)
    ensures Named(Next(r, op))
  {
    if op.RegisterLocal? && Validate(op.username).None? {
      FirstFreeIsFree(Evicted(r, op.did).local, Lower(op.username), op.draws);
    }
    LowerIdempotent(op.username);
  }

  /** The display name of a DID, parsed and looked up, leads back to the DID. */
  lemma DisplayNameRoundTrip(ops: seq<Op>, did: Did)
    requires ProperRun(Registry(map[], map[]), ops) && did in After(Registry(map[], map[]), ops).reverse
    ensures var r := After(Registry(map[], map[]), ops);
      var parsed := ParseUsername(DisplayName(r, did).value);
      parsed == Some(r.reverse[did]) && LookupExact(r, parsed.value.0, parsed.value.1) == Some(did)
  {
    RunsKeepInverse(ops);
    var r := After(Registry(map[], map[]), ops);
    ParseOfFormat(r.reverse[did].0, r.reverse[did].1);
  }

  /** Two DIDs never share a display name. */
  lemma DisplayNamesDistinct(ops: seq<Op>, did: Did, did': Did)
    requires ProperRun(Registry(map[], map[]), ops) && did != did'
    requires did in After(Registry(map[], map[]), ops).reverse && did' in After(Registry(map[], map[]), ops).reverse
    ensures DisplayName(After(Registry(map[], map[]), ops), did) != DisplayName(After(Registry(map[], map[]), ops), did')
  {
    DisplayNameRoundTrip(ops, did);
    DisplayNameRoundTrip(ops, did');
  }

  /** A mapping that takes over a key of another DID breaks the registry: that DID still displays the name. */
  lemma TakeoverBreaksInverse()
    ensures var r := After(Registry(map[], map[]), [CacheMapping("alice", 1, "did:a"), CacheMapping("alice", 1, "did:b")]);
      DisplayName(r, "did:a") == DisplayName(r, "did:b") != None && LookupExact(r, "alice", 1) == Some("did:b")
  {
    var first, second := CacheMapping("alice", 1, "did:a"), CacheMapping("alice", 1, "did:b");
    var r0 := Registry(map[], map[]);
    assert [first, second][..1] == [first] && [first][..0] == [];
    assert After(r0, [first]) == Next(r0, first);
  }
}
