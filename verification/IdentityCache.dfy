/**
 The three-layer identity cache: two maps in memory with short lifetimes, and a disk table with a long one.

 Instants are in nanoseconds. The disk table works in whole seconds of the wall clock; `offset` relates the two clocks,
 which advance together. Storage operations succeed. Whether the signature of a document verifies is a parameter.
*/
module IdentityCache {
  import opened Wrappers

  type Key = string
  datatype Did = Did(id: string, document: string)

  const SECOND: nat := 1_000_000_000
  const L1_TTL: nat := 5 * 60 * SECOND
  const L2_TTL: nat := 60 * 60 * SECOND
  const L3_TTL_SECONDS: nat := 24 * 60 * 60

  function Wall(now: nat, offset: nat): nat {
    (now + offset) / SECOND
  }

  datatype Entry = Entry(value: Did, expiresAt: nat)

  type Layer = map<Key, Entry>

  // ---- Specification ----

  /** An entry in memory lives up to and including its expiry instant; an entry on disk expires at its second. */
  predicate Expired(e: Entry, now: nat) {
    now > e.expiresAt
  }

  predicate DiskExpired(e: Entry, wall: nat) {
    wall >= e.expiresAt
  }

  function Fetch(layer: Layer, key: Key, now: nat): Option<Did> {
    if key in layer && !Expired(layer[key], now) then Some(layer[key].value) else None
  }

  function FetchDisk(layer: Layer, key: Key, wall: nat): Option<Did> {
    if key in layer && !DiskExpired(layer[key], wall) then Some(layer[key].value) else None
  }

  datatype Cache = Cache(l1: Layer, l2: Layer, l3: Layer)

  function Got(c: Cache, key: Key, now: nat, wall: nat): (Cache, Option<Did>) {
    if Fetch(c.l1, key, now).Some? then
      (c, Fetch(c.l1, key, now))
    else if Fetch(c.l2, key, now).Some? then
      var v := Fetch(c.l2, key, now).value;
      (c.(l1 := c.l1[key := Entry(v, now + L1_TTL)]), Some(v))
    else if FetchDisk(c.l3, key, wall).Some? then
      var v := FetchDisk(c.l3, key, wall).value;
      (c.(l1 := c.l1[key := Entry(v, now + L1_TTL)], l2 := c.l2[key := Entry(v, now + L2_TTL)]), Some(v))
    else
      (c.(l3 := c.l3 - {key}), None)
  }

  function Inserted(c: Cache, key: Key, value: Did, verified: bool, now: nat, wall: nat): Cache {
    if !verified then c else
    Cache(c.l1[key := Entry(value, now + L1_TTL)], c.l2[key := Entry(value, now + L2_TTL)],
          c.l3[key := Entry(value, wall + L3_TTL_SECONDS)])
  }

  function Removed(c: Cache, key: Key): Cache {
    Cache(c.l1 - {key}, c.l2 - {key}, c.l3 - {key})
  }

  function Evicted(c: Cache, now: nat, wall: nat): Cache {
    Cache(map k | k in c.l1 && !Expired(c.l1[k], now) :: c.l1[k],
          map k | k in c.l2 && !Expired(c.l2[k], now) :: c.l2[k],
          map k | k in c.l3 && !DiskExpired(c.l3[k], wall) :: c.l3[k])
  }

  /** A restart keeps the disk only. */
  function Restarted(c: Cache): Cache {
    Cache(map[], map[], c.l3)
  }

  // ---- The layers ----

  /** A layer in memory; both the hot and the warm one. */
  class MemoryLayer {
    var data: Layer
    const ttl: nat

    constructor (ttl: nat)
      ensures data == map[] && this.ttl == ttl
    {
      data := map[];
      this.ttl := ttl;
    }

    method Get(key: Key, now: nat) returns (r: Option<Did>)
      ensures r == Fetch(data, key, now)
    {
      r := None;
      if key in data && !Expired(data[key], now) {
        r := Some(data[key].value);
      }
    }

    method Insert(key: Key, value: Did, now: nat)
      modifies this
      ensures data == old(data)[key := Entry(value, now + ttl)]
    {
      data := data[key := Entry(value, now + ttl)];
    }

    method EvictExpired(now: nat)
      modifies this
      ensures data == map k | k in old(data) && !Expired(old(data)[k], now) :: old(data)[k]
    {
      data := map k | k in data && !Expired(data[k], now) :: data[k];
    }
  }

  class DiskLayer {
    var db: Layer
    const ttlSeconds: nat

    constructor (db: Layer, ttlSeconds: nat)
      ensures this.db == db && this.ttlSeconds == ttlSeconds
    {
      this.db := db;
      this.ttlSeconds := ttlSeconds;
    }

    /** An expired entry is removed on the way. */
    method Get(key: Key, wall: nat) returns (r: Option<Did>)
      modifies this
      ensures r == FetchDisk(old(db), key, wall)
      ensures db == if r.Some? then old(db) else old(db) - {key}
    {
      r := None;
      if key in db {
        if wall < db[key].expiresAt {
          r := Some(db[key].value);
        } else {
          db := db - {key};
        }
      }
    }

    method Insert(key: Key, value: Did, wall: nat)
      modifies this
      ensures db == old(db)[key := Entry(value, wall + ttlSeconds)]
    {
      db := db[key := Entry(value, wall + ttlSeconds)];
    }

    method ExpiredKeys(wall: nat) returns (keys: seq<Key>)
      ensures forall k :: k in keys <==> k in db && DiskExpired(db[k], wall)
    {
      keys := [];
      var rest := db.Keys;
      while rest != {}
        invariant rest <= db.Keys
        invariant forall k :: k in keys <==> k in db.Keys - rest && DiskExpired(db[k], wall)
        decreases |rest|
      {
        var k :| k in rest;
        rest := rest - {k};
        if DiskExpired(db[k], wall) {
          keys := keys + [k];
        }
      }
    }

    /** Collects the expired keys, then deletes them. */
    method EvictExpired(wall: nat)
      modifies this
      ensures db == map k | k in old(db) && !DiskExpired(old(db)[k], wall) :: old(db)[k]
    {
      var toDelete := ExpiredKeys(wall);
      for i := 0 to |toDelete|
        invariant forall k :: k in db <==> k in old(db) && k !in toDelete[..i]
        invariant forall k :: k in db ==> db[k] == old(db)[k]
      {
        assert toDelete[..i + 1] == toDelete[..i] + [toDelete[i]];
        db := db - {toDelete[i]};
      }
      assert toDelete[..|toDelete|] == toDelete;
    }
  }

  class MultiLayerCache {
    const l1: MemoryLayer
    const l2: MemoryLayer
    const l3: DiskLayer

    ghost predicate Valid() {
      l1 != l2 && l1.ttl == L1_TTL && l2.ttl == L2_TTL && l3.ttlSeconds == L3_TTL_SECONDS
    }

    ghost function State(): Cache
      reads l1, l2, l3
    {
      Cache(l1.data, l2.data, l3.db)
    }

    /** Opens the cache on an existing disk table. */
    constructor (db: Layer)
      ensures Valid() && fresh(l1) && fresh(l2) && fresh(l3) && State() == Cache(map[], map[], db)
    {
      l1 := new MemoryLayer(L1_TTL);
      l2 := new MemoryLayer(L2_TTL);
      l3 := new DiskLayer(db, L3_TTL_SECONDS);
    }

    method Get(key: Key, now: nat, wall: nat) returns (r: Option<Did>)
      requires Valid()
      modifies l1, l2, l3
      ensures (State(), r) == Got(old(State()), key, now, wall)
    {
      r := l1.Get(key, now);
      if r.Some? {
        return;
      }
      r := l2.Get(key, now);
      if r.Some? {
        l1.Insert(key, r.value, now);
        return;
      }
      r := l3.Get(key, wall);
      if r.Some? {
        l2.Insert(key, r.value, now);
        l1.Insert(key, r.value, now);
      }
    }

    /** Unsigned or tampered documents are rejected. */
    method Insert(key: Key, value: Did, verified: bool, now: nat, wall: nat) returns (ok: bool)
      requires Valid()
      modifies l1, l2, l3
      ensures ok == verified && State() == Inserted(old(State()), key, value, verified, now, wall)
    {
      if !verified {
        return false;
      }
      l1.Insert(key, value, now);
      l2.Insert(key, value, now);
      l3.Insert(key, value, wall);
      ok := true;
    }

    method Remove(key: Key)
      requires Valid()
      modifies l1, l2, l3
      ensures State() == Removed(old(State()), key)
    {
      l1.data := l1.data - {key};
      l2.data := l2.data - {key};
      l3.db := l3.db - {key};
    }

    method EvictExpired(now: nat, wall: nat)
      requires Valid()
      modifies l1, l2, l3
      ensures State() == Evicted(old(State()), now, wall)
    {
      l1.EvictExpired(now);
      l2.EvictExpired(now);
      l3.EvictExpired(wall);
    }
  }
}
