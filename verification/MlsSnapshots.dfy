/**
 Snapshots of the MLS state: the key-value store of the library as hex strings, and the ids of the groups.

 The store has one entry per group, one for the signature key pair, and one for each key package that was generated and
 not used; it may have any others. The library writes every change of a group through to it, and looks key packages up in
 it. How keys and values are encoded is a parameter. The JSON text around a snapshot is not part of this model.
*/
module MlsSnapshots {
  import opened Wrappers
  import opened Hex
  import opened MlsGroups
  import opened MlsSteps
  import opened MlsAccounts

  type Values = map<Bytes, Bytes>

  datatype Codec = Codec(
    groupKey: GroupId -> Bytes, encode: Group -> Bytes, decode: Bytes -> Option<Group>,
    packageKey: KeyPackage -> Bytes, package: KeyPackage -> Bytes, packageOf: Bytes -> Option<KeyPackage>,
    keypairKey: Bytes, keypair: Bytes)

  /** Keys are distinct, and a stored group can be loaded. `packageOf` tells whose private part is under a key. */
  ghost predicate Lawful(codec: Codec) {
    && (forall a: GroupId, b: GroupId :: codec.groupKey(a) == codec.groupKey(b) ==> a == b)
    && (forall a: GroupId :: codec.groupKey(a) != codec.keypairKey && codec.packageOf(codec.groupKey(a)) == None)
    && codec.packageOf(codec.keypairKey) == None
    && (forall p: KeyPackage :: codec.packageOf(codec.packageKey(p)) == Some(p))
    && (forall k: Bytes :: codec.packageOf(k).Some? ==> k == codec.packageKey(codec.packageOf(k).value))
    && (forall g: Group :: codec.decode(codec.encode(g)) == Some(g))
  }

  /** The store holds the key pair and the handler's groups, and no others; whatever else it holds does not matter. */
  ghost predicate StoreCovers(codec: Codec, groups: Groups, values: Values) {
    && codec.keypairKey in values && values[codec.keypairKey] == codec.keypair
    && (forall id :: id in groups ==> Stores(codec, values, id, groups[id]))
    && (forall id: GroupId :: codec.groupKey(id) in values ==> id in groups)
  }

  predicate Stores(codec: Codec, values: Values, id: GroupId, g: Group) {
    codec.groupKey(id) in values && values[codec.groupKey(id)] == codec.encode(g)
  }

  /** The key packages whose private part is in the store. */
  ghost function PackagesIn(codec: Codec, values: Values): set<KeyPackage> {
    set k | k in values && codec.packageOf(k).Some? :: codec.packageOf(k).value
  }

  lemma PackageStoredIff(codec: Codec, values: Values, p: KeyPackage)
    requires Lawful(codec)
    ensures p in PackagesIn(codec, values) <==> codec.packageKey(p) in values
  {
    if codec.packageKey(p) in values {
      assert codec.packageOf(codec.packageKey(p)).value == p;
    }
  }

  /** Writing one group through keeps the agreement. */
  lemma PutCovers(codec: Codec, groups: Groups, values: Values, id: GroupId, g: Group)
    requires Lawful(codec) && StoreCovers(codec, groups, values)
    ensures var stored := values[codec.groupKey(id) := codec.encode(g)];
      StoreCovers(codec, groups[id := g], stored) && PackagesIn(codec, stored) == PackagesIn(codec, values)
  {
    var after, stored := groups[id := g], values[codec.groupKey(id) := codec.encode(g)];
    forall i | i in after ensures Stores(codec, stored, i, after[i]) {
      assert i != id ==> Stores(codec, values, i, groups[i]);
    }
    forall p ensures p in PackagesIn(codec, stored) <==> p in PackagesIn(codec, values) {
      PackageStoredIff(codec, values, p);
      PackageStoredIff(codec, stored, p);
    }
  }

  lemma RemoveCovers(codec: Codec, groups: Groups, values: Values, id: GroupId)
    requires Lawful(codec) && StoreCovers(codec, groups, values)
    ensures var stored := values - {codec.groupKey(id)};
      StoreCovers(codec, groups - {id}, stored) && PackagesIn(codec, stored) == PackagesIn(codec, values)
  {
    var after, stored := groups - {id}, values - {codec.groupKey(id)};
    forall i | i in after ensures Stores(codec, stored, i, after[i]) {
      assert Stores(codec, values, i, groups[i]);
    }
    forall p ensures p in PackagesIn(codec, stored) <==> p in PackagesIn(codec, values) {
      PackageStoredIff(codec, values, p);
      PackageStoredIff(codec, stored, p);
    }
  }

  /** A new key package, or one that is used up, changes nothing but itself. */
  lemma PackageCovers(codec: Codec, groups: Groups, values: Values, p: KeyPackage)
    requires Lawful(codec) && StoreCovers(codec, groups, values)
    ensures var stored := values[codec.packageKey(p) := codec.package(p)];
      StoreCovers(codec, groups, stored) && PackagesIn(codec, stored) == PackagesIn(codec, values) + {p}
    ensures var stored := values - {codec.packageKey(p)};
      StoreCovers(codec, groups, stored) && PackagesIn(codec, stored) == PackagesIn(codec, values) - {p}
  {
    var added, removed := values[codec.packageKey(p) := codec.package(p)], values - {codec.packageKey(p)};
    assert forall id: GroupId :: codec.groupKey(id) != codec.packageKey(p);
    assert codec.keypairKey != codec.packageKey(p);
    forall i | i in groups ensures Stores(codec, added, i, groups[i]) && Stores(codec, removed, i, groups[i]) {
      assert Stores(codec, values, i, groups[i]);
    }
    forall q
      ensures q in PackagesIn(codec, added) <==> q in PackagesIn(codec, values) || q == p
      ensures q in PackagesIn(codec, removed) <==> q in PackagesIn(codec, values) && q != p
    {
      PackageStoredIff(codec, values, q);
      PackageStoredIff(codec, added, q);
      PackageStoredIff(codec, removed, q);
      PackageKeyInjective(codec, p, q);
    }
  }

  lemma PackageKeyInjective(codec: Codec, p: KeyPackage, q: KeyPackage)
    requires Lawful(codec)
    ensures codec.packageKey(p) == codec.packageKey(q) <==> p == q
  {
    assert codec.packageOf(codec.packageKey(p)) == Some(p) && codec.packageOf(codec.packageKey(q)) == Some(q);
  }

  datatype Snapshot = Snapshot(groupIds: seq<GroupId>, storageEntries: seq<(string, string)>)

  function Entry(k: Bytes, v: Bytes): (string, string) {
    (Encode(k), Encode(v))
  }

  /** The snapshot lists the groups, each once, and the store, in any order. */
  ghost predicate Captures(s: Snapshot, groups: Groups, values: Values) {
    && NoDuplicates(s.groupIds) && (forall id :: id in s.groupIds <==> id in groups)
    && AllFrom(s.storageEntries, values)
    && (forall k :: k in values ==> Entry(k, values[k]) in s.storageEntries)
  }

  ghost predicate AllFrom(entries: seq<(string, string)>, values: Values) {
    forall e :: e in entries ==> IsEntry(e, values)
  }

  ghost predicate IsEntry(e: (string, string), values: Values) {
    exists k :: k in values && e == Entry(k, values[k])
  }

  // ---- Specification of the restore ----

  /** The entries decoded and inserted one after another; None if one of them is corrupt. */
  function Decoded(entries: seq<(string, string)>): Option<Values> {
    if entries == [] then Some(map[]) else
    var before, e := Decoded(entries[..|entries| - 1]), entries[|entries| - 1];
    var k, v := Decode(e.0), Decode(e.1);
    if before.None? || k.None? || v.None? then None else Some(before.value[k.value := v.value])
  }

  function Load(codec: Codec, values: Values, id: GroupId): Option<Group> {
    if codec.groupKey(id) in values then codec.decode(values[codec.groupKey(id)]) else None
  }

  /** The groups of the list that can be loaded replace or join the handler's groups. */
  function Reloaded(codec: Codec, groups: Groups, values: Values, ids: seq<GroupId>): (Groups, nat) {
    if ids == [] then (groups, 0) else
    var (before, n) := Reloaded(codec, groups, values, ids[..|ids| - 1]);
    var id := ids[|ids| - 1];
    var g := Load(codec, values, id);
    if g.Some? then (before[id := g.value], n + 1) else (before, n)
  }

  // ---- Round trip ----

  lemma EntryInjective(k: Bytes, j: Bytes, values: Values)
    requires k in values && j in values && Entry(k, values[k]) == Entry(j, values[j])
    ensures k == j
  {
    EncodeInjective(k, j);
  }

  lemma {:induction false} DecodedPart(entries: seq<(string, string)>, values: Values)
    requires AllFrom(entries, values)
    ensures var r := Decoded(entries);
      && r.Some?
      && (forall k :: k in r.value <==> k in values && Entry(k, values[k]) in entries)
      && (forall k :: k in r.value ==> r.value[k] == values[k])
  {
    if entries != [] {
      var init, e := entries[..|entries| - 1], entries[|entries| - 1];
      DecodedPart(init, values);
      assert entries == init + [e] && IsEntry(e, values);
      var k :| k in values && e == Entry(k, values[k]);
      DecodeOfEncode(k);
      DecodeOfEncode(values[k]);
      assert Decoded(entries) == Some(Decoded(init).value[k := values[k]]);
      forall j | j in values ensures Entry(j, values[j]) in entries <==> Entry(j, values[j]) in init || j == k {
        if Entry(j, values[j]) == e {
          EntryInjective(j, k, values);
        }
      }
    }
  }

  /** A snapshot is corrupt exactly if some entry is no pair of hex strings. */
  lemma {:induction false} CorruptIff(entries: seq<(string, string)>)
    ensures Decoded(entries).None? <==>
      exists e :: e in entries && (Decode(e.0).None? || Decode(e.1).None?)
  {
    if entries != [] {
      var init, e := entries[..|entries| - 1], entries[|entries| - 1];
      CorruptIff(init);
      assert entries == init + [e];
      assert forall x :: x in entries <==> x in init || x == e;
    }
  }

  /** The rebuilt store is the exported one, whatever the order of the entries. */
  lemma DecodedIsStore(s: Snapshot, groups: Groups, values: Values)
    requires Captures(s, groups, values)
    ensures Decoded(s.storageEntries) == Some(values)
  {
    DecodedPart(s.storageEntries, values);
    var m := Decoded(s.storageEntries).value;
    assert m.Keys == values.Keys;
    assert m == values;
  }

  lemma {:induction false} ReloadedPart(codec: Codec, live: Groups, groups: Groups, values: Values, ids: seq<GroupId>)
    requires Lawful(codec) && StoreCovers(codec, groups, values) && forall id :: id in ids ==> id in groups
    ensures Reloaded(codec, live, values, ids).1 == |ids|
    ensures var r := Reloaded(codec, live, values, ids).0;
      && (forall id :: id in r <==> id in live || id in ids)
      && (forall id :: id in r ==> r[id] == if id in ids then groups[id] else live[id])
  {
    if ids != [] {
      var init, id := ids[..|ids| - 1], ids[|ids| - 1];
      assert ids == init + [id];
      ReloadedPart(codec, live, groups, values, init);
      assert Stores(codec, values, id, groups[id]);
    }
  }

  function Loadable(codec: Codec, values: Values, ids: seq<GroupId>): nat {
    if ids == [] then 0 else
    Loadable(codec, values, ids[..|ids| - 1]) + (if Load(codec, values, ids[|ids| - 1]).Some? then 1 else 0)
  }

  /** For any store and list: the groups that can be loaded are put over the live ones and counted, the others passed over. */
  lemma {:induction false} ReloadedIs(codec: Codec, live: Groups, values: Values, ids: seq<GroupId>)
    ensures var (after, n) := Reloaded(codec, live, values, ids);
      && n == Loadable(codec, values, ids)
      && (forall id :: id in after <==> id in live || (id in ids && Load(codec, values, id).Some?))
      && forall id :: id in after ==>
           after[id] == if id in ids && Load(codec, values, id).Some? then Load(codec, values, id).value else live[id]
  {
    if ids != [] {
      var init, id := ids[..|ids| - 1], ids[|ids| - 1];
      assert ids == init + [id];
      ReloadedIs(codec, live, values, init);
    }
  }

  lemma {:induction false} DistinctCount(ids: seq<GroupId>, groups: Groups)
    requires NoDuplicates(ids) && forall id :: id in ids <==> id in groups
    ensures |ids| == |groups|
  {
    if ids == [] {
      assert groups.Keys == {};
      assert |groups| == |groups.Keys|;
    } else {
      var init, id := ids[..|ids| - 1], ids[|ids| - 1];
      assert ids == init + [id];
      DistinctCount(init, groups - {id});
      assert groups.Keys == (groups - {id}).Keys + {id};
      assert |groups| == |groups.Keys| && |groups - {id}| == |(groups - {id}).Keys|;
    }
  }

  lemma RestoredGroups(codec: Codec, live: Groups, groups: Groups, values: Values, ids: seq<GroupId>)
    requires Lawful(codec) && StoreCovers(codec, groups, values) && forall id :: id in ids <==> id in groups
    ensures Reloaded(codec, live, values, ids) == (live + groups, |ids|)
  {
    ReloadedPart(codec, live, groups, values, ids);
    var r := Reloaded(codec, live, values, ids).0;
    assert r.Keys == (live + groups).Keys;
    assert r == live + groups;
  }

  lemma GroupsReloaded(codec: Codec, groups: Groups, values: Values, ids: seq<GroupId>)
    requires Lawful(codec) && StoreCovers(codec, groups, values)
    requires NoDuplicates(ids) && forall id :: id in ids <==> id in groups
    ensures Reloaded(codec, map[], values, ids) == (groups, |groups|)
  {
    RestoredGroups(codec, map[], groups, values, ids);
    DistinctCount(ids, groups);
    assert map[] + groups == groups;
  }

  /**
   Restoring a snapshot into a handler without groups rebuilds exactly the groups and the store of the exporting handler,
   and returns the number of its groups.
  */
  lemma RoundTrip(codec: Codec, s: Snapshot, groups: Groups, values: Values)
    requires Lawful(codec) && StoreCovers(codec, groups, values) && Captures(s, groups, values)
    ensures Decoded(s.storageEntries) == Some(values)
    ensures values[codec.keypairKey := codec.keypair] == values
    ensures Reloaded(codec, map[], values, s.groupIds) == (groups, |groups|)
  {
    DecodedIsStore(s, groups, values);
    GroupsReloaded(codec, groups, values, s.groupIds);
  }

  /**
   Restoring into a handler in use keeps its groups that are not in the snapshot, though their store entries are gone:
   memory and store agree afterwards if and only if there is no such group.
  */
  lemma RestoreInUse(codec: Codec, s: Snapshot, groups: Groups, values: Values, live: Groups)
    requires Lawful(codec) && StoreCovers(codec, groups, values) && Captures(s, groups, values)
    ensures Reloaded(codec, live, values, s.groupIds).0 == live + groups
    ensures StoreCovers(codec, live + groups, values) <==> live.Keys <= groups.Keys
  {
    RestoredGroups(codec, live, groups, values, s.groupIds);
    if live.Keys <= groups.Keys {
      assert live + groups == groups;
    } else {
      var id :| id in live && id !in groups;
      NotStoredDisagrees(codec, live + groups, values, id);
    }
  }

  lemma NotStoredDisagrees(codec: Codec, groups: Groups, values: Values, id: GroupId)
    requires id in groups && codec.groupKey(id) !in values
    ensures !StoreCovers(codec, groups, values)
  {
    assert !Stores(codec, values, id, groups[id]);
  }

  /**
   After a restore into a new handler, a Welcome is acceptable if and only if it was when the snapshot was taken: the
   private part of its key package is in the snapshot, and the group is not.
  */
  lemma WelcomeSurvives(codec: Codec, s: Snapshot, groups: Groups, values: Values, m: Message)
    requires Lawful(codec) && StoreCovers(codec, groups, values) && Captures(s, groups, values)
    ensures Decoded(s.storageEntries).Some?
    ensures var restored := Decoded(s.storageEntries).value[codec.keypairKey := codec.keypair];
      var after := Account(Reloaded(codec, map[], restored, s.groupIds).0, PackagesIn(codec, restored));
      && (Admits(after, m) <==> Admits(Account(groups, PackagesIn(codec, values)), m))
      && (Admits(after, m) <==>
            m.Welcome? && codec.packageKey(m.invitee) in values && codec.groupKey(m.chain.groupId) !in values)
  {
    RoundTrip(codec, s, groups, values);
    if m.Welcome? {
      PackageStoredIff(codec, values, m.invitee);
      assert m.chain.groupId in groups ==> Stores(codec, values, m.chain.groupId, groups[m.chain.groupId]);
    }
  }
}
