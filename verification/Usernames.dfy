/**
 The username registry: two maps between `name#discriminator` and DIDs, the printer and parser of display names.

 Names are ASCII: lower-casing and the alphanumeric test act on ASCII letters and digits only, and a name has as many
 bytes as characters. The random discriminators of an automatic registration are a parameter.
*/
module Usernames {
  import opened Wrappers
  import opened Decimal

  type Did = string

  const MAX_DISCRIMINATOR: U32 := 9999
  const MIN_DISCRIMINATOR: U32 := 1
  const MIN_USERNAME_LENGTH: nat := 3
  const MAX_USERNAME_LENGTH: nat := 32
  const MAX_DISCRIMINATOR_ATTEMPTS: nat := 100

  datatype Error = Empty | TooShort | TooLong | BadCharacter | BadStart | UsernameTaken(username: string)

  // ---- Strings ----

  function LowerChar(c: char): char {
    if 'A' <= c <= 'Z' then (c as int + 32) as char else c
  }

  function Lower(s: string): (t: string)
    ensures |t| == |s|
  {
    seq(|s|, i requires 0 <= i < |s| => LowerChar(s[i]))
  }

  predicate IsAlphanumeric(c: char) {
    IsDigit(c) || 'a' <= c <= 'z' || 'A' <= c <= 'Z'
  }

  /** The parts before and after the last `#`, if there is one. */
  function SplitLastHash(s: string): Option<(string, string)> {
    if s == "" then None else
    var init, last := s[..|s| - 1], s[|s| - 1];
    if last == '#' then Some((init, "")) else
    match SplitLastHash(init)
    case None => None
    case Some((before, after)) => Some((before, after + [last]))
  }

  function FormatUsername(name: string, discriminator: U32): string {
    name + "#" + Padded(discriminator, 4)
  }

  predicate ValidDiscriminator(d: U32) {
    MIN_DISCRIMINATOR <= d <= MAX_DISCRIMINATOR
  }

  function ParseUsername(formatted: string): Option<(string, U32)> {
    var s := if formatted != "" && formatted[0] == '@' then formatted[1..] else formatted;
    match SplitLastHash(s)
    case None => None
    case Some((name, text)) =>
      match ParseU32(text)
      case None => None
      case Some(d) => if ValidDiscriminator(d) then Some((name, d)) else None
  }

  function CompoundKey(name: string, discriminator: U32): string {
    name + "#" + Digits(discriminator)
  }

  function Validate(username: string): Option<Error> {
    if username == "" then Some(Empty)
    else if |username| < MIN_USERNAME_LENGTH then Some(TooShort)
    else if |username| > MAX_USERNAME_LENGTH then Some(TooLong)
    else if exists i :: 0 <= i < |username| && !(IsAlphanumeric(username[i]) || username[i] == '_' || username[i] == '-') then
      Some(BadCharacter)
    else if !IsAlphanumeric(username[0]) then Some(BadStart)
    else None
  }

  lemma SplitOfJoin(before: string, after: string)
    requires '#' !in after
    ensures SplitLastHash(before + "#" + after) == Some((before, after))
  {
    var s := before + "#" + after;
    if after == "" {
      assert s[..|s| - 1] == before;
    } else {
      var init := after[..|after| - 1];
      assert s[..|s| - 1] == before + "#" + init;
      SplitOfJoin(before, init);
      assert after == init + [after[|after| - 1]];
    }
  }

  /** The compound key determines both its parts, whatever characters the names contain. */
  lemma CompoundKeyInjective(name: string, d: U32, name': string, d': U32)
    ensures CompoundKey(name, d) == CompoundKey(name', d') <==> name == name' && d == d'
  {
    if CompoundKey(name, d) == CompoundKey(name', d') {
      SplitOfJoin(name, Digits(d));
      SplitOfJoin(name', Digits(d'));
      DigitsInjective(d, d');
    }
  }

  /** The parser undoes the printer exactly for discriminators in range and names that do not start with `@`. */
  lemma ParseOfFormat(name: string, d: U32)
    ensures ParseUsername(FormatUsername(name, d)) == Some((name, d))
      <==> ValidDiscriminator(d) && (name == "" || name[0] != '@')
  {
    var formatted := FormatUsername(name, d);
    ParseOfPadded(d, 4);
    if name != "" && name[0] == '@' {
      assert formatted[1..] == name[1..] + "#" + Padded(d, 4);
      SplitOfJoin(name[1..], Padded(d, 4));
    } else {
      SplitOfJoin(name, Padded(d, 4));
    }
  }

  /** The same letter in either case, or the same character. */
  predicate SameLetter(c: char, d: char) {
    || c == d
    || ('a' <= c <= 'z' && d as int == c as int - 32)
    || ('a' <= d <= 'z' && c as int == d as int - 32)
  }

  /** Names are taken to be the same, by every operation, if and only if they differ in case at most. */
  lemma SameNameIff(a: string, b: string)
    ensures Lower(a) == Lower(b) <==> |a| == |b| && forall i :: 0 <= i < |a| ==> SameLetter(a[i], b[i])
  {
    forall i | 0 <= i < |a| && i < |b| ensures Lower(a)[i] == Lower(b)[i] <==> SameLetter(a[i], b[i]) {
    }
    if |a| == |b| && forall i :: 0 <= i < |a| ==> SameLetter(a[i], b[i]) {
      assert forall i :: 0 <= i < |a| ==> Lower(a)[i] == Lower(b)[i];
    }
    if Lower(a) == Lower(b) {
      assert |a| == |Lower(a)| == |Lower(b)| == |b|;
    }
  }

  /** So lookups of such names agree. */
  lemma LookupIgnoresCase(r: Registry, a: string, b: string, d: U32)
    requires |a| == |b| && forall i :: 0 <= i < |a| ==> SameLetter(a[i], b[i])
    ensures LookupExact(r, a, d) == LookupExact(r, b, d)
  {
    SameNameIff(a, b);
  }

  /**
   A display name ends in `#` and digits whose value is the discriminator; there are exactly four of them, not all zero, if
   and only if the discriminator is valid.
  */
  lemma FourDigits(name: string, d: U32)
    ensures var formatted := FormatUsername(name, d);
      && |formatted| > |name| && formatted[..|name|] == name && formatted[|name|] == '#'
      && AllDigits(formatted[|name| + 1..]) && Value(formatted[|name| + 1..]) == d
      && (ValidDiscriminator(d) <==> |formatted| == |name| + 5 && d != 0)
  {
    assert Power10(1) == 10 && Power10(2) == 100 && Power10(3) == 1000 && Power10(4) == 10000;
    PaddedLength(d, 4);
    ParseOfPadded(d, 4);
    assert FormatUsername(name, d)[|name| + 1..] == Padded(d, 4);
  }

  /** The names that can be registered automatically. */
  predicate Legal(name: string) {
    && 3 <= |name| <= 32 && (IsDigit(name[0]) || 'a' <= name[0] <= 'z')
    && forall i :: 0 <= i < |name| ==> IsDigit(name[i]) || 'a' <= name[i] <= 'z' || name[i] == '_' || name[i] == '-'
  }

  /** A name is valid if and only if, in lower case, it is legal. */
  lemma ValidIffLegal(username: string)
    ensures Validate(username).None? <==> Legal(Lower(username))
  {
    var t := Lower(username);
    assert forall i :: 0 <= i < |t| ==> t[i] == LowerChar(username[i]);
    assert forall i :: 0 <= i < |t| ==>
      (IsAlphanumeric(username[i]) || username[i] == '_' || username[i] == '-' <==>
       IsDigit(t[i]) || 'a' <= t[i] <= 'z' || t[i] == '_' || t[i] == '-');
  }

  lemma LowerIdempotent(s: string)
    ensures Lower(Lower(s)) == Lower(s)
  {
  }

  // ---- The registry ----

  datatype Registry = Registry(local: map<string, Did>, reverse: map<Did, (string, U32)>)

  function KeyOf(entry: (string, U32)): string {
    CompoundKey(entry.0, entry.1)
  }

  /** The registry without the name of `did`. */
  function Evicted(r: Registry, did: Did): Registry {
    if did in r.reverse then Registry(r.local - {KeyOf(r.reverse[did])}, r.reverse - {did}) else r
  }

  function Entered(r: Registry, name: string, d: U32, did: Did): Registry {
    Registry(r.local[CompoundKey(name, d) := did], r.reverse[did := (name, d)])
  }

  /** The first draw whose key is free. */
  function FirstFree(local: map<string, Did>, name: string, draws: seq<U32>): Option<U32> {
    if draws == [] then None
    else if CompoundKey(name, draws[0]) !in local then Some(draws[0])
    else FirstFree(local, name, draws[1..])
  }

  function LocallyRegistered(r: Registry, username: string, did: Did, draws: seq<U32>): (Registry, Result<(string, U32), Error>) {
    match Validate(username)
    case Some(error) => (r, Err(error))
    case None =>
      var name, evicted := Lower(username), Evicted(r, did);
      match FirstFree(evicted.local, name, draws)
      case Some(d) => (Entered(evicted, name, d, did), Ok((name, d)))
      case None => (evicted, Err(UsernameTaken(name)))
  }

  function RegisteredWith(r: Registry, username: string, d: U32, did: Did): (Registry, Result<(), Error>) {
    var name := Lower(username);
    var key := CompoundKey(name, d);
    if key in r.local then (r, Err(UsernameTaken(key))) else (Entered(r, name, d, did), Ok(()))
  }

  function Mapped(r: Registry, username: string, d: U32, did: Did): Registry {
    Entered(Evicted(r, did), Lower(username), d, did)
  }

  function LookupExact(r: Registry, username: string, d: U32): Option<Did> {
    var key := CompoundKey(Lower(username), d);
    if key in r.local then Some(r.local[key]) else None
  }

  function DisplayName(r: Registry, did: Did): Option<string> {
    if did in r.reverse then Some(FormatUsername(r.reverse[did].0, r.reverse[did].1)) else None
  }

  class UsernameRegistry {
    var localCache: map<string, Did>
    var reverseCache: map<Did, (string, U32)>

    ghost function State(): Registry
      reads this
    {
      Registry(localCache, reverseCache)
    }

    /** Every key is a compound key. */
    ghost predicate Valid()
      reads this
    {
      forall key :: key in localCache ==> WellFormedKey(key)
    }

    constructor ()
      ensures Valid() && State() == Registry(map[], map[])
    {
      localCache, reverseCache := map[], map[];
    }

    /** Registers under the first of the drawn discriminators that is free. A failure still loses the old name. */
    method RegisterLocal(username: string, did: Did, draws: seq<U32>) returns (result: Result<(string, U32), Error>)
      requires |draws| == MAX_DISCRIMINATOR_ATTEMPTS && forall i :: 0 <= i < |draws| ==> ValidDiscriminator(draws[i])
      requires Valid()
      modifies this
      ensures Valid() && (State(), result) == LocallyRegistered(old(State()), username, did, draws)
    {
      var invalid := Validate(username);
      if invalid.Some? {
        return Err(invalid.value);
      }
      var name := Lower(username);
      if did in reverseCache {
        var (oldName, oldDisc) := reverseCache[did];
        reverseCache := reverseCache - {did};
        localCache := localCache - {CompoundKey(oldName, oldDisc)};
      }
      for i := 0 to MAX_DISCRIMINATOR_ATTEMPTS
        invariant State() == Evicted(old(State()), did)
        invariant FirstFree(localCache, name, draws) == FirstFree(localCache, name, draws[i..])
      {
        var disc := draws[i];
        var key := CompoundKey(name, disc);
        if key !in localCache {
          localCache := localCache[key := did];
          reverseCache := reverseCache[did := (name, disc)];
          return Ok((name, disc));
        }
      }
      result := Err(UsernameTaken(name));
    }

    method RegisterWithDiscriminator(username: string, discriminator: U32, did: Did) returns (result: Result<(), Error>)
      requires Valid()
      modifies this
      ensures Valid() && (State(), result) == RegisteredWith(old(State()), username, discriminator, did)
    {
      var name := Lower(username);
      var key := CompoundKey(name, discriminator);
      if key in localCache {
        return Err(UsernameTaken(key));
      }
      localCache := localCache[key := did];
      reverseCache := reverseCache[did := (name, discriminator)];
      result := Ok(());
    }

    method CacheMapping(username: string, discriminator: U32, did: Did)
      requires Valid()
      modifies this
      ensures Valid() && State() == Mapped(old(State()), username, discriminator, did)
    {
      var name := Lower(username);
      if did in reverseCache {
        var (oldName, oldDisc) := reverseCache[did];
        reverseCache := reverseCache - {did};
        localCache := localCache - {CompoundKey(oldName, oldDisc)};
      }
      localCache := localCache[CompoundKey(name, discriminator) := did];
      reverseCache := reverseCache[did := (name, discriminator)];
    }

    /** All known holders of a base name, each once, in no particular order. */
    method LookupAll(username: string) returns (holders: seq<(U32, Did)>)
      requires Valid()
      ensures Holds(holders, Lower(username), localCache, localCache.Keys)
    {
      var name := Lower(username);
      holders := [];
      var keys := localCache.Keys;
      while keys != {}
        invariant keys <= localCache.Keys
        invariant Holds(holders, name, localCache, localCache.Keys - keys)
        decreases |keys|
      {
        var key :| key in keys;
        HoldsStep(holders, name, localCache, keys, key);
        keys := keys - {key};
        var disc := NumberIn(name, key);
        if disc.Some? {
          holders := holders + [(disc.value, localCache[key])];
        }
      }
      assert localCache.Keys - {} == localCache.Keys;
    }
  }

  /** `holders` lists exactly the holders of `name` among `keys`, each once. */
  ghost predicate Holds(holders: seq<(U32, Did)>, name: string, local: map<string, Did>, keys: set<string>) {
    && (forall h :: h in holders ==>
          CompoundKey(name, h.0) in keys && CompoundKey(name, h.0) in local && local[CompoundKey(name, h.0)] == h.1)
    && (forall d: U32 :: CompoundKey(name, d) in keys && CompoundKey(name, d) in local ==>
          (d, local[CompoundKey(name, d)]) in holders)
    && (forall i, j :: 0 <= i < j < |holders| ==> holders[i].0 != holders[j].0)
  }

  /** The number that the key `key` gives to `name`, if it is a key of `name`. */
  function NumberIn(name: string, key: string): Option<U32> {
    if name + "#" <= key then ParseU32(key[|name| + 1..]) else None
  }

  lemma HoldsStep(holders: seq<(U32, Did)>, name: string, local: map<string, Did>, keys: set<string>, key: string)
    requires key in keys && keys <= local.Keys && Holds(holders, name, local, local.Keys - keys) && WellFormedKey(key)
    ensures var disc := NumberIn(name, key);
      Holds(if disc.Some? then holders + [(disc.value, local[key])] else holders, name, local, local.Keys - (keys - {key}))
  {
    KeyOfName(name, key);
    if NumberIn(name, key).Some? {
      var h := (NumberIn(name, key).value, local[key]);
      assert CompoundKey(name, h.0) == key;
      assert forall x :: x in holders + [h] <==> x in holders || x == h;
    }
  }

  /** A key of the local map: some name, `#`, a number. */
  ghost predicate WellFormedKey(key: string) {
    exists name, d: U32 :: key == CompoundKey(name, d)
  }

  /** Stripping `name#` from a key leaves a parsable text exactly for the keys of `name`. */
  lemma KeyOfName(name: string, key: string)
    requires WellFormedKey(key)
    ensures forall d: U32 :: key == CompoundKey(name, d) <==> NumberIn(name, key) == Some(d)
  {
    if name + "#" <= key {
      KeyParses(name, key);
      forall d: U32 | NumberIn(name, key).Some? && key == CompoundKey(name, d) ensures NumberIn(name, key) == Some(d) {
        CompoundKeyInjective(name, d, name, NumberIn(name, key).value);
      }
    } else {
      forall d: U32 ensures key != CompoundKey(name, d) {
        assert name + "#" <= CompoundKey(name, d);
      }
    }
  }

  lemma KeyParses(name: string, key: string)
    requires WellFormedKey(key) && name + "#" <= key
    ensures match NumberIn(name, key)
      case Some(d) => key == CompoundKey(name, d)
      case None => forall d: U32 :: key != CompoundKey(name, d)
  {
    var name', d': U32 :| key == CompoundKey(name', d');
    var rest := key[|name| + 1..];
    forall d: U32 | key == CompoundKey(name, d) ensures name' == name && d' == d {
      CompoundKeyInjective(name, d, name', d');
    }
    assert key[|name|] == (name + "#")[|name|];
    OnlyDigitsAfterHash(name', d');
    if |name| == |name'| {
      assert name' == key[..|name|] == name;
      assert rest == Digits(d');
      ParseOfDigits(d');
    }
    if |name| < |name'| {
      assert rest[|name'| - |name| - 1] == key[|name'|] == '#';
    }
  }

  lemma OnlyDigitsAfterHash(name: string, d: U32)
    ensures forall i :: |name| < i < |CompoundKey(name, d)| ==> CompoundKey(name, d)[i] != '#'
  {
    forall i | |name| < i < |CompoundKey(name, d)| ensures CompoundKey(name, d)[i] != '#' {
      assert CompoundKey(name, d)[i] == Digits(d)[i - |name| - 1];
    }
  }
}
