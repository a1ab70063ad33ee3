/** That keys and values can be encoded as the snapshots assume: a lawful codec exists. */
module MlsCodecs {
  import opened Wrappers
  import opened Hex
  import opened MlsGroups
  import opened MlsSnapshots

  type Code = seq<nat>

  /** Codes can be told apart, and from what follows them. */
  ghost predicate SelfDelimiting<T(!new)>(write: T -> Code) {
    forall a: T, b: T, x: Code, y: Code :: write(a) + x == write(b) + y ==> a == b && x == y
  }

  ghost predicate Injective<S(!new), T>(view: S -> T) {
    forall a: S, b: S :: view(a) == view(b) ==> a == b
  }

  // ---- Ways to build codes ----

  lemma NatCode() returns (write: nat -> Code)
    ensures SelfDelimiting(write)
  {
    write := (n: nat) => [n];
    forall a: nat, b: nat, x: Code, y: Code | write(a) + x == write(b) + y ensures a == b && x == y {
      assert x == (write(a) + x)[1..] && y == (write(b) + y)[1..];
      assert (write(a) + x)[0] == a && (write(b) + y)[0] == b;
    }
  }

  lemma PairCode<S(!new), T(!new)>(f: S -> Code, g: T -> Code) returns (write: ((S, T)) -> Code)
    requires SelfDelimiting(f) && SelfDelimiting(g)
    ensures SelfDelimiting(write)
  {
    write := (p: (S, T)) => f(p.0) + g(p.1);
    forall a: (S, T), b: (S, T), x: Code, y: Code | write(a) + x == write(b) + y ensures a == b && x == y {
      assert write(a) + x == f(a.0) + (g(a.1) + x) && write(b) + y == f(b.0) + (g(b.1) + y);
      assert a.0 == b.0 && g(a.1) + x == g(b.1) + y;
    }
  }

  lemma ViaCode<S(!new), T(!new)>(f: T -> Code, view: S -> T) returns (write: S -> Code)
    requires SelfDelimiting(f) && Injective(view)
    ensures SelfDelimiting(write)
  {
    write := (a: S) => f(view(a));
  }

  function WriteAll<T>(write: T -> Code, s: seq<T>): Code {
    if s == [] then [0] else [1] + write(s[0]) + WriteAll(write, s[1..])
  }

  lemma {:induction false} WriteAllDelimits<T(!new)>(write: T -> Code, s: seq<T>, t: seq<T>, x: Code, y: Code)
    requires SelfDelimiting(write) && WriteAll(write, s) + x == WriteAll(write, t) + y
    ensures s == t && x == y
  {
    assert (WriteAll(write, s) + x)[0] == WriteAll(write, s)[0] && (WriteAll(write, t) + y)[0] == WriteAll(write, t)[0];
    if s == [] {
      assert x == (WriteAll(write, s) + x)[1..] && y == (WriteAll(write, t) + y)[1..];
    } else {
      var p, q := WriteAll(write, s[1..]) + x, WriteAll(write, t[1..]) + y;
      assert (WriteAll(write, s) + x)[1..] == write(s[0]) + p && (WriteAll(write, t) + y)[1..] == write(t[0]) + q;
      WriteAllDelimits(write, s[1..], t[1..], x, y);
      assert s == [s[0]] + s[1..] && t == [t[0]] + t[1..];
    }
  }

  lemma SeqCode<T(!new)>(f: T -> Code) returns (write: seq<T> -> Code)
    requires SelfDelimiting(f)
    ensures SelfDelimiting(write)
  {
    write := (s: seq<T>) => WriteAll(f, s);
    forall s: seq<T>, t: seq<T>, x: Code, y: Code | write(s) + x == write(t) + y ensures s == t && x == y {
      WriteAllDelimits(f, s, t, x, y);
    }
  }

  /** The elements of a set in some order. */
  ghost function Listing<T(!new)>(s: set<T>): (list: seq<T>)
    ensures forall x :: x in s <==> x in list
  {
    if s == {} then [] else
    var x :| x in s;
    [x] + Listing(s - {x})
  }

  lemma SetCode<T(!new)>(f: T -> Code) returns (write: set<T> -> Code)
    requires SelfDelimiting(f)
    ensures SelfDelimiting(write)
  {
    var list := SeqCode(f);
    var view: set<T> -> seq<T> := (s: set<T>) => Listing(s);
    forall a: set<T>, b: set<T> | view(a) == view(b) ensures a == b {
      assert Listing(a) == Listing(b);
    }
    write := ViaCode(list, view);
  }

  lemma OptionCode<T(!new)>(f: T -> Code) returns (write: Option<T> -> Code)
    requires SelfDelimiting(f)
    ensures SelfDelimiting(write)
  {
    var list := SeqCode(f);
    write := ViaCode(list, (a: Option<T>) => if a.Some? then [a.value] else []);
  }

  // ---- Groups and key packages ----

  lemma StringCode() returns (write: string -> Code)
    ensures SelfDelimiting(write)
  {
    var natural := NatCode();
    var character := ViaCode(natural, (c: char) => c as nat);
    write := SeqCode(character);
  }

  lemma PackageCode() returns (write: KeyPackage -> Code)
    ensures SelfDelimiting(write)
  {
    var natural := NatCode();
    var text := StringCode();
    var pair := PairCode(text, natural);
    write := ViaCode(pair, (p: KeyPackage) => (p.identity, p.nonce));
  }

  lemma ChangeCode() returns (write: Change -> Code)
    ensures SelfDelimiting(write)
  {
    var natural := NatCode();
    var package := PackageCode();
    var added := OptionCode(package);
    var leaves := SetCode(natural);
    var numbers := PairCode(natural, natural);
    var both := PairCode(leaves, leaves);
    var rest := PairCode(added, both);
    var all := PairCode(numbers, rest);
    write := ViaCode(all, (c: Change) => ((c.committer, c.nonce), (c.added, (c.removed, c.referenced))));
  }

  lemma ChainCode() returns (write: Chain -> Code)
    ensures SelfDelimiting(write)
  {
    var natural := NatCode();
    var text := StringCode();
    var change := ChangeCode();
    var changes := SeqCode(change);
    var names := PairCode(text, text);
    var rest := PairCode(natural, changes);
    var all := PairCode(names, rest);
    write := ViaCode(all, (c: Chain) => ((c.groupId, c.creator), (c.nonce, c.changes)));
  }

  lemma GroupCode() returns (write: Group -> Code)
    ensures SelfDelimiting(write)
  {
    var natural := NatCode();
    var text := StringCode();
    var change := ChangeCode();
    var chain := ChainCode();
    var flag := ViaCode(natural, (b: bool) => if b then 1 else 0);
    var leaf := OptionCode(text);
    var tree := SeqCode(leaf);
    var pending := OptionCode(change);
    var leaves := SetCode(natural);
    var numbers := PairCode(natural, natural);
    var seen := SetCode(numbers);
    var who := PairCode(text, natural);
    var where := PairCode(chain, natural);
    var staged := PairCode(pending, leaves);
    var state := PairCode(tree, flag);
    var messages := PairCode(natural, seen);
    var first := PairCode(who, where);
    var second := PairCode(staged, state);
    var third := PairCode(second, messages);
    var all := PairCode(first, third);
    write := ViaCode(all, (g: Group) =>
      (((g.self, g.leaf), (g.chain, g.epoch)),
       (((g.pending, g.proposals), (g.tree, g.active)), (g.generation, g.seen))));
  }

  // ---- Bytes ----

  /** Numbers in unary, each closed by a zero. */
  function Unary(n: nat): Bytes {
    if n == 0 then [0] else [1] + Unary(n - 1)
  }

  function AsBytes(code: Code): Bytes {
    if code == [] then [] else Unary(code[0]) + AsBytes(code[1..])
  }

  lemma {:induction false} UnaryDelimits(m: nat, n: nat, x: Bytes, y: Bytes)
    requires Unary(m) + x == Unary(n) + y
    ensures m == n && x == y
  {
    assert (Unary(m) + x)[0] == Unary(m)[0] && (Unary(n) + y)[0] == Unary(n)[0];
    assert (Unary(m) + x)[1..] == Unary(m)[1..] + x && (Unary(n) + y)[1..] == Unary(n)[1..] + y;
    if m == 0 {
      assert Unary(m)[1..] + x == x && Unary(n)[1..] + y == y;
    } else {
      UnaryDelimits(m - 1, n - 1, x, y);
    }
  }

  lemma {:induction false} AsBytesInjective(a: Code, b: Code)
    requires AsBytes(a) == AsBytes(b)
    ensures a == b
  {
    if a != [] && b != [] {
      UnaryDelimits(a[0], b[0], AsBytes(a[1..]), AsBytes(b[1..]));
      AsBytesInjective(a[1..], b[1..]);
      assert a == [a[0]] + a[1..] && b == [b[0]] + b[1..];
    }
  }

  /** Any code gives an encoding as bytes, under a tag. */
  lemma BytesCode<T(!new)>(f: T -> Code, tag: Byte) returns (write: T -> Bytes)
    requires SelfDelimiting(f)
    ensures Injective(write) && forall a: T :: write(a) != [] && write(a)[0] == tag
  {
    write := (a: T) => [tag] + AsBytes(f(a));
    forall a: T, b: T | write(a) == write(b) ensures a == b {
      assert AsBytes(f(a)) == write(a)[1..] && AsBytes(f(b)) == write(b)[1..];
      AsBytesInjective(f(a), f(b));
      assert f(a) + [] == f(b) + [];
    }
  }

  /** The inverse of an encoding. */
  ghost function Reader<T(!new)>(write: T -> Bytes): Bytes -> Option<T> {
    (bytes: Bytes) => if exists a: T :: write(a) == bytes then var a: T :| write(a) == bytes; Some(a) else None
  }

  lemma ReadsBack<T(!new)>(write: T -> Bytes)
    requires Injective(write)
    ensures forall a: T :: Reader(write)(write(a)) == Some(a)
    ensures forall bytes: Bytes :: Reader(write)(bytes).Some? ==> write(Reader(write)(bytes).value) == bytes
  {
  }

  lemma LawfulCodec() returns (codec: Codec)
    ensures Lawful(codec)
  {
    var text := StringCode();
    var package := PackageCode();
    var group := GroupCode();
    var groupKey := BytesCode(text, 1);
    var packageKey := BytesCode(package, 2);
    var encode := BytesCode(group, 3);
    ReadsBack(packageKey);
    ReadsBack(encode);
    codec := Codec(groupKey, encode, Reader(encode), packageKey, packageKey, Reader(packageKey), [0], []);
    forall a: GroupId ensures codec.packageOf(codec.groupKey(a)) == None {
      assert forall p: KeyPackage :: packageKey(p)[0] != groupKey(a)[0];
    }
    assert forall p: KeyPackage :: packageKey(p) != [0];
  }
}
