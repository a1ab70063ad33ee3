/**
 MLS groups as the handler sees them: a value per group, and what the OpenMLS library does with it.

 Cryptography is abstracted. The functions of this module are assumptions about the library, taken from RFC 9420:
   - A group is determined by its root and the commits merged since: two members with different histories have different
     key schedules, so a message is accepted only by a group with the history it was made for (sections 8 and 12.4.2).
   - A commit takes effect through its removals first and its addition afterwards; an added member takes the leftmost
     blank leaf, and the tree is extended if there is none (sections 7.7, 7.8 and 12.3). Truncation of the tree is not
     modelled: it drops blank leaves at the end only, so the leftmost blank leaf has the same index without it.
   - A commit cannot remove its own sender, must remove occupied leaves, and cannot add a member who stays in the group
     (section 12.2). It includes all proposals its sender has stored; whoever receives it must have stored them as well
     (section 12.4). Each side checks this.
   - Merging a commit, own or received, discards the own pending commit and all stored proposals of the old epoch
     (section 12.4.2). A member removed by a commit learns so by merging it, and the group becomes inactive.
   - A Welcome conveys the group after the commit it was made with, to the owner of the added key package, who must still
     hold its private part and uses it up by joining (sections 10 and 12.4.3.1). The library refuses a Welcome to a group
     that its store already has.
   - Application messages are encrypted by an active member that has no proposal stored (section 12), under a generation
     of its own that counts up within the epoch, and decrypted by the other members of the same epoch, once each
     (sections 9.1 and 15.3). Messages outside the window of generations that the library keeps do not occur.
 A library call that fails leaves the group, and the key packages, as they were.
*/
module MlsGroups {
  import opened Wrappers

  type Did = string
  type GroupId = string
  type Leaf = nat
  type Tree = seq<Option<Did>>

  /** A single-use invitation of an identity; the nonce stands for its fresh keys. */
  datatype KeyPackage = KeyPackage(identity: Did, nonce: nat)

  /** A commit: removals by value and by reference to proposals; the nonce stands for its fresh secrets. */
  datatype Change = Change(
    committer: Leaf, added: Option<KeyPackage>, removed: set<Leaf>, referenced: set<Leaf>, nonce: nat)

  /** The history of a group. */
  datatype Chain = Chain(groupId: GroupId, creator: Did, nonce: nat, changes: seq<Change>)

  /**
   `proposals` holds the leaves of the members who have proposed to leave in this epoch, `generation` the number of the
   next application message, `seen` the messages decrypted in this epoch, by sender and generation.
  */
  datatype Group = Group(
    self: Did, leaf: Leaf, chain: Chain, epoch: nat, tree: Tree, pending: Option<Change>, proposals: set<Leaf>,
    active: bool, generation: nat, seen: set<(Leaf, nat)>)

  datatype Message =
    | Commit(parent: Chain, change: Change)
    | Leave(context: Chain, leaver: Leaf)
    | Application(context: Chain, sender: Leaf, generation: nat, plaintext: string)
    | Welcome(chain: Chain, epoch: nat, tree: Tree, leaf: Leaf, invitee: KeyPackage)

  // ---- Trees ----

  predicate Occupied(tree: Tree, leaf: Leaf) {
    leaf < |tree| && tree[leaf].Some?
  }

  function Blanked(tree: Tree, gone: set<Leaf>): (t: Tree)
    ensures |t| == |tree|
  {
    seq(|tree|, i requires 0 <= i < |tree| => if i in gone then None else tree[i])
  }

  function LeftmostBlank(tree: Tree): (i: nat)
    ensures i <= |tree| && (i < |tree| ==> tree[i] == None)
    ensures forall j :: 0 <= j < i ==> tree[j].Some?
  {
    if tree == [] || tree[0] == None then 0 else LeftmostBlank(tree[1..]) + 1
  }

  function Placed(tree: Tree, did: Did): Tree {
    var i := LeftmostBlank(tree);
    if i < |tree| then tree[i := Some(did)] else tree + [Some(did)]
  }

  function Gone(c: Change): set<Leaf> {
    c.removed + c.referenced
  }

  function Apply(tree: Tree, c: Change): Tree {
    var t := Blanked(tree, Gone(c));
    if c.added.Some? then Placed(t, c.added.value.identity) else t
  }

  function Members(tree: Tree): seq<Did> {
    if tree == [] then [] else
    var init := Members(tree[..|tree| - 1]);
    if tree[|tree| - 1].Some? then init + [tree[|tree| - 1].value] else init
  }

  predicate HasMember(tree: Tree, did: Did) {
    exists i :: 0 <= i < |tree| && tree[i] == Some(did)
  }

  /** What sender and receivers check of a commit. */
  predicate ValidChange(tree: Tree, c: Change) {
    && Occupied(tree, c.committer) && c.committer !in Gone(c)
    && (forall leaf :: leaf in Gone(c) ==> Occupied(tree, leaf))
    && (c.added.Some? ==> !HasMember(Blanked(tree, Gone(c)), c.added.value.identity))
  }

  // ---- Histories ----

  /** The first `k` commits of a history. */
  function Prefix(chain: Chain, k: nat): Chain
    requires k <= |chain.changes|
  {
    chain.(changes := chain.changes[..k])
  }

  /** A history without any commit. */
  function Root(chain: Chain): Chain {
    chain.(changes := [])
  }

  predicate IsPrefix(a: Chain, b: Chain) {
    Root(a) == Root(b) && a.changes <= b.changes
  }

  // ---- Groups ----

  function Extended(chain: Chain, c: Change): Chain {
    chain.(changes := chain.changes + [c])
  }

  function Created(groupId: GroupId, self: Did, nonce: nat): Group {
    Group(self, 0, Chain(groupId, self, nonce, []), 0, [Some(self)], None, {}, true, 0, {})
  }

  /** The change that an own commit with these proposals would make; a stored proposal for the same leaf is superseded. */
  function NewChange(g: Group, added: Option<KeyPackage>, removed: set<Leaf>, nonce: nat): Change {
    Change(g.leaf, added, removed, g.proposals - removed, nonce)
  }

  predicate Operational(g: Group) {
    g.active && g.pending.None?
  }

  predicate Committable(g: Group, c: Change) {
    Operational(g) && ValidChange(g.tree, c)
  }

  function Staged(g: Group, c: Change): Group {
    g.(pending := Some(c))
  }

  function Cleared(g: Group): Group {
    g.(pending := None)
  }

  /** A commit is merged. */
  function Advanced(g: Group, c: Change): Group {
    g.(chain := Extended(g.chain, c), epoch := g.epoch + 1, tree := Apply(g.tree, c), pending := None, proposals := {},
       active := g.active && g.leaf !in Gone(c), generation := 0, seen := {})
  }

  function MergedPending(g: Group): Group
    requires g.pending.Some?
  {
    Advanced(g, g.pending.value)
  }

  /** The Welcome made together with a commit that adds a member. */
  function WelcomeFor(g: Group, c: Change): Message
    requires c.added.Some?
  {
    Welcome(Extended(g.chain, c), g.epoch + 1, Apply(g.tree, c), LeftmostBlank(Blanked(g.tree, Gone(c))), c.added.value)
  }

  function Welcomed(m: Message): Group
    requires m.Welcome?
  {
    Group(m.invitee.identity, m.leaf, m.chain, m.epoch, m.tree, None, {}, true, 0, {})
  }

  /** A received message decrypts, verifies and is applicable. */
  predicate Accepts(g: Group, m: Message) {
    g.active && match m
    case Commit(parent, c) =>
      parent == g.chain && c.committer != g.leaf && c.referenced <= g.proposals && ValidChange(g.tree, c)
    case Leave(context, leaver) => context == g.chain && leaver != g.leaf
    case Application(context, sender, generation, _) =>
      context == g.chain && sender != g.leaf && Occupied(g.tree, sender) && (sender, generation) !in g.seen
    case Welcome(_, _, _, _, _) => false
  }

  // ---- Replay: the tree as a function of the history ----

  function Replay(chain: Chain): Tree
    decreases |chain.changes|
  {
    if chain.changes == [] then [Some(chain.creator)] else
    Apply(Replay(Before(chain)), chain.changes[|chain.changes| - 1])
  }

  /** The history without its last commit. */
  function Before(chain: Chain): Chain
    requires chain.changes != []
  {
    chain.(changes := chain.changes[..|chain.changes| - 1])
  }

  predicate ValidChain(chain: Chain)
    decreases |chain.changes|
  {
    chain.changes != [] ==>
      ValidChain(Before(chain)) && ValidChange(Replay(Before(chain)), chain.changes[|chain.changes| - 1])
  }

  lemma ReplayExtended(chain: Chain, c: Change)
    ensures Replay(Extended(chain, c)) == Apply(Replay(chain), c)
    ensures ValidChain(Extended(chain, c)) <==> ValidChain(chain) && ValidChange(Replay(chain), c)
  {
    assert Before(Extended(chain, c)) == chain;
  }

  /** No two leaves belong to the same member. */
  predicate Distinct(tree: Tree) {
    forall i, j :: 0 <= i < j < |tree| && tree[i].Some? ==> tree[i] != tree[j]
  }

  lemma PlacedKeeps(tree: Tree, did: Did)
    requires !HasMember(tree, did)
    ensures Distinct(tree) ==> Distinct(Placed(tree, did))
    ensures forall i: Leaf :: Occupied(tree, i) ==> i < |Placed(tree, did)| && Placed(tree, did)[i] == tree[i]
    ensures LeftmostBlank(tree) < |Placed(tree, did)| && Placed(tree, did)[LeftmostBlank(tree)] == Some(did)
  {
  }

  /** A valid commit keeps members distinct, every remaining member at its leaf, and puts the added one at its own. */
  lemma ApplyKeeps(tree: Tree, c: Change)
    requires ValidChange(tree, c)
    ensures Distinct(tree) ==> Distinct(Apply(tree, c))
    ensures forall i: Leaf :: Occupied(tree, i) && i !in Gone(c) ==> i < |Apply(tree, c)| && Apply(tree, c)[i] == tree[i]
    ensures c.added.Some? ==>
      var i := LeftmostBlank(Blanked(tree, Gone(c)));
      i < |Apply(tree, c)| && Apply(tree, c)[i] == Some(c.added.value.identity)
  {
    var t := Blanked(tree, Gone(c));
    assert forall i: Leaf :: Occupied(tree, i) && i !in Gone(c) ==> Occupied(t, i) && t[i] == tree[i];
    if c.added.Some? {
      PlacedKeeps(t, c.added.value.identity);
    }
  }

  lemma {:induction false} ReplayDistinct(chain: Chain)
    requires ValidChain(chain)
    ensures Distinct(Replay(chain))
    decreases |chain.changes|
  {
    if chain.changes != [] {
      ReplayDistinct(Before(chain));
      ApplyKeeps(Replay(Before(chain)), chain.changes[|chain.changes| - 1]);
    }
  }

  // ---- Member lists ----

  lemma {:induction false} MembersAre(tree: Tree, did: Did)
    ensures did in Members(tree) <==> HasMember(tree, did)
  {
    if tree != [] {
      var init, last := tree[..|tree| - 1], tree[|tree| - 1];
      MembersAre(init, did);
      if i :| 0 <= i < |tree| && tree[i] == Some(did) {
        assert i < |init| ==> init[i] == Some(did);
      }
    }
  }

  predicate NoDuplicates(dids: seq<Did>) {
    forall i, j :: 0 <= i < j < |dids| ==> dids[i] != dids[j]
  }

  lemma {:induction false} MembersDistinct(tree: Tree)
    requires Distinct(tree)
    ensures NoDuplicates(Members(tree))
  {
    if tree != [] {
      var init, last := tree[..|tree| - 1], tree[|tree| - 1];
      MembersDistinct(init);
      if last.Some? {
        MembersAre(init, last.value);
      }
    }
  }
}
