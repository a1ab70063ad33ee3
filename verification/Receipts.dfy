/** The aggregate receipt status of a group message: the lowest, over the members, of each member's highest receipt. */
module Receipts {

  type Did = string

  // Statuses as the protocol numbers them; any other number may arrive too.
  const DELIVERED: int := 1
  const READ: int := 2

  datatype Receipt = Receipt(reader: Did, status: int)

  // ---- Specification ----

  function Max(a: int, b: int): int {
    if a >= b then a else b
  }

  function Min(a: int, b: int): int {
    if a <= b then a else b
  }

  /** The highest status among the receipts of `did`; no receipt, or a negative one, counts as 0. */
  function Highest(receipts: seq<Receipt>, did: Did): nat {
    if receipts == [] then 0 else
    var r := receipts[|receipts| - 1];
    var before := Highest(receipts[..|receipts| - 1], did);
    if r.reader == did then Max(before, r.status) else before
  }

  function LowestOf(receipts: seq<Receipt>, members: seq<Did>): nat
    requires members != []
  {
    var last := Highest(receipts, members[|members| - 1]);
    if |members| == 1 then last else Min(LowestOf(receipts, members[..|members| - 1]), last)
  }

  function StatusName(status: int): string {
    if status >= READ then "read" else if status >= DELIVERED then "delivered" else "sent"
  }

  /** The answer for any member list. */
  function Aggregate(receipts: seq<Receipt>, members: seq<Did>): string {
    if members == [] then "sent" else StatusName(LowestOf(receipts, members))
  }

  // ---- The two passes ----

  /** Receipts are folded into a map of highest statuses, whose minimum over the members is taken. */
  method GetGroupAggregateStatus(receipts: seq<Receipt>, members: seq<Did>) returns (status: string)
    ensures status == Aggregate(receipts, members)
  {
    if members == [] {
      return "sent";
    }
    var statusMap: map<Did, int> := map[];
    for i := 0 to |receipts|
      invariant forall did :: (if did in statusMap then statusMap[did] else 0) == Highest(receipts[..i], did)
    {
      var r := receipts[i];
      assert receipts[..i + 1][..i] == receipts[..i];
      if r.reader !in statusMap {
        statusMap := statusMap[r.reader := 0];
      }
      if r.status > statusMap[r.reader] {
        statusMap := statusMap[r.reader := r.status];
      }
    }
    assert receipts[..|receipts|] == receipts;
    var minStatus := if members[0] in statusMap then statusMap[members[0]] else 0;
    for i := 1 to |members|
      invariant minStatus == LowestOf(receipts, members[..i])
    {
      assert members[..i + 1][..i] == members[..i];
      minStatus := Min(minStatus, if members[i] in statusMap then statusMap[members[i]] else 0);
    }
    assert members[..|members|] == members;
    status := StatusName(minStatus);
  }

  // ---- What the status means ----

  /** The member has sent a receipt of at least this status. */
  ghost predicate Confirmed(receipts: seq<Receipt>, did: Did, status: int) {
    exists r :: r in receipts && r.reader == did && r.status >= status
  }

  lemma {:induction false} HighestConfirms(receipts: seq<Receipt>, did: Did, status: int)
    requires status >= 1
    ensures Highest(receipts, did) >= status <==> Confirmed(receipts, did, status)
  {
    if receipts != [] {
      var init, r := receipts[..|receipts| - 1], receipts[|receipts| - 1];
      HighestConfirms(init, did, status);
      assert receipts == init + [r];
      assert forall x :: x in receipts <==> x in init || x == r;
    }
  }

  lemma {:induction false} LowestConfirms(receipts: seq<Receipt>, members: seq<Did>, status: int)
    requires members != [] && status >= 1
    ensures LowestOf(receipts, members) >= status <==> forall did :: did in members ==> Confirmed(receipts, did, status)
  {
    var init, last := members[..|members| - 1], members[|members| - 1];
    HighestConfirms(receipts, last, status);
    assert members == init + [last];
    if |members| > 1 {
      LowestConfirms(receipts, init, status);
    }
  }

  /**
   "read" means every member has confirmed reading, status 2; "delivered", that every member has confirmed at least
   delivery, status 1; without members it is "sent".
  */
  lemma AggregateMeans(receipts: seq<Receipt>, members: seq<Did>)
    ensures Aggregate(receipts, members) == "read" <==>
      members != [] && forall did :: did in members ==> Confirmed(receipts, did, 2)
    ensures Aggregate(receipts, members) == "sent" <==>
      members == [] || !forall did :: did in members ==> Confirmed(receipts, did, 1)
    ensures Aggregate(receipts, members) in {"sent", "delivered", "read"}
  {
    if members != [] {
      LowestConfirms(receipts, members, READ);
      LowestConfirms(receipts, members, DELIVERED);
    }
  }

  // ---- Order and growth ----

  function Rank(name: string): nat {
    if name == "read" then 2 else if name == "delivered" then 1 else 0
  }

  /** More receipts never lower the status, and only their set matters: neither order nor repetition. */
  lemma MoreReceipts(few: seq<Receipt>, many: seq<Receipt>, members: seq<Did>)
    requires forall r :: r in few ==> r in many
    ensures Rank(Aggregate(few, members)) <= Rank(Aggregate(many, members))
  {
    if members != [] {
      forall did, status | Confirmed(few, did, status) ensures Confirmed(many, did, status) {
        var r :| r in few && r.reader == did && r.status >= status;
        assert r in many;
      }
      AggregateMeans(few, members);
      AggregateMeans(many, members);
    }
  }

  lemma ReceiptOrderIrrelevant(receipts: seq<Receipt>, permuted: seq<Receipt>, members: seq<Did>)
    requires multiset(receipts) == multiset(permuted)
    ensures Aggregate(receipts, members) == Aggregate(permuted, members)
  {
    forall r ensures r in receipts <==> r in permuted {
      assert r in receipts <==> r in multiset(receipts);
      assert r in permuted <==> r in multiset(permuted);
    }
    MoreReceipts(receipts, permuted, members);
    MoreReceipts(permuted, receipts, members);
    RankDetermines(receipts, permuted, members);
  }

  lemma RankDetermines(a: seq<Receipt>, b: seq<Receipt>, members: seq<Did>)
    requires Rank(Aggregate(a, members)) == Rank(Aggregate(b, members))
    ensures Aggregate(a, members) == Aggregate(b, members)
  {
    if members != [] {
      AggregateMeans(a, members);
      AggregateMeans(b, members);
    }
  }

  /** More members never raise the status of a non-empty list. The empty list counts as "sent", so there it can rise. */
  lemma MoreMembers(receipts: seq<Receipt>, few: seq<Did>, many: seq<Did>)
    requires few != [] && forall did :: did in few ==> did in many
    ensures Rank(Aggregate(receipts, many)) <= Rank(Aggregate(receipts, few))
  {
    assert few[0] in many;
    AggregateMeans(receipts, few);
    AggregateMeans(receipts, many);
  }
}
