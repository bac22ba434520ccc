/** batch_transfer: exactly when it succeeds, what it leaves behind, and that the order of its legs is irrelevant. */
module CarbonBatch {
  import opened Base
  import opened C = CarbonCredit
  import opened CarbonBooks
  import Sorting

  // ---------------------------------------------------------------- sums over the legs

  function SumOf(legs: seq<Leg>, f: Leg -> int): int {
    if legs == [] then 0 else f(legs[0]) + SumOf(legs[1..], f)
  }

  lemma {:induction false} SumOfRemove(legs: seq<Leg>, i: nat, f: Leg -> int)
    requires i < |legs|
    ensures SumOf(legs, f) == f(legs[i]) + SumOf(legs[..i] + legs[i + 1..], f)
  {
    if i == 0 {
      assert legs[..0] + legs[1..] == legs[1..];
    } else {
      SumOfRemove(legs[1..], i - 1, f);
      assert (legs[..i] + legs[i + 1..])[1..] == legs[1..][..i - 1] + legs[1..][i..];
    }
  }

  lemma {:induction false} SumOfPermuted(a: seq<Leg>, b: seq<Leg>, f: Leg -> int)
    requires multiset(a) == multiset(b)
    ensures SumOf(a, f) == SumOf(b, f)
    decreases |a|
  {
    if a == [] {
      assert |multiset(b)| == 0;
    } else {
      var i := Sorting.Occurrence(a, b);
      SumOfPermuted(a[1..], b[..i] + b[i + 1..], f);
      SumOfRemove(b, i, f);
    }
  }

  /** What a leg takes from the sender's balance in project `id`; a leg to oneself moves nothing. */
  function Debit(from: Address, id: ProjectId): Leg -> int {
    (leg: Leg) => if leg.to != from && leg.projectId == id then leg.amount else 0
  }

  /** What a leg adds to `owner`'s balance in project `id`. */
  function Deposit(from: Address, owner: Address, id: ProjectId): Leg -> int {
    (leg: Leg) => if owner != from && leg.to == owner && leg.projectId == id then leg.amount else 0
  }

  ghost predicate AllPositive(legs: seq<Leg>) {
    forall leg :: leg in legs ==> leg.amount > 0
  }

  ghost predicate Covered(c: Credit, from: Address, legs: seq<Leg>) {
    forall id :: SumOf(legs, Debit(from, id)) <= Balance(c, from, id)
  }

  lemma {:induction false} DebitsNonNegative(legs: seq<Leg>, from: Address, id: ProjectId)
    requires AllPositive(legs)
    ensures SumOf(legs, Debit(from, id)) >= 0
  {
    if legs != [] {
      assert legs[0] in legs && forall leg :: leg in legs[1..] ==> leg in legs;
      DebitsNonNegative(legs[1..], from, id);
    }
  }

  // ---------------------------------------------------------------- success and effect

  ghost predicate Moved(c: Credit, d: Credit, from: Address, legs: seq<Leg>) {
    && Books(d)
    && d == c.(balances := d.balances)
    && forall a, id :: Balance(d, a, id) == Balance(c, a, id) + SumOf(legs, Deposit(from, a, id))
                                            - if a == from then SumOf(legs, Debit(from, id)) else 0
  }

  lemma {:induction false} BatchOutcome(c: Credit, signers: set<Address>, from: Address, legs: seq<Leg>)
    requires Books(c)
    ensures var r := c.BatchTransfer(signers, from, legs);
            && (r.Ok? <==> from in signers && (legs != [] ==> c.config.Some?) && AllPositive(legs)
                           && Covered(c, from, legs))
            && (r == Err(HostTrap) <==> from !in signers)
            && (r.Ok? ==> Moved(c, r.value.0, from, legs))
    decreases |legs|
  {
    if legs == [] {
      forall id ensures SumOf(legs, Debit(from, id)) <= Balance(c, from, id) {
        BalanceWithinSupply(c, from, id);
      }
    } else {
      var leg, rest := legs[0], legs[1..];
      assert leg in legs && forall x :: x in legs <==> x == leg || x in rest;
      TransferKeepsBooks(c, signers, from, leg.to, leg.projectId, leg.amount);
      var first := c.Transfer(signers, from, leg.to, leg.projectId, leg.amount);
      if first.Ok? {
        BatchOutcome(first.value.0, signers, from, rest);
        CoveredAfterFirst(c, first.value.0, from, legs);
        MovedAfterFirst(c, signers, from, legs);
      } else if from in signers && c.config.Some? && AllPositive(legs) {
        DebitsNonNegative(rest, from, leg.projectId);
        assert SumOf(legs, Debit(from, leg.projectId)) > Balance(c, from, leg.projectId);
      }
    }
  }

  // What the first leg moves and what the others move is what all of them move.
  lemma MovedAfterFirst(c: Credit, signers: set<Address>, from: Address, legs: seq<Leg>)
    requires Books(c) && legs != []
    requires c.Transfer(signers, from, legs[0].to, legs[0].projectId, legs[0].amount).Ok?
    ensures var first := c.Transfer(signers, from, legs[0].to, legs[0].projectId, legs[0].amount).value.0;
            forall d :: Moved(first, d, from, legs[1..]) ==> Moved(c, d, from, legs)
  {
    TransferKeepsBooks(c, signers, from, legs[0].to, legs[0].projectId, legs[0].amount);
  }

  lemma CoveredAfterFirst(c: Credit, d: Credit, from: Address, legs: seq<Leg>)
    requires legs != []
    requires forall id :: Balance(d, from, id) == Balance(c, from, id) - Debit(from, id)(legs[0])
    ensures Covered(c, from, legs) <==> Covered(d, from, legs[1..])
  {
    forall id
      ensures SumOf(legs, Debit(from, id)) <= Balance(c, from, id)
              <==> SumOf(legs[1..], Debit(from, id)) <= Balance(d, from, id)
    {
    }
  }

  // Permuting a batch changes neither its success nor the storage it leaves.
  lemma BatchOrderIrrelevant(c: Credit, signers: set<Address>, from: Address, legs: seq<Leg>, permuted: seq<Leg>)
    requires Books(c) && multiset(legs) == multiset(permuted)
    ensures var r, s := c.BatchTransfer(signers, from, legs), c.BatchTransfer(signers, from, permuted);
            r.Ok? == s.Ok? && (r.Ok? ==> r.value.0 == s.value.0)
  {
    var r, s := c.BatchTransfer(signers, from, legs), c.BatchTransfer(signers, from, permuted);
    BatchOutcome(c, signers, from, legs);
    BatchOutcome(c, signers, from, permuted);
    assert legs == [] <==> permuted == [] by {
      assert |legs| == |multiset(legs)| == |multiset(permuted)| == |permuted|;
    }
    forall leg ensures leg in legs <==> leg in permuted {
      assert leg in multiset(legs) <==> leg in multiset(permuted);
    }
    forall a, id
      ensures SumOf(legs, Debit(from, id)) == SumOf(permuted, Debit(from, id))
      ensures SumOf(legs, Deposit(from, a, id)) == SumOf(permuted, Deposit(from, a, id))
    {
      SumOfPermuted(legs, permuted, Debit(from, id));
      SumOfPermuted(legs, permuted, Deposit(from, a, id));
    }
    if r.Ok? {
      forall k ensures Row(r.value.0.balances, k) == Row(s.value.0.balances, k) {
        assert Balance(r.value.0, k.0, k.1) == Balance(s.value.0, k.0, k.1);
      }
      RowsDetermineMap(r.value.0.balances, s.value.0.balances);
    }
  }
}
