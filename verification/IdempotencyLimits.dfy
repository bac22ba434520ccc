/** Runs that show where the idempotency protocol stops protecting its tables. */
module IdempotencyLimits {
  import opened Base
  import opened MapSums
  import opened MarketplaceService
  import opened Idempotency
  import opened IdempotencyRuns
  import opened IdempotencyOutcomes

  const TTL := 10

  function At(now: int): Clock {
    Clock(now, now, now)
  }

  function ListingBody(quantity: int): Body {
    Body(Present("seller"), Absent, Absent, Present("batch"), Absent, Present(quantity), Present(1), Absent, "")
  }

  function PurchaseBody(quantity: int): Body {
    Body(Absent, Present("buyer"), Absent, Absent, Present(Derived("lst", "l")), Present(quantity), Absent, Absent, "")
  }

  const RETIRE_BODY := Body(Absent, Absent, Present("owner"), Present("batch"), Absent, Present(1), Absent, Absent, "")

  // A request under a key without a record or a recent submission, when nothing fails.
  lemma CleanRequest(b: Backend, r: Request, now: int, p: Payload)
    requires ValidKey(r.key) && Valid(r.endpoint, r.body)
    requires r.key in b.records ==> b.records[r.key].expiresAt <= now
    requires LatestEvent(b.chain, r.key).Some? ==> LatestEvent(b.chain, r.key).value.createdAt + TTL <= now
    requires b.Prepare(r, now) == Ok(p) && Apply(b.domain, p).Ok?
    ensures var o := After(b, Step(r, At(now), NO_FAULT), TTL);
            && o.response.Executed? && o.response.reply.payload == p
            && o.after.chain == b.chain + [Event(r.key, p, now)] && o.after.domain == Apply(b.domain, p).value
            && r.key in o.after.records && o.after.records[r.key].expiresAt == now + TTL
            && o.after.records.Keys == b.records.Keys + {r.key}
  {
    var forgotten := b.Forget(r.key);
    if r.key in b.records {
      assert b.Handle(r, At(now), NO_FAULT, TTL) == forgotten.Proceed(r, At(now), Fault(false, 4), TTL);
    } else {
      assert b.Handle(r, At(now), NO_FAULT, TTL) == b.Proceed(r, At(now), NO_FAULT, TTL);
    }
  }

  lemma RunOfTwo(b: Backend, s: Step, u: Step)
    ensures Run(b, [s, u], TTL) == After(After(b, s, TTL).after, u, TTL).after
  {
    assert [s, u][1..] == [u] && [u][1..] == [];
    var next := After(b, s, TTL).after;
    assert Run(next, [u], TTL) == Run(After(next, u, TTL).after, [], TTL);
  }

  // ---------------------------------------------------------------- a listing key with two quantities

  const LIST_TEN := Step(Request("l", Listings, ListingBody(10)), At(0), NO_FAULT)
  const LIST_TWENTY := Step(Request("l", Listings, ListingBody(20)), At(10), NO_FAULT)

  function Listed(quantity: int, now: int): Payload {
    ListingCreated(Derived("lst", "l"), "seller", "batch", quantity, 1, now)
  }

  lemma ListedOnce() returns (b: Backend)
    ensures b == After(GENESIS, LIST_TEN, TTL).after
    ensures b.chain == [Event("l", Listed(10, 0), 0)]
    ensures b.domain == Domain(map[Derived("lst", "l") := Listing("seller", "batch", 10, 10, 1, 0)], map[], map[])
    ensures b.records.Keys == {"l"} && b.records["l"].expiresAt == 10
  {
    CleanRequest(GENESIS, LIST_TEN.request, 0, Listed(10, 0));
    b := After(GENESIS, LIST_TEN, TTL).after;
  }

  // After its time to live a listing key is accepted with another quantity, and the listing has then sold ten credits
  // that nobody bought.
  lemma ReusedListingKeyBreaksBalance()
    ensures var d := Run(GENESIS, [LIST_TEN, LIST_TWENTY], TTL).domain;
            && d.purchases == map[] && Derived("lst", "l") in d.listings
            && d.listings[Derived("lst", "l")].total - d.listings[Derived("lst", "l")].remaining == 10
            && !Balanced(d)
  {
    var b := ListedOnce();
    RunOfTwo(GENESIS, LIST_TEN, LIST_TWENTY);
    CleanRequest(b, LIST_TWENTY.request, 10, Listed(20, 10));
    NothingPurchased(map[], Derived("lst", "l"));
  }

  // ---------------------------------------------------------------- a purchase key used twice

  const BUY_ONE := Step(Request("p", Purchases, PurchaseBody(1)), At(1), NO_FAULT)
  const BUY_TWO := Step(Request("p", Purchases, PurchaseBody(2)), At(11), NO_FAULT)

  function Bought(quantity: int, now: int): Payload {
    PurchaseSettled(Derived("pur", "p"), Derived("lst", "l"), "buyer", quantity, quantity, now)
  }

  lemma BoughtOnce(first: Backend) returns (b: Backend)
    requires first == After(GENESIS, LIST_TEN, TTL).after
    ensures b == After(first, BUY_ONE, TTL).after
    ensures b.chain == [Event("l", Listed(10, 0), 0), Event("p", Bought(1, 1), 1)]
    ensures b.domain == Domain(map[Derived("lst", "l") := Listing("seller", "batch", 10, 9, 1, 0)],
                               map[Derived("pur", "p") := Purchase(Derived("lst", "l"), "buyer", 1, 1, 1)], map[])
    ensures "p" in b.records && b.records["p"].expiresAt == 11
  {
    var same := ListedOnce();
    assert LatestEvent(first.chain, "p") == None by {
      assert first.chain[..0] == [];
    }
    CleanRequest(first, BUY_ONE.request, 1, Bought(1, 1));
    b := After(first, BUY_ONE, TTL).after;
    assert b.domain.listings == map[Derived("lst", "l") := Listing("seller", "batch", 10, 9, 1, 0)];
    assert b.domain.purchases == map[Derived("pur", "p") := Purchase(Derived("lst", "l"), "buyer", 1, 1, 1)];
  }

  // The second purchase under a key is on chain and answered, but the tables know only the first.
  lemma ReusedPurchaseKeyIsUnrecorded()
    ensures var first := After(GENESIS, LIST_TEN, TTL).after;
            var b := Run(first, [BUY_ONE, BUY_TWO], TTL);
            && b.chain == [Event("l", Listed(10, 0), 0), Event("p", Bought(1, 1), 1), Event("p", Bought(2, 11), 11)]
            && b.domain.purchases == map[Derived("pur", "p") := Purchase(Derived("lst", "l"), "buyer", 1, 1, 1)]
            && b.domain.listings == map[Derived("lst", "l") := Listing("seller", "batch", 10, 9, 1, 0)]
  {
    var first := After(GENESIS, LIST_TEN, TTL).after;
    var b := BoughtOnce(first);
    RunOfTwo(first, BUY_ONE, BUY_TWO);
    CleanRequest(b, BUY_TWO.request, 11, Bought(2, 11));
  }

  // ---------------------------------------------------------------- a lost purchase retried elsewhere

  const LOSE_ONE := Step(Request("p", Purchases, PurchaseBody(1)), At(1), Fault(true, 5))
  const RETIRE := Step(Request("p", Retirements, RETIRE_BODY), At(2), NO_FAULT)

  lemma LostOnce(first: Backend) returns (lost: Outcome)
    requires first == After(GENESIS, LIST_TEN, TTL).after
    ensures lost == After(first, LOSE_ONE, TTL) && lost.response == Refused(500)
    ensures lost.after.chain == first.chain + [Event("p", Bought(1, 1), 1)]
    ensures lost.after.domain == first.domain && "p" !in lost.after.records
    ensures Apply(first.domain, Bought(1, 1)).Ok?
    ensures first.domain.purchases == map[] && first.domain.retirements == map[]
  {
    var same := ListedOnce();
    assert LatestEvent(first.chain, "p") == None by {
      assert first.chain[..0] == [];
    }
    assert first.Prepare(LOSE_ONE.request, 1) == Ok(Bought(1, 1));
    lost := After(first, LOSE_ONE, TTL);
  }

  // A purchase whose rows were lost, retried as a retirement: answered as settled, with neither row in the tables.
  lemma ForeignRetryWritesNothing()
    ensures var first := After(GENESIS, LIST_TEN, TTL).after;
            var lost := After(first, LOSE_ONE, TTL);
            var o := After(lost.after, RETIRE, TTL);
            && lost.response == Refused(500) && lost.after.chain == first.chain + [Event("p", Bought(1, 1), 1)]
            && o.response == Reconciled(Reply(Retirements, Bought(1, 1), None))
            && o.after.domain == first.domain && first.domain.purchases == map[] && first.domain.retirements == map[]
  {
    var first := After(GENESIS, LIST_TEN, TTL).after;
    var lost := LostOnce(first);
    LatestAfter(first.chain, Event("p", Bought(1, 1), 1), "p");
    RetryOnAnotherEndpoint(lost.after, RETIRE.request, At(2), Event("p", Bought(1, 1), 1), TTL);
    assert After(lost.after, RETIRE, TTL)
        == lost.after.Reconcile(RETIRE.request, Event("p", Bought(1, 1), 1), 2, NO_FAULT, TTL);
  }

  // ---------------------------------------------------------------- a lost purchase retried too late

  const BUY_ALL := Step(Request("q", Purchases, PurchaseBody(10)), At(2), NO_FAULT)
  const RETRY_ONE := Step(Request("p", Purchases, PurchaseBody(1)), At(3), NO_FAULT)

  // The rows of one purchase are lost, another buyer takes all that is left, and the retry of the first is answered as
  // settled: the listing has one credit less than none.
  lemma LateFillOversells()
    ensures var first := After(GENESIS, LIST_TEN, TTL).after;
            var sold := Run(After(first, LOSE_ONE, TTL).after, [BUY_ALL, RETRY_ONE], TTL);
            Derived("lst", "l") in sold.domain.listings && Left(sold, Derived("lst", "l")) < 0
  {
    var first := After(GENESIS, LIST_TEN, TTL).after;
    var lid, mine := Derived("lst", "l"), Event("p", Bought(1, 1), 1);
    var outcome := LostOnce(first);
    var lost := outcome.after;
    var same := ListedOnce();
    LatestAfter(first.chain, mine, "q");
    LatestAfter(first.chain, mine, "p");
    assert LatestEvent(first.chain, "q") == None by {
      assert first.chain[..0] == [];
    }
    assert lost.chain == first.chain + [mine];
    CleanExecutionExactly(lost, BUY_ALL.request, BUY_ALL.at, TTL);
    var taken := After(lost, BUY_ALL, TTL).after;
    RowsExactly(lost.domain, Intended(lost, BUY_ALL.request, 2));
    LatestAfter(lost.chain, Event("q", Intended(lost, BUY_ALL.request, 2), 2), "p");
    RunOfTwo(lost, BUY_ALL, RETRY_ONE);
    assert Left(taken, lid) == 0;
    assert LateFill(taken, RETRY_ONE, TTL, lid);
    OversellsExactly(taken, RETRY_ONE, TTL, lid);
  }
}
