/**
 * The marketplace and retirement rows (backend/src/marketplace/service.ts, backend/src/credits/service.ts) and the
 * writes that rebuild them from chain events.
 */
module MarketplaceService {
  import opened Base
  import opened MapSums

  /** An id derived from an idempotency key, or any other text a client may send. */
  datatype EntityId = Derived(prefix: string, key: string) | Foreign(text: string)

  /** What a submission carries on chain. */
  datatype Payload =
    | ListingCreated(id: EntityId, sellerId: string, creditBatchId: string, quantity: int, priceStroops: int,
        createdAt: int)
    | PurchaseSettled(id: EntityId, listingId: EntityId, buyerId: string, quantity: int, totalPriceStroops: int,
        createdAt: int)
    | CreditsRetired(id: EntityId, ownerId: string, creditBatchId: string, quantity: int, reason: Option<string>,
        createdAt: int)

  datatype Listing = Listing(sellerId: string, creditBatchId: string, total: int, remaining: int, price: int,
      createdAt: int)
  datatype Purchase = Purchase(listingId: EntityId, buyerId: string, quantity: int, totalPrice: int, createdAt: int)
  datatype Retirement = Retirement(ownerId: string, creditBatchId: string, quantity: int, reason: Option<string>,
      createdAt: int)

  datatype Domain = Domain(listings: map<EntityId, Listing>,
                           purchases: map<EntityId, Purchase>,
                           retirements: map<EntityId, Retirement>)

  /** Why a transaction fails: a purchase without its listing row, or a row with a missing column. */
  datatype RowError = ForeignKey | MissingColumn

  /** The row a listing payload leaves; fills already applied to an earlier row are preserved. */
  function ListingRow(d: Domain, p: Payload): Listing
    requires p.ListingCreated?
  {
    var remaining := if p.id in d.listings then d.listings[p.id].remaining else p.quantity;
    Listing(p.sellerId, p.creditBatchId, p.quantity, remaining, p.priceStroops, p.createdAt)
  }

  function PurchaseRow(p: Payload): Purchase
    requires p.PurchaseSettled?
  {
    Purchase(p.listingId, p.buyerId, p.quantity, p.totalPriceStroops, p.createdAt)
  }

  function RetirementRow(p: Payload): Retirement
    requires p.CreditsRetired?
  {
    Retirement(p.ownerId, p.creditBatchId, p.quantity, p.reason, p.createdAt)
  }

  /** One domain transaction: all of it or, when a row violates its foreign key, none of it. */
  function Apply(d: Domain, p: Payload): Result<Domain, RowError> {
    match p
    case ListingCreated(id, _, _, _, _, _) =>
      Ok(d.(listings := d.listings[id := ListingRow(d, p)]))
    case PurchaseSettled(id, lid, _, quantity, _, _) =>
      if id in d.purchases then Ok(d)
      else if lid !in d.listings then Err(ForeignKey)
      else
        var listing := d.listings[lid];
        Ok(d.(purchases := d.purchases[id := PurchaseRow(p)],
              listings := d.listings[lid := listing.(remaining := listing.remaining - quantity)]))
    case CreditsRetired(id, _, _, _, _, _) =>
      if id in d.retirements then Ok(d) else Ok(d.(retirements := d.retirements[id := RetirementRow(p)]))
  }

  /** The tables themselves. */
  class DomainStore {
    var listings: map<EntityId, Listing>
    var purchases: map<EntityId, Purchase>
    var retirements: map<EntityId, Retirement>

    constructor ()
      ensures Rows() == Domain(map[], map[], map[])
    {
      listings, purchases, retirements := map[], map[], map[];
    }

    function Rows(): Domain
      reads this
    {
      Domain(listings, purchases, retirements)
    }

    method ApplyListing(p: Payload)
      requires p.ListingCreated?
      modifies this
      ensures Apply(old(Rows()), p) == Ok(Rows())
    {
      var remaining := p.quantity;
      if p.id in listings {
        remaining := listings[p.id].remaining;
      }
      listings := listings[p.id := Listing(p.sellerId, p.creditBatchId, p.quantity, remaining, p.priceStroops,
          p.createdAt)];
    }

    /** The listing is decremented only when the purchase row is first inserted. */
    method ApplyPurchase(p: Payload) returns (ok: bool)
      requires p.PurchaseSettled?
      modifies this
      ensures ok == Apply(old(Rows()), p).Ok?
      ensures if ok then Apply(old(Rows()), p) == Ok(Rows()) else Rows() == old(Rows())
    {
      if p.id in purchases {
        return true;
      }
      if p.listingId !in listings {
        return false;
      }
      purchases := purchases[p.id := Purchase(p.listingId, p.buyerId, p.quantity, p.totalPriceStroops, p.createdAt)];
      var listing := listings[p.listingId];
      listings := listings[p.listingId := listing.(remaining := listing.remaining - p.quantity)];
      return true;
    }

    method ApplyRetirement(p: Payload)
      requires p.CreditsRetired?
      modifies this
      ensures Apply(old(Rows()), p) == Ok(Rows())
    {
      if p.id !in retirements {
        retirements := retirements[p.id := Retirement(p.ownerId, p.creditBatchId, p.quantity, p.reason, p.createdAt)];
      }
    }

    method Transact(p: Payload) returns (ok: bool)
      modifies this
      ensures ok == Apply(old(Rows()), p).Ok?
      ensures if ok then Apply(old(Rows()), p) == Ok(Rows()) else Rows() == old(Rows())
    {
      match p {
        case ListingCreated(_, _, _, _, _, _) =>
          ApplyListing(p);
          ok := true;
        case PurchaseSettled(_, _, _, _, _, _) =>
          ok := ApplyPurchase(p);
        case CreditsRetired(_, _, _, _, _, _) =>
          ApplyRetirement(p);
          ok := true;
      }
    }
  }

  // ---------------------------------------------------------------- what is sold is what was purchased

  ghost function PurchasedFrom(purchases: map<EntityId, Purchase>, lid: EntityId): int {
    SumOver(purchases, (id: EntityId, p: Purchase) => if p.listingId == lid then p.quantity else 0)
  }

  ghost predicate References(d: Domain) {
    forall id :: id in d.purchases ==> d.purchases[id].listingId in d.listings
  }

  /** Every listing has sold exactly what its purchase rows add up to. */
  ghost predicate Balanced(d: Domain) {
    && References(d)
    && forall lid :: lid in d.listings ==>
         d.listings[lid].total - d.listings[lid].remaining == PurchasedFrom(d.purchases, lid)
  }

  lemma {:induction false} NothingPurchased(purchases: map<EntityId, Purchase>, lid: EntityId)
    requires forall id :: id in purchases ==> purchases[id].listingId != lid
    ensures PurchasedFrom(purchases, lid) == 0
    decreases purchases.Keys
  {
    if purchases != map[] {
      NothingPurchased(purchases - {Pick(purchases)}, lid);
    }
  }

  lemma PurchasedOneMore(purchases: map<EntityId, Purchase>, id: EntityId, p: Purchase, lid: EntityId)
    requires id !in purchases
    ensures PurchasedFrom(purchases[id := p], lid)
            == PurchasedFrom(purchases, lid) + if p.listingId == lid then p.quantity else 0
  {
    SumOverWrite(purchases, id, p, (id: EntityId, p: Purchase) => if p.listingId == lid then p.quantity else 0);
  }

  // A listing payload keeps the balance exactly when it does not restate an existing listing with another quantity.
  lemma ListingKeepsBalance(d: Domain, p: Payload)
    requires Balanced(d) && p.ListingCreated?
    ensures Balanced(Apply(d, p).value) <==> (p.id in d.listings ==> d.listings[p.id].total == p.quantity)
  {
    var after := Apply(d, p).value;
    if p.id !in d.listings {
      NothingPurchased(d.purchases, p.id);
    } else {
      assert after.listings[p.id].total - after.listings[p.id].remaining
             == PurchasedFrom(d.purchases, p.id) + p.quantity - d.listings[p.id].total;
    }
  }

  // Every other payload keeps it, whatever quantity it carries.
  lemma PurchaseKeepsBalance(d: Domain, p: Payload)
    requires Balanced(d) && !p.ListingCreated? && Apply(d, p).Ok?
    ensures Balanced(Apply(d, p).value)
  {
    if p.PurchaseSettled? && p.id !in d.purchases {
      forall lid | lid in d.listings
        ensures PurchasedFrom(d.purchases[p.id := PurchaseRow(p)], lid)
                == PurchasedFrom(d.purchases, lid) + if p.listingId == lid then p.quantity else 0
      {
        PurchasedOneMore(d.purchases, p.id, PurchaseRow(p), lid);
      }
    }
  }

  // ---------------------------------------------------------------- order and repetition do not matter

  /** The payloads applied in turn; defined when none of them violates a foreign key. */
  function ApplyAll(d: Domain, ps: seq<Payload>): Result<Domain, RowError>
    decreases |ps|
  {
    if ps == [] then Ok(d)
    else
      var next :- Apply(d, ps[0]);
      ApplyAll(next, ps[1..])
  }

  lemma ApplyTwice(d: Domain, p: Payload)
    requires Apply(d, p).Ok?
    ensures Apply(Apply(d, p).value, p) == Apply(d, p)
  {
    if p.ListingCreated? {
      var once := Apply(d, p).value;
      assert Apply(once, p).value.listings == once.listings;
    }
  }

  // Two purchases commute, also on the same listing.
  lemma PurchasesCommute(d: Domain, p: Payload, q: Payload)
    requires p.PurchaseSettled? && q.PurchaseSettled? && p.id != q.id && Apply(d, p).Ok? && Apply(d, q).Ok?
    ensures Apply(Apply(d, p).value, q).Ok?
    ensures Apply(Apply(d, p).value, q) == Apply(Apply(d, q).value, p)
  {
    var pq, qp := Apply(Apply(d, p).value, q).value, Apply(Apply(d, q).value, p).value;
    assert pq.purchases == qp.purchases;
    assert pq.listings == qp.listings;
  }

  // A purchase commutes with a listing, also with the one it buys from: restating a listing preserves its fills.
  lemma ListingAndPurchaseCommute(d: Domain, p: Payload, q: Payload)
    requires p.ListingCreated? && q.PurchaseSettled? && Apply(d, q).Ok?
    ensures Apply(Apply(d, p).value, q).Ok?
    ensures Apply(Apply(d, p).value, q) == Apply(Apply(d, q).value, p)
  {
    var pq, qp := Apply(Apply(d, p).value, q).value, Apply(Apply(d, q).value, p).value;
    assert pq.listings == qp.listings;
  }

  // Payloads with different ids commute.
  lemma Commute(d: Domain, p: Payload, q: Payload)
    requires p.id != q.id && Apply(d, p).Ok? && Apply(d, q).Ok?
    ensures Apply(Apply(d, p).value, q).Ok?
    ensures Apply(Apply(d, p).value, q) == Apply(Apply(d, q).value, p)
  {
    if p.PurchaseSettled? && q.PurchaseSettled? {
      PurchasesCommute(d, p, q);
    } else if p.ListingCreated? && q.PurchaseSettled? {
      ListingAndPurchaseCommute(d, p, q);
    } else if p.PurchaseSettled? && q.ListingCreated? {
      ListingAndPurchaseCommute(d, q, p);
    } else if p.ListingCreated? && q.ListingCreated? {
      assert Apply(Apply(d, p).value, q).value.listings == Apply(Apply(d, q).value, p).value.listings;
    } else if p.CreditsRetired? && q.CreditsRetired? {
      assert Apply(Apply(d, p).value, q).value.retirements == Apply(Apply(d, q).value, p).value.retirements;
    }
  }

  lemma {:induction false} CommuteAll(d: Domain, p: Payload, qs: seq<Payload>)
    requires forall q :: q in qs ==> q.id != p.id
    requires Apply(d, p).Ok? && ApplyAll(d, qs).Ok?
    ensures ApplyAll(Apply(d, p).value, qs).Ok?
    ensures Apply(ApplyAll(d, qs).value, p) == ApplyAll(Apply(d, p).value, qs)
    decreases |qs|
  {
    if qs != [] {
      Commute(d, p, qs[0]);
      CommuteAll(Apply(d, qs[0]).value, p, qs[1..]);
    }
  }

  // A payload applied once more changes nothing, whatever other ids were applied in between.
  lemma ReplayChangesNothing(d: Domain, p: Payload, qs: seq<Payload>)
    requires forall q :: q in qs ==> q.id != p.id
    requires Apply(d, p).Ok? && ApplyAll(Apply(d, p).value, qs).Ok?
    ensures Apply(ApplyAll(Apply(d, p).value, qs).value, p) == ApplyAll(Apply(d, p).value, qs)
  {
    ApplyTwice(d, p);
    CommuteAll(Apply(d, p).value, p, qs);
  }
}
