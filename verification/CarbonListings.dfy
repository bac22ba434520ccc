/** Listing ids: when a new listing lands on a stored one, and what listings keep over whole runs. */
module CarbonListings {
  import opened Base
  import opened Bytes
  import opened CarbonMarketplace
  import opened CarbonSystem
  import R = CarbonRegistry
  import C = CarbonCredit
  import CarbonBooks

  // ---------------------------------------------------------------- the 108 bytes

  lemma StampInjective(ledger: U32, nonce: nat, ledger': U32, nonce': nat)
    requires nonce <= U64_MAX && nonce' <= U64_MAX
    requires Stamp(ledger, nonce) == Stamp(ledger', nonce')
    ensures ledger == ledger' && nonce == nonce'
  {
    var s, s' := Stamp(ledger, nonce), Stamp(ledger', nonce');
    assert Octets(BigEndian(ledger, 4)) == s[..4] && Octets(BigEndian(ledger', 4)) == s'[..4];
    assert Octets(BigEndian(nonce, 8)) == s[4..] && Octets(BigEndian(nonce', 8)) == s'[4..];
    OctetsInjective(BigEndian(ledger, 4), BigEndian(ledger', 4));
    OctetsInjective(BigEndian(nonce, 8), BigEndian(nonce', 8));
    WordSizes();
    BigEndianInjective(ledger, ledger', 4);
    BigEndianInjective(nonce, nonce', 8);
  }

  // The fields have fixed widths, so equal messages come from equal fields.
  lemma PreimageInjective(seller: seq<Byte>, id: ProjectId, amount: I128, price: I128, ledger: U32, nonce: nat,
                          seller': seq<Byte>, id': ProjectId, amount': I128, price': I128, ledger': U32, nonce': nat)
    requires nonce <= U64_MAX && nonce' <= U64_MAX
    requires Preimage(seller, id, amount, price, ledger, nonce)
             == Preimage(seller', id', amount', price', ledger', nonce')
    ensures seller == seller' && id == id' && amount == amount' && price == price'
    ensures ledger == ledger' && nonce == nonce'
  {
    var m := Preimage(seller, id, amount, price, ledger, nonce);
    var m' := Preimage(seller', id', amount', price', ledger', nonce');
    assert Parts(Digest(seller)) == m[..32] && Parts(Digest(seller')) == m'[..32];
    assert Parts(id) == m[32..64] && Parts(id') == m'[32..64];
    assert Octets(I128Bytes(amount)) == m[64..80] && Octets(I128Bytes(amount')) == m'[64..80];
    assert Octets(I128Bytes(price)) == m[80..96] && Octets(I128Bytes(price')) == m'[80..96];
    assert Stamp(ledger, nonce) == m[96..] && Stamp(ledger', nonce') == m'[96..];
    PartsInjective(Digest(seller), Digest(seller'));
    PartsInjective(id, id');
    OctetsInjective(I128Bytes(amount), I128Bytes(amount'));
    OctetsInjective(I128Bytes(price), I128Bytes(price'));
    I128Injective(amount, amount');
    I128Injective(price, price');
    StampInjective(ledger, nonce, ledger', nonce');
  }

  // ---------------------------------------------------------------- stamped listings

  function IdOf(host: Host, l: Listing, ledger: U32, nonce: nat): ListingId {
    OuterDigest(Preimage(host.sellerBytes(l.seller), l.projectId, l.amount, l.price, ledger, nonce))
  }

  /** The listing was stored under an id made of its own fields and a nonce its seller has spent. */
  ghost predicate Stamped(w: World, host: Host, lid: ListingId, l: Listing) {
    exists ledger: U32, nonce: nat :: nonce < Row(w.market.nonces, l.seller) && lid == IdOf(host, l, ledger, nonce)
  }

  ghost predicate ListingsStamped(w: World, host: Host) {
    && (forall a :: 0 <= Row(w.market.nonces, a) <= U64_MAX)
    && forall lid :: lid in w.market.listings ==> Stamped(w, host, lid, w.market.listings[lid])
  }

  /** Stored listings stay, keep their terms, and never change once closed. */
  ghost predicate ListingsKept(w: World, v: World) {
    forall lid :: lid in w.market.listings ==>
      && lid in v.market.listings
      && var l, m := w.market.listings[lid], v.market.listings[lid];
         m == l.(status := m.status) && (l.status != Active ==> m == l)
  }

  /** Somebody else's stored listing has the terms, seller bytes, ledger and nonce of the new one. */
  ghost predicate Clashes(host: Host, prior: ListingId, l: Listing, seller: Address, id: ProjectId, amount: I128,
                          price: I128,
                          ledger: U32, nonce: nat)
  {
    && l.seller != seller && host.sellerBytes(l.seller) == host.sellerBytes(seller)
    && l.projectId == id && l.amount == amount && l.price == price
    && |prior.message| == 108 && prior.message[96..] == Stamp(ledger, nonce)
  }

  lemma ClashIsSameId(host: Host, w: World, prior: ListingId, seller: Address, id: ProjectId, amount: I128, price: I128,
                      ledger: U32, nonce: nat)
    requires ListingsStamped(w, host) && prior in w.market.listings
    requires Clashes(host, prior, w.market.listings[prior], seller, id, amount, price, ledger, nonce)
    ensures prior == OuterDigest(Preimage(host.sellerBytes(seller), id, amount, price, ledger, nonce))
  {
    var l := w.market.listings[prior];
    assert Stamped(w, host, prior, l);
    var ledger': U32, nonce': nat :| nonce' < Row(w.market.nonces, l.seller) && prior == IdOf(host, l, ledger', nonce');
    assert prior.message[96..] == Stamp(ledger', nonce');
    assert prior.message == prior.message[..96] + Stamp(ledger, nonce);
    var new' := Preimage(host.sellerBytes(seller), id, amount, price, ledger, nonce);
    assert prior.message[..96] == new'[..96];
    assert new' == new'[..96] + Stamp(ledger, nonce);
  }

  lemma SameIdIsClash(host: Host, w: World, prior: ListingId, seller: Address, id: ProjectId, amount: I128, price: I128,
                      ledger: U32)
    requires ListingsStamped(w, host) && prior in w.market.listings
    requires prior
             == OuterDigest(Preimage(host.sellerBytes(seller), id, amount, price, ledger, Row(w.market.nonces, seller)))
    ensures Clashes(host, prior, w.market.listings[prior], seller, id, amount, price, ledger,
            Row(w.market.nonces, seller))
  {
    var l, nonce := w.market.listings[prior], Row(w.market.nonces, seller);
    assert Stamped(w, host, prior, l);
    var ledger': U32, nonce': nat :| nonce' < Row(w.market.nonces, l.seller) && prior == IdOf(host, l, ledger', nonce');
    PreimageInjective(host.sellerBytes(seller), id, amount, price, ledger, nonce,
                      host.sellerBytes(l.seller), l.projectId, l.amount, l.price, ledger', nonce');
  }

  lemma CreationStamps(w: World, host: Host, signers: set<Address>, seller: Address, id: ProjectId, amount: I128,
                       price: I128, ledger: U32, feed: FeedReading)
    requires ListingsStamped(w, host) && w.CreateListing(signers, host, seller, id, amount, price, ledger, feed).Ok?
    ensures ListingsStamped(w.CreateListing(signers, host, seller, id, amount, price, ledger, feed).value.0, host)
  {
    var (v, lid) := w.CreateListing(signers, host, seller, id, amount, price, ledger, feed).value;
    forall a ensures Row(v.market.nonces, a) == Row(w.market.nonces, a) + if a == seller then 1 else 0 {
    }
    assert lid == IdOf(host, v.market.listings[lid], ledger, Row(w.market.nonces, seller));
    forall l | l in v.market.listings ensures Stamped(v, host, l, v.market.listings[l]) {
      if l != lid {
        assert Stamped(w, host, l, w.market.listings[l]);
      }
    }
  }

  // Exactly when a new listing lands on a stored one, and then it takes its place.
  lemma CreationCollides(w: World, host: Host, signers: set<Address>, seller: Address, id: ProjectId, amount: I128,
                         price: I128, ledger: U32, feed: FeedReading)
    requires ListingsStamped(w, host) && w.CreateListing(signers, host, seller, id, amount, price, ledger, feed).Ok?
    ensures var (v, lid) := w.CreateListing(signers, host, seller, id, amount, price, ledger, feed).value;
            && (lid in w.market.listings <==>
                  exists prior :: prior in w.market.listings
                    && Clashes(host, prior, w.market.listings[prior], seller, id, amount, price, ledger,
                               Row(w.market.nonces, seller)))
            && (ListingsKept(w, v) <==> lid !in w.market.listings)
  {
    var (v, lid) := w.CreateListing(signers, host, seller, id, amount, price, ledger, feed).value;
    if lid in w.market.listings {
      SameIdIsClash(host, w, lid, seller, id, amount, price, ledger);
    }
    forall prior | prior in w.market.listings
                   && Clashes(host, prior, w.market.listings[prior], seller, id, amount, price, ledger,
                              Row(w.market.nonces, seller))
      ensures prior == lid
    {
      ClashIsSameId(host, w, prior, seller, id, amount, price, ledger, Row(w.market.nonces, seller));
    }
  }

  // ---------------------------------------------------------------- whole runs

  predicate LandsOnStored(w: World, host: Host, call: Call) {
    call.CreateListing? &&
    var r := w.CreateListing(call.signers, host, call.seller, call.id, call.amount, call.price, call.ledger, call.feed);
    r.Ok? && r.value.1 in w.market.listings
  }

  // Any other call leaves the nonces, opens no listing and keeps the stored ones.
  lemma OthersKeepListings(w: World, host: Host, call: Call)
    requires !call.CreateListing?
    ensures var v := Apply(w, host, call);
            && v.market.nonces == w.market.nonces && v.market.listings.Keys == w.market.listings.Keys
            && ListingsKept(w, v)
  {
  }

  lemma StampsCarryOver(w: World, v: World, host: Host)
    requires ListingsStamped(w, host) && ListingsKept(w, v)
    requires v.market.nonces == w.market.nonces && v.market.listings.Keys == w.market.listings.Keys
    ensures ListingsStamped(v, host)
  {
    forall lid | lid in v.market.listings ensures Stamped(v, host, lid, v.market.listings[lid]) {
      var l := w.market.listings[lid];
      assert Stamped(w, host, lid, l);
      var ledger: U32, nonce: nat :| nonce < Row(w.market.nonces, l.seller) && lid == IdOf(host, l, ledger, nonce);
      assert lid == IdOf(host, v.market.listings[lid], ledger, nonce);
    }
  }

  // Every call keeps the stored listings, unless it is a creation that lands on one.
  lemma ListingsStep(w: World, host: Host, call: Call)
    requires ListingsStamped(w, host)
    ensures var v := Apply(w, host, call);
            ListingsStamped(v, host) && (ListingsKept(w, v) <==> !LandsOnStored(w, host, call))
  {
    var v := Apply(w, host, call);
    if call.CreateListing? {
      if v != w {
        CreationStamps(w, host, call.signers, call.seller, call.id, call.amount, call.price, call.ledger, call.feed);
        CreationCollides(w, host, call.signers, call.seller, call.id, call.amount, call.price, call.ledger, call.feed);
      }
    } else {
      OthersKeepListings(w, host, call);
      StampsCarryOver(w, v, host);
    }
  }

  ghost predicate SellersApart(host: Host, sellers: set<Address>) {
    forall a, b :: a in sellers && b in sellers && host.sellerBytes(a) == host.sellerBytes(b) ==> a == b
  }

  ghost predicate SoldBy(w: World, sellers: set<Address>) {
    forall lid :: lid in w.market.listings ==> w.market.listings[lid].seller in sellers
  }

  ghost predicate ListedBy(calls: seq<Call>, sellers: set<Address>) {
    forall call :: call in calls && call.CreateListing? ==> call.seller in sellers
  }

  lemma ApartSellersNeverCollide(w: World, host: Host, call: Call, sellers: set<Address>)
    requires ListingsStamped(w, host) && SellersApart(host, sellers) && SoldBy(w, sellers)
    requires call.CreateListing? ==> call.seller in sellers
    ensures !LandsOnStored(w, host, call)
  {
    if LandsOnStored(w, host, call) {
      CreationCollides(w, host, call.signers, call.seller, call.id, call.amount, call.price, call.ledger, call.feed);
    }
  }

  lemma SellersStay(w: World, host: Host, call: Call, sellers: set<Address>)
    requires SoldBy(w, sellers) && (call.CreateListing? ==> call.seller in sellers)
    ensures SoldBy(Apply(w, host, call), sellers)
  {
    if !call.CreateListing? {
      OthersKeepListings(w, host, call);
    }
  }

  lemma ListingsKeptTransitive(w: World, v: World, z: World)
    requires ListingsKept(w, v) && ListingsKept(v, z)
    ensures ListingsKept(w, z)
  {
  }

  // While the host tells the sellers apart, no run loses a listing, alters its terms or reopens it.
  lemma {:induction false} EveryRunKeepsListings(w: World, host: Host, calls: seq<Call>, sellers: set<Address>)
    requires ListingsStamped(w, host) && SellersApart(host, sellers) && SoldBy(w, sellers) && ListedBy(calls, sellers)
    ensures ListingsStamped(Run(w, host, calls), host) && ListingsKept(w, Run(w, host, calls))
    decreases |calls|
  {
    if calls != [] {
      assert calls[0] in calls;
      var v := Apply(w, host, calls[0]);
      ListingsStep(w, host, calls[0]);
      ApartSellersNeverCollide(w, host, calls[0], sellers);
      SellersStay(w, host, calls[0], sellers);
      EveryRunKeepsListings(v, host, calls[1..], sellers);
      ListingsKeptTransitive(w, v, Run(v, host, calls[1..]));
    }
  }

  // ---------------------------------------------------------------- the fallback

  /** Seller 1 hands two of five credits to seller 2, lists one credit and sells it to buyer 3, all in ledger 9. */
  const SELL_ONE: seq<Call> := [Transfer({1}, 1, 2, FOREST, 2), CreateListing({1}, 1, FOREST, 1, 1, 9, Fresh),
                                PurchaseListing({3}, 3, FIRST_LISTING, 1, 9, 9, Fresh)]
  const LIST_AGAIN := CreateListing({2}, 2, FOREST, 1, 1, 9, Fresh)
  const FIRST_LISTING := OuterDigest(Preimage([], FOREST, 1, 1, 9, 0))

  const MARKET_SET := Some(MarketConfig(0, None, None, 0))

  predicate Fives(w: World) {
    && w.registry.projects == map[FOREST := R.Project(1, "forest", 10, 5, R.Verified, 2024)]
    && w.credit.supply == map[FOREST := 5] && w.credit.config == Some(C.CreditConfig(0, MARKET))
  }

  // One credit of seller 1 listed, two credits with seller 2.
  lemma OneListed(five: World) returns (w: World)
    requires five == Run(EMPTY, FALLBACK, SET_UP + ISSUE_FIVE)
    ensures w == Apply(Apply(five, FALLBACK, SELL_ONE[0]), FALLBACK, SELL_ONE[1])
    ensures Fives(w) && w.credit.balances == map[(1, FOREST) := 3, (2, FOREST) := 2]
    ensures w.market == Market(MARKET_SET, Running, map[FIRST_LISTING := Listing(1, FOREST, 1, 1, Active)], map[1 := 1])
  {
    var same := FiveIssued();
    var shared := Apply(five, FALLBACK, SELL_ONE[0]);
    assert shared.credit.balances == map[(1, FOREST) := 3, (2, FOREST) := 2];
    w := Apply(shared, FALLBACK, SELL_ONE[1]);
    assert w.market.listings == map[FIRST_LISTING := Listing(1, FOREST, 1, 1, Active)];
  }

  lemma OneSold(w: World)
    requires Fives(w) && w.credit.balances == map[(1, FOREST) := 3, (2, FOREST) := 2]
    requires w.market
             == Market(MARKET_SET, Running, map[FIRST_LISTING := Listing(1, FOREST, 1, 1, Active)], map[1 := 1])
    ensures var v := Apply(w, FALLBACK, SELL_ONE[2]);
            && v.registry == w.registry && Row(v.credit.balances, (2, FOREST)) == 2
            && v.market == w.market.(listings := map[FIRST_LISTING := Listing(1, FOREST, 1, 1, Sold)])
  {
    assert Apply(w, FALLBACK, SELL_ONE[2]).market.listings == map[FIRST_LISTING := Listing(1, FOREST, 1, 1, Sold)];
  }

  lemma OneListedAgain(w: World)
    requires w.registry.projects == map[FOREST := R.Project(1, "forest", 10, 5, R.Verified, 2024)]
    requires Row(w.credit.balances, (2, FOREST)) == 2
    requires w.market == Market(MARKET_SET, Running, map[FIRST_LISTING := Listing(1, FOREST, 1, 1, Sold)], map[1 := 1])
    ensures Apply(w, FALLBACK, LIST_AGAIN).market.listings == map[FIRST_LISTING := Listing(2, FOREST, 1, 1, Active)]
  {
  }

  // With empty seller bytes, seller 2's first listing in the same ledger replaces seller 1's sold one and is for sale
  // again.
  lemma EmptySellerBytesLoseListing()
    ensures var w := Run(EMPTY, FALLBACK, SET_UP + ISSUE_FIVE + SELL_ONE);
            var v := Apply(w, FALLBACK, LIST_AGAIN);
            && w.market.listings == map[FIRST_LISTING := Listing(1, FOREST, 1, 1, Sold)]
            && v.market.listings == map[FIRST_LISTING := Listing(2, FOREST, 1, 1, Active)]
  {
    var five := Run(EMPTY, FALLBACK, SET_UP + ISSUE_FIVE);
    RunConcat(EMPTY, FALLBACK, SET_UP + ISSUE_FIVE, SELL_ONE);
    RunOfThree(five, FALLBACK, SELL_ONE[0], SELL_ONE[1], SELL_ONE[2]);
    var listed := OneListed(five);
    OneSold(listed);
    OneListedAgain(Apply(listed, FALLBACK, SELL_ONE[2]));
  }
}
