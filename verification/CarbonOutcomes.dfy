/**
 * When each call of the carbon contracts succeeds, why it fails otherwise, and what it changes. The conditions are
 * those a caller can check; every checked addition behind them is shown not to fail in a sound system.
 */
module CarbonOutcomes {
  import opened Base
  import opened Bytes
  import R = CarbonRegistry
  import C = CarbonCredit
  import opened CarbonMarketplace
  import opened CarbonBooks
  import opened CarbonSystem

  // ---------------------------------------------------------------- retiring, burning, minting

  // Retired and circulating credits are together what was issued, so the retired row has room for any balance.
  lemma RetiredRowHasRoom(w: World, host: Host, from: Address, id: ProjectId, amount: int)
    requires Sound(w, host) && 0 < amount <= Balance(w.credit, from, id)
    ensures InI128(Row(w.credit.retired, id) + amount)
  {
    BalanceWithinSupply(w.credit, from, id);
    assert Row(w.credit.supply, id) + Row(w.credit.retired, id) == Issued(w, id);
  }

  // A holder may retire any part of a balance, the whole included, once per operation id.
  lemma RetirementExactly(w: World, host: Host, signers: set<Address>, from: Address, id: ProjectId, amount: int,
                          op: C.OperationId)
    requires Sound(w, host)
    ensures var r, c := w.credit.Retire(signers, from, id, amount, op), w.credit;
            && (r.Ok? <==> from in signers && c.config.Some? && op !in c.usedOps && 0 < amount <= Balance(c, from, id))
            && (r == Err(C.HostTrap) <==> from !in signers)
            && (from in signers ==>
                  && (r == Err(C.NotInitialized) <==> c.config.None?)
                  && (r == Err(C.InvalidAmount) <==> c.config.Some? && amount <= 0)
                  && (r == Err(C.AlreadyRetired) <==> c.config.Some? && amount > 0 && op in c.usedOps)
                  && (r == Err(C.InsufficientBalance)
                      <==> c.config.Some? && amount > 0 && op !in c.usedOps && amount > Balance(c, from, id)))
            && (r.Ok? ==>
                  var d := r.value.0;
                  && Books(d) && d.config == c.config && d.usedOps == c.usedOps + {op}
                  && (forall p :: Row(d.supply, p) == Row(c.supply, p) - if p == id then amount else 0)
                  && (forall p :: Row(d.retired, p) == Row(c.retired, p) + if p == id then amount else 0)
                  && (forall a, p :: Balance(d, a, p)
                                     == if a == from && p == id then Balance(c, a, p) - amount else Balance(c, a, p)))
  {
    if 0 < amount <= Balance(w.credit, from, id) {
      RetiredRowHasRoom(w, host, from, id, amount);
    }
    if w.credit.Retire(signers, from, id, amount, op).Ok? {
      RetireKeepsBooks(w.credit, signers, from, id, amount, op);
    }
  }

  lemma BurnExactly(c: C.Credit, signers: set<Address>, from: Address, id: ProjectId, amount: int)
    requires Books(c)
    ensures var r := c.Burn(signers, from, id, amount);
            && (r.Ok? <==>
                  c.config.Some? && c.config.value.marketplace in signers && 0 < amount <= Balance(c, from, id))
            && (r == Err(C.NotInitialized) <==> c.config.None?)
            && (r == Err(C.HostTrap) <==> c.config.Some? && c.config.value.marketplace !in signers)
            && (c.config.Some? && c.config.value.marketplace in signers ==>
                  && (r == Err(C.InvalidAmount) <==> amount <= 0)
                  && (r == Err(C.InsufficientBalance) <==> amount > 0 && amount > Balance(c, from, id)))
  {
    BalanceWithinSupply(c, from, id);
  }

  // Balances lie within supply, so a mint that fits the supply fits the balance.
  lemma MintExactly(c: C.Credit, signers: set<Address>, project: Option<R.Project>, to: Address, id: ProjectId,
                    amount: int)
    requires Books(c)
    ensures var r := c.Mint(signers, project, to, id, amount);
            && (r.Ok? <==>
                  && c.config.Some? && c.config.value.marketplace in signers && amount > 0
                  && project.Some? && project.value.status == R.Verified
                  && Row(c.supply, id) + amount <= I128_MAX)
            && (r == Err(C.NotInitialized) <==> c.config.None?)
            && (r == Err(C.ProjectNotVerified) <==>
                  && c.config.Some? && c.config.value.marketplace in signers && amount > 0
                  && project.Some? && project.value.status != R.Verified)
  {
    BalanceWithinSupply(c, to, id);
  }

  lemma TransferRefusals(c: C.Credit, signers: set<Address>, from: Address, to: Address, id: ProjectId, amount: int)
    requires Books(c)
    ensures var r := c.Transfer(signers, from, to, id, amount);
            && (r == Err(C.HostTrap) <==> from !in signers)
            && (r == Err(C.NotInitialized) <==> from in signers && c.config.None?)
            && (r == Err(C.InvalidAmount) <==> from in signers && c.config.Some? && amount <= 0)
            && (r == Err(C.InsufficientBalance)
                <==> from in signers && c.config.Some? && from != to && amount > 0 && amount > Balance(c, from, id))
  {
    TransferKeepsBooks(c, signers, from, to, id, amount);
  }

  // Whatever is stored, no accepted call leaves a row it raises outside the i128 range.
  lemma RaisedRowsStayInRange(c: C.Credit, signers: set<Address>, project: Option<R.Project>, from: Address,
                              to: Address, id: ProjectId, amount: int, op: C.OperationId)
    ensures var r := c.Mint(signers, project, to, id, amount);
            r.Ok? ==> InI128(Balance(r.value.0, to, id)) && InI128(Row(r.value.0.supply, id))
    ensures var r := c.Transfer(signers, from, to, id, amount);
            r.Ok? && from != to ==> InI128(Balance(r.value.0, to, id))
    ensures var r := c.Retire(signers, from, id, amount, op);
            r.Ok? ==> InI128(Row(r.value.0.retired, id))
  {
  }

  // ---------------------------------------------------------------- issuing

  /** Whom the two contracts obey: a call of the marketplace itself. */
  predicate SetUp(w: World) {
    w.registry.config.Some? && w.credit.config.Some?
  }

  predicate Issuable(w: World, id: ProjectId, amount: int) {
    && id in w.registry.projects && w.registry.projects[id].status == R.Verified
    && 0 < amount <= w.registry.projects[id].totalCredits - w.registry.projects[id].issuedCredits
  }

  lemma MintLegHasRoom(w: World, host: Host, id: ProjectId, amount: int)
    requires Sound(w, host) && Issuable(w, id, amount)
    ensures Row(w.credit.supply, id) + amount <= I128_MAX
    ensures w.registry.projects[id].issuedCredits + amount <= I128_MAX
  {
    assert Row(w.credit.supply, id) + Row(w.credit.retired, id) == Issued(w, id);
  }

  lemma IssueLegExactly(w: World, host: Host, signers: set<Address>, id: ProjectId, amount: int)
    requires Sound(w, host) && amount > 0
    ensures var r := w.registry.IssueCredits(signers + {host.self}, id, amount);
            && (r.Ok? <==> w.registry.config.Some? && Issuable(w, id, amount))
            && (r.Ok? ==>
                  var p := w.registry.projects[id];
                  r.value.0 == R.Registry(w.registry.config, w.registry.projects[id :=
                                   R.Project(p.owner, p.name, p.totalCredits, p.issuedCredits + amount, p.status,
                                       p.vintageYear)]))
  {
    if Issuable(w, id, amount) {
      MintLegHasRoom(w, host, id, amount);
    }
  }

  // Credits are issued exactly when the market's administrator signed, the market runs and the project is verified
  // with enough of its allocation left; the owner's balance, the supply and the issued figure rise by the amount, and
  // nothing else changes.
  lemma IssuanceExactly(w: World, host: Host, signers: set<Address>, id: ProjectId, amount: int)
    requires Sound(w, host)
    ensures var r := w.MintProjectCredits(signers, host.self, id, amount);
            && (r.Ok? <==>
                  && w.market.config.Some? && w.market.circuit == Running && w.market.config.value.admin in signers
                  && SetUp(w) && Issuable(w, id, amount))
            && (r == Err(NotInitialized) <==> w.market.config.None?)
            && (r == Err(CircuitBreakerOpen) <==> w.market.config.Some? && w.market.circuit != Running)
            && (r == Err(InvalidAmount) <==> w.market.config.Some? && w.market.circuit == Running && amount <= 0)
            && (r.Ok? ==>
                  var v, p := r.value.0, w.registry.projects[id];
                  && v.market == w.market && v.registry.config == w.registry.config
                  && v.registry.projects == w.registry.projects[id :=
                       R.Project(p.owner, p.name, p.totalCredits, p.issuedCredits + amount, p.status, p.vintageYear)]
                  && v.credit == w.credit.(balances := v.credit.balances, supply := v.credit.supply)
                  && (forall q :: Row(v.credit.supply, q) == Row(w.credit.supply, q) + if q == id then amount else 0)
                  && (forall a, q :: Balance(v.credit, a, q)
                                     == Balance(w.credit, a, q) + if a == p.owner && q == id then amount else 0))
  {
    var r := w.MintProjectCredits(signers, host.self, id, amount);
    if w.market.config.Some? && w.market.circuit == Running && amount > 0 && w.market.config.value.admin in signers {
      IssueLegExactly(w, host, signers, id, amount);
      if w.registry.config.Some? && Issuable(w, id, amount) {
        MintLegHasRoom(w, host, id, amount);
        var issued := w.registry.IssueCredits(signers + {host.self}, id, amount).value.0;
        var owner := w.registry.projects[id].owner;
        MintExactly(w.credit, signers + {host.self}, issued.Lookup(id), owner, id, amount);
        if w.credit.config.Some? {
          MintKeepsBooks(w.credit, signers + {host.self}, issued.Lookup(id), owner, id, amount);
        }
      }
    }
  }

  // ---------------------------------------------------------------- listings

  /** Trading needs a fresh reading only once an oracle and a feed are configured. */
  predicate FeedAllows(config: MarketConfig, feed: FeedReading) {
    config.oracle.Some? && config.feedId.Some? ==> feed == Fresh
  }

  lemma FeedRefusals(config: MarketConfig, feed: FeedReading)
    ensures FeedError(config, feed) == None <==> FeedAllows(config, feed)
    ensures !FeedAllows(config, feed) ==>
              && (FeedError(config, feed) == Some(StalePriceFeed) <==> feed == Stale)
              && (FeedError(config, feed) == Some(CircuitBreakerOpen) <==> feed == OracleBreakerOpen)
              && (FeedError(config, feed) == Some(HostTrap) <==> feed == OracleTrap)
  {
  }

  predicate Trading(w: World, signers: set<Address>, who: Address, feed: FeedReading) {
    && who in signers && w.market.config.Some? && w.market.circuit == Running
    && FeedAllows(w.market.config.value, feed)
  }

  // A listing opens exactly when its seller signed, the project is verified and the balance covers the amount; nothing
  // is reserved, and the only other change is the seller's nonce.
  lemma CreationExactly(w: World, host: Host, signers: set<Address>, seller: Address, id: ProjectId, amount: I128,
                        price: I128, ledger: U32, feed: FeedReading)
    ensures var r := w.CreateListing(signers, host, seller, id, amount, price, ledger, feed);
            && (r.Ok? <==>
                  && Trading(w, signers, seller, feed) && amount > 0 && price > 0
                  && id in w.registry.projects && w.registry.projects[id].status == R.Verified
                  && amount <= Balance(w.credit, seller, id)
                  && 0 <= Row(w.market.nonces, seller) < 0xFFFF_FFFF_FFFF_FFFF)
            && (r == Err(InvalidAmount) <==> Trading(w, signers, seller, feed) && (amount <= 0 || price <= 0))
            && (r == Err(ProjectNotVerified) <==>
                  && Trading(w, signers, seller, feed) && amount > 0 && price > 0
                  && id in w.registry.projects && w.registry.projects[id].status != R.Verified)
            && (r == Err(InsufficientFunds) <==>
                  && Trading(w, signers, seller, feed) && amount > 0 && price > 0
                  && id in w.registry.projects && w.registry.projects[id].status == R.Verified
                  && Balance(w.credit, seller, id) < amount)
            && (r.Ok? ==>
                  var (v, lid) := r.value;
                  && v.registry == w.registry && v.credit == w.credit
                  && v.market == Market(w.market.config, w.market.circuit,
                                        w.market.listings[lid := Listing(seller, id, amount, price, Active)],
                                        v.market.nonces)
                  && forall a :: Row(v.market.nonces, a)
                                 == Row(w.market.nonces, a) + if a == seller then 1 else 0)
  {
    if w.market.config.Some? {
      FeedRefusals(w.market.config.value, feed);
    }
  }

  lemma CancellationExactly(w: World, signers: set<Address>, seller: Address, lid: ListingId)
    ensures var r := w.CancelListing(signers, seller, lid);
            && (r.Ok? <==>
                  && seller in signers && w.market.config.Some? && w.market.circuit == Running
                  && lid in w.market.listings && w.market.listings[lid].status == Active
                  && w.market.listings[lid].seller == seller)
            && (r == Err(ListingNotFound) <==>
                  && seller in signers && w.market.config.Some? && w.market.circuit == Running
                  && lid !in w.market.listings)
            && (r == Err(Unauthorized) <==>
                  && seller in signers && w.market.config.Some? && w.market.circuit == Running
                  && lid in w.market.listings && w.market.listings[lid].status == Active
                  && w.market.listings[lid].seller != seller)
            && (r.Ok? ==>
                  var v, l := r.value.0, w.market.listings[lid];
                  && v.registry == w.registry && v.credit == w.credit
                  && v.market == Market(w.market.config, w.market.circuit,
                                        w.market.listings[lid := Listing(seller, l.projectId, l.amount, l.price,
                                            Cancelled)], w.market.nonces))
  {
  }

  /** A buyer's call in time, on a listing that is open. */
  predicate Buying(w: World, signers: set<Address>, buyer: Address, lid: ListingId, maxLedger: U32, ledger: U32,
                   feed: FeedReading) {
    && Trading(w, signers, buyer, feed) && ledger <= maxLedger
    && lid in w.market.listings && w.market.listings[lid].status == Active
  }

  // Why a purchase is refused, in the order of the checks.
  lemma PurchaseRefusals(w: World, host: Host, signers: set<Address>, buyer: Address, lid: ListingId, payment: int,
                         maxLedger: U32, ledger: U32, feed: FeedReading)
    requires Sound(w, host)
    ensures var r := w.PurchaseListing(signers, host.self, buyer, lid, payment, maxLedger, ledger, feed);
            && (r == Err(TransactionExpired) <==> Trading(w, signers, buyer, feed) && maxLedger < ledger)
            && (r == Err(ListingNotFound)
                <==> Trading(w, signers, buyer, feed) && ledger <= maxLedger && lid !in w.market.listings)
            && (r == Err(ListingNotActive)
                <==> Trading(w, signers, buyer, feed) && ledger <= maxLedger && lid in w.market.listings
                     && w.market.listings[lid].status != Active)
            && (Buying(w, signers, buyer, lid, maxLedger, ledger, feed) ==>
                  var l := w.market.listings[lid];
                  && (r == Err(InvalidAmount) <==> !InI128(l.price * l.amount))
                  && (r == Err(InsufficientFunds) <==> InI128(l.price * l.amount) && payment < l.price * l.amount)
                  && (r == Err(ProjectNotVerified)
                      <==> InI128(l.price * l.amount) && l.price * l.amount <= payment
                           && l.projectId in w.registry.projects
                           && w.registry.projects[l.projectId].status != R.Verified))
  {
    if w.market.config.Some? {
      FeedRefusals(w.market.config.value, feed);
    }
  }

  // ---------------------------------------------------------------- registry and settings

  // Anybody may register: the record starts pending with nothing issued, under the digest of the encoded fields.
  lemma RegistrationExactly(s: R.Registry, signers: set<Address>, encode: R.ProjectBytes, owner: Address, name: string,
                            total: int, year: U32)
    ensures var r := s.RegisterProject(signers, encode, owner, name, total, year);
            && (r.Ok? <==> owner in signers && s.config.Some? && total > 0)
            && (r == Err(R.HostTrap) <==> owner !in signers)
            && (r == Err(R.NotInitialized) <==> owner in signers && s.config.None?)
            && (r == Err(R.InvalidAmount) <==> owner in signers && s.config.Some? && total <= 0)
            && (r.Ok? ==>
                  var id := r.value.1;
                  && id.preimage == encode(owner, name, year)
                  && r.value.0 == R.Registry(s.config,
                                    s.projects[id := R.Project(owner, name, total, 0, R.Pending, year)]))
  {
  }

  lemma StatusExactly(s: R.Registry, signers: set<Address>, id: ProjectId, status: R.ProjectStatus)
    ensures var r := s.SetStatus(signers, id, status);
            && (r.Ok? <==> s.config.Some? && s.config.value.admin in signers && id in s.projects)
            && (r == Err(R.NotInitialized) <==> s.config.None?)
            && (r == Err(R.HostTrap) <==> s.config.Some? && s.config.value.admin !in signers)
            && (r.Ok? ==>
                  var p := s.projects[id];
                  r.value.0 == R.Registry(s.config, s.projects[id :=
                                 R.Project(p.owner, p.name, p.totalCredits, p.issuedCredits, status, p.vintageYear)]))
  {
  }

  lemma IssueRefusals(s: R.Registry, signers: set<Address>, id: ProjectId, amount: int)
    ensures var r := s.IssueCredits(signers, id, amount);
            && (r == Err(R.NotInitialized) <==> s.config.None?)
            && (r == Err(R.HostTrap) <==> s.config.Some? && s.config.value.marketplace !in signers)
            && (s.config.Some? && s.config.value.marketplace in signers && amount <= 0 ==> r == Err(R.InvalidAmount))
            && (s.config.Some? && s.config.value.marketplace in signers && amount > 0 ==>
                  && (r == Err(R.ProjectNotFound) <==> id !in s.projects)
                  && (id in s.projects ==>
                        var p := s.projects[id];
                        && (r == Err(R.ProjectSuspended) <==> p.status == R.Suspended)
                        && (r == Err(R.ProjectNotVerified) <==> p.status == R.Pending || p.status == R.Retired)
                        && (r == Err(R.InvalidAmount)
                            <==> p.status == R.Verified && !InI128(p.issuedCredits + amount))
                        && (p.status == R.Verified && InI128(p.issuedCredits + amount) ==>
                              (r == Err(R.InsufficientCredits) <==> p.totalCredits < p.issuedCredits + amount))))
  {
  }

  // Each contract is initialised once, by anybody; the marketplace's settings move with its administrator's signature.
  lemma SettingsExactly(w: World, signers: set<Address>, admin: Address, market: Address, oracle: Address,
                        feedId: Bytes32, maxAge: I64, circuit: CircuitBreaker)
    ensures w.registry.Initialize(admin, market)
            == if w.registry.config.Some? then Err(R.AlreadyInitialized)
               else Ok((R.Registry(Some(R.RegistryConfig(admin, market)), w.registry.projects), ()))
    ensures w.credit.Initialize(admin, market)
            == if w.credit.config.Some? then Err(C.AlreadyInitialized)
               else Ok((w.credit.(config := Some(C.CreditConfig(admin, market))), ()))
    ensures w.Initialize(admin).Ok? <==> w.market.config.None?
    ensures w.Initialize(admin).Ok? ==>
              w.Initialize(admin).value.0 == w.(market := w.market.(config := Some(MarketConfig(admin, None, None, 0))))
    ensures var entitled := w.market.config.Some? && admin in signers && admin == w.market.config.value.admin;
            && (w.ConfigureOracle(signers, admin, oracle, feedId, maxAge)
                == Ok((w.(market := w.market.(config := Some(MarketConfig(admin, Some(oracle), Some(feedId), maxAge)))),
                       ()))
                <==> entitled)
            && (w.ConfigureOracle(signers, admin, oracle, feedId, maxAge).Ok? <==> entitled)
            && (w.SetCircuit(signers, admin, circuit).Ok? <==> entitled)
            && (entitled ==> w.SetCircuit(signers, admin, circuit).value.0
                             == World(w.registry, w.credit, Market(w.market.config, circuit, w.market.listings,
                                                                   w.market.nonces)))
  {
  }
}
