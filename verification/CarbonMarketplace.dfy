/** Listings, purchases and issuance over the registry and the credit contract: contracts/carbon_marketplace. */
module CarbonMarketplace {
  import opened Base
  import opened Bytes
  import R = CarbonRegistry
  import C = CarbonCredit

  type ProjectId = R.ProjectId

  datatype ListingStatus = Active | Sold | Cancelled

  datatype CircuitBreaker = Running | Tripped | AdminPaused

  type ListingId = OuterDigest

  datatype Listing = Listing(seller: Address, projectId: ProjectId, amount: I128, price: I128, status: ListingStatus)

  /**
   * What the host gives the contracts: the marketplace's own address, the bytes it makes of a seller's address
   * (nothing, where the conversion fails and the contract falls back to an empty buffer), and those of a project.
   */
  datatype Host = Host(self: Address, sellerBytes: Address -> seq<Byte>, projectBytes: R.ProjectBytes)

  /** The 108 bytes hashed into a listing id: five fields of fixed width after the digest of the seller's bytes. */
  function Preimage(seller: seq<Byte>, id: ProjectId, amount: I128, price: I128, ledger: U32, nonce: nat)
    : (message: seq<Symbol>)
    ensures |message| == 108
  {
    Parts(Digest(seller)) + Parts(id) + Octets(I128Bytes(amount)) + Octets(I128Bytes(price)) + Stamp(ledger, nonce)
  }

  /** Ledger number and seller nonce, the last twelve bytes. */
  function Stamp(ledger: U32, nonce: nat): (message: seq<Symbol>)
    ensures |message| == 12
  {
    Octets(BigEndian(ledger, 4)) + Octets(BigEndian(nonce, 8))
  }

  /** What the configured oracle answers for the configured feed and age. */
  datatype FeedReading = Fresh | Stale | OracleBreakerOpen | OracleTrap

  datatype MarketConfig = MarketConfig(
    admin: Address,
    oracle: Option<Address>,
    feedId: Option<Bytes32>,
    maxPriceAge: I64)

  datatype MarketError =
    | AlreadyInitialized
    | NotInitialized
    | Unauthorized
    | ListingNotFound
    | ListingNotActive
    | InsufficientFunds
    | InvalidAmount
    | ProjectNotVerified
    | TransactionExpired
    | CircuitBreakerOpen
    | StalePriceFeed
    | HostTrap // a failed `require_auth`, a failed cross-contract call or a checked overflow

  datatype Market = Market(
    config: Option<MarketConfig>,
    circuit: CircuitBreaker,
    listings: map<ListingId, Listing>,
    nonces: map<Address, int>)

  type Outcome<T> = Result<(World, T), MarketError>

  function FeedError(config: MarketConfig, feed: FeedReading): Option<MarketError> {
    if config.oracle.None? || config.feedId.None? then None
    else match feed
      case Fresh => None
      case Stale => Some(StalePriceFeed)
      case OracleBreakerOpen => Some(CircuitBreakerOpen)
      case OracleTrap => Some(HostTrap)
  }

  const EMPTY := World(R.EMPTY, C.EMPTY, Market(None, Running, map[], map[]))

  /** The three contracts as one system. `self` is the marketplace's own address. */
  datatype World = World(registry: R.Registry, credit: C.Credit, market: Market) {
    function Initialize(admin: Address): Outcome<()> {
      if market.config.Some? then Err(AlreadyInitialized)
      else Ok((this.(market := market.(config := Some(MarketConfig(admin, None, None, 0)))), ()))
    }

    function ConfigureOracle(signers: set<Address>, admin: Address, oracle: Address, feedId: Bytes32, maxAge: I64)
      : Outcome<()>
    {
      if market.config.None? then Err(NotInitialized)
      else if admin !in signers then Err(HostTrap)
      else if admin != market.config.value.admin then Err(Unauthorized)
      else
        var settings := market.config.value.(oracle := Some(oracle), feedId := Some(feedId), maxPriceAge := maxAge);
        Ok((this.(market := market.(config := Some(settings))), ()))
    }

    function SetCircuit(signers: set<Address>, admin: Address, circuit: CircuitBreaker): Outcome<()> {
      if market.config.None? then Err(NotInitialized)
      else if admin !in signers then Err(HostTrap)
      else if admin != market.config.value.admin then Err(Unauthorized)
      else Ok((this.(market := market.(circuit := circuit)), ()))
    }

    function CreateListing(signers: set<Address>, host: Host, seller: Address, id: ProjectId, amount: I128, price: I128,
        ledger: U32, feed: FeedReading): Outcome<ListingId>
    {
      if seller !in signers then Err(HostTrap)
      else if market.config.None? then Err(NotInitialized)
      else if market.circuit != Running then Err(CircuitBreakerOpen)
      else if FeedError(market.config.value, feed).Some? then Err(FeedError(market.config.value, feed).value)
      else if amount <= 0 || price <= 0 then Err(InvalidAmount)
      else if id !in registry.projects then Err(HostTrap)
      else if registry.projects[id].status != R.Verified then Err(ProjectNotVerified)
      else if Row(credit.balances, (seller, id)) < amount then Err(InsufficientFunds)
      else
        var nonce := Row(market.nonces, seller);
        if !(0 <= nonce < U64_MAX) then Err(HostTrap)
        else
          var lid := OuterDigest(Preimage(host.sellerBytes(seller), id, amount, price, ledger, nonce));
          Ok((this.(market := market.(
            nonces := market.nonces[seller := nonce + 1],
            listings := market.listings[lid := Listing(seller, id, amount, price, Active)])), lid))
    }

    function PurchaseListing(signers: set<Address>, self: Address, buyer: Address, lid: ListingId, payment: int,
        maxLedger: U32, ledger: U32, feed: FeedReading): Outcome<()>
    {
      if buyer !in signers then Err(HostTrap)
      else if market.config.None? then Err(NotInitialized)
      else if market.circuit != Running then Err(CircuitBreakerOpen)
      else if FeedError(market.config.value, feed).Some? then Err(FeedError(market.config.value, feed).value)
      else if ledger > maxLedger then Err(TransactionExpired)
      else if lid !in market.listings then Err(ListingNotFound)
      else
        var l := market.listings[lid];
        if l.status != Active then Err(ListingNotActive)
        else if !InI128(l.price * l.amount) then Err(InvalidAmount)
        else if payment < l.price * l.amount then Err(InsufficientFunds)
        else if l.projectId !in registry.projects then Err(HostTrap)
        else if registry.projects[l.projectId].status != R.Verified then Err(ProjectNotVerified)
        else
          var burnt := credit.Burn(signers + {self}, l.seller, l.projectId, l.amount);
          if burnt.Err? then Err(HostTrap)
          else
            var minted := burnt.value.0.Mint(signers + {self}, registry.Lookup(l.projectId), buyer, l.projectId,
                l.amount);
            if minted.Err? then Err(HostTrap)
            else Ok((this.(credit := minted.value.0,
                           market := market.(listings := market.listings[lid := l.(status := Sold)])), ()))
    }

    function CancelListing(signers: set<Address>, seller: Address, lid: ListingId): Outcome<()> {
      if seller !in signers then Err(HostTrap)
      else if market.config.None? then Err(NotInitialized)
      else if market.circuit != Running then Err(CircuitBreakerOpen)
      else if lid !in market.listings then Err(ListingNotFound)
      else
        var l := market.listings[lid];
        if l.status != Active then Err(ListingNotActive)
        else if l.seller != seller then Err(Unauthorized)
        else Ok((this.(market := market.(listings := market.listings[lid := l.(status := Cancelled)])), ()))
    }

    function MintProjectCredits(signers: set<Address>, self: Address, id: ProjectId, amount: int): Outcome<()> {
      if market.config.None? then Err(NotInitialized)
      else if market.circuit != Running then Err(CircuitBreakerOpen)
      else if amount <= 0 then Err(InvalidAmount)
      else if market.config.value.admin !in signers then Err(HostTrap)
      else
        var issued := registry.IssueCredits(signers + {self}, id, amount);
        if issued.Err? then Err(HostTrap)
        else
          var project := issued.value.0.Lookup(id);
          var minted := credit.Mint(signers + {self}, project, project.value.owner, id, amount);
          if minted.Err? then Err(HostTrap)
          else Ok((this.(registry := issued.value.0, credit := minted.value.0), ()))
    }
  }

  /** The marketplace over its mutable storage and the two contracts it calls. */
  class MarketContract {
    var config: Option<MarketConfig>
    var circuit: CircuitBreaker
    var listings: map<ListingId, Listing>
    var nonces: map<Address, int>
    const host: Host
    const registry: R.RegistryContract
    const credit: C.CreditContract

    ghost function State(): World
      reads this, registry, credit
    {
      World(registry.State(), credit.State(), Market(config, circuit, listings, nonces))
    }

    ghost predicate Wired() {
      credit.registry == registry
    }

    constructor (host: Host, registry: R.RegistryContract, credit: C.CreditContract)
      requires credit.registry == registry
      ensures Wired() && this.registry == registry && this.credit == credit && this.host == host
      ensures State() == World(registry.State(), credit.State(), EMPTY.market)
    {
      config, circuit, listings, nonces := None, Running, map[], map[];
      this.host, this.registry, this.credit := host, registry, credit;
    }

    method Initialize(admin: Address) returns (r: Result<(), MarketError>)
      modifies this
      ensures Committed(old(State()), State(), r, old(State()).Initialize(admin))
    {
      if config.Some? {
        return Err(AlreadyInitialized);
      }
      config := Some(MarketConfig(admin, None, None, 0));
      return Ok(());
    }

    method ConfigureOracle(signers: set<Address>, admin: Address, oracle: Address, feedId: Bytes32, maxAge: I64)
      returns (r: Result<(), MarketError>)
      modifies this
      ensures Committed(old(State()), State(), r, old(State()).ConfigureOracle(signers, admin, oracle, feedId, maxAge))
    {
      if config.None? {
        return Err(NotInitialized);
      }
      if admin !in signers {
        return Err(HostTrap);
      }
      if admin != config.value.admin {
        return Err(Unauthorized);
      }
      config := Some(config.value.(oracle := Some(oracle), feedId := Some(feedId), maxPriceAge := maxAge));
      return Ok(());
    }

    method SetCircuit(signers: set<Address>, admin: Address, state: CircuitBreaker) returns (r: Result<(), MarketError>)
      modifies this
      ensures Committed(old(State()), State(), r, old(State()).SetCircuit(signers, admin, state))
    {
      if config.None? {
        return Err(NotInitialized);
      }
      if admin !in signers {
        return Err(HostTrap);
      }
      if admin != config.value.admin {
        return Err(Unauthorized);
      }
      circuit := state;
      return Ok(());
    }

    method CreateListing(signers: set<Address>, seller: Address, id: ProjectId, amount: I128, price: I128, ledger: U32,
                         feed: FeedReading)
      returns (r: Result<ListingId, MarketError>)
      modifies this
      ensures Committed(old(State()), State(), r,
                        old(State()).CreateListing(signers, host, seller, id, amount, price, ledger, feed))
    {
      if seller !in signers {
        return Err(HostTrap);
      }
      if config.None? {
        return Err(NotInitialized);
      }
      if circuit != Running {
        return Err(CircuitBreakerOpen);
      }
      var gate := FeedError(config.value, feed);
      if gate.Some? {
        return Err(gate.value);
      }
      if amount <= 0 || price <= 0 {
        return Err(InvalidAmount);
      }
      if id !in registry.projects {
        return Err(HostTrap);
      }
      if registry.projects[id].status != R.Verified {
        return Err(ProjectNotVerified);
      }
      if Row(credit.balances, (seller, id)) < amount {
        return Err(InsufficientFunds);
      }
      var nonce := Row(nonces, seller);
      if !(0 <= nonce < U64_MAX) {
        return Err(HostTrap);
      }
      nonces := nonces[seller := nonce + 1];
      var preimage := Parts(Digest(host.sellerBytes(seller)));
      preimage := preimage + Parts(id);
      preimage := preimage + Octets(I128Bytes(amount));
      preimage := preimage + Octets(I128Bytes(price));
      preimage := preimage + Octets(BigEndian(ledger, 4));
      preimage := preimage + Octets(BigEndian(nonce, 8));
      var lid := OuterDigest(preimage);
      assert preimage == Preimage(host.sellerBytes(seller), id, amount, price, ledger, nonce);
      listings := listings[lid := Listing(seller, id, amount, price, Active)];
      return Ok(lid);
    }

    method PurchaseListing(signers: set<Address>, buyer: Address, lid: ListingId, payment: int, maxLedger: U32,
                           ledger: U32, feed: FeedReading)
      returns (r: Result<(), MarketError>)
      requires Wired()
      modifies this, credit
      ensures Committed(old(State()), State(), r,
                        old(State()).PurchaseListing(signers, host.self, buyer, lid, payment, maxLedger, ledger, feed))
    {
      if buyer !in signers {
        return Err(HostTrap);
      }
      if config.None? {
        return Err(NotInitialized);
      }
      if circuit != Running {
        return Err(CircuitBreakerOpen);
      }
      var gate := FeedError(config.value, feed);
      if gate.Some? {
        return Err(gate.value);
      }
      if ledger > maxLedger {
        return Err(TransactionExpired);
      }
      if lid !in listings {
        return Err(ListingNotFound);
      }
      var l := listings[lid];
      if l.status != Active {
        return Err(ListingNotActive);
      }
      if !InI128(l.price * l.amount) {
        return Err(InvalidAmount);
      }
      if payment < l.price * l.amount {
        return Err(InsufficientFunds);
      }
      var saved, savedBalances, savedSupply := listings, credit.balances, credit.supply;
      listings := listings[lid := l.(status := Sold)];
      if l.projectId !in registry.projects {
        listings := saved;
        return Err(HostTrap);
      }
      if registry.projects[l.projectId].status != R.Verified {
        listings := saved;
        return Err(ProjectNotVerified);
      }
      var burnt := credit.Burn(signers + {host.self}, l.seller, l.projectId, l.amount);
      if burnt.Err? {
        listings := saved;
        return Err(HostTrap);
      }
      var minted := credit.Mint(signers + {host.self}, buyer, l.projectId, l.amount);
      if minted.Err? {
        listings := saved;
        credit.RollBack(savedBalances, savedSupply);
        return Err(HostTrap);
      }
      return Ok(());
    }

    method CancelListing(signers: set<Address>, seller: Address, lid: ListingId) returns (r: Result<(), MarketError>)
      modifies this
      ensures Committed(old(State()), State(), r, old(State()).CancelListing(signers, seller, lid))
    {
      if seller !in signers {
        return Err(HostTrap);
      }
      if config.None? {
        return Err(NotInitialized);
      }
      if circuit != Running {
        return Err(CircuitBreakerOpen);
      }
      if lid !in listings {
        return Err(ListingNotFound);
      }
      var l := listings[lid];
      if l.status != Active {
        return Err(ListingNotActive);
      }
      if l.seller != seller {
        return Err(Unauthorized);
      }
      listings := listings[lid := l.(status := Cancelled)];
      return Ok(());
    }

    method MintProjectCredits(signers: set<Address>, id: ProjectId, amount: int) returns (r: Result<(), MarketError>)
      requires Wired()
      modifies registry, credit
      ensures Committed(old(State()), State(), r, old(State()).MintProjectCredits(signers, host.self, id, amount))
    {
      if config.None? {
        return Err(NotInitialized);
      }
      if circuit != Running {
        return Err(CircuitBreakerOpen);
      }
      if amount <= 0 {
        return Err(InvalidAmount);
      }
      if config.value.admin !in signers {
        return Err(HostTrap);
      }
      var saved := registry.projects;
      var issued := registry.IssueCredits(signers + {host.self}, id, amount);
      if issued.Err? {
        return Err(HostTrap);
      }
      var owner := registry.projects[id].owner;
      var minted := credit.Mint(signers + {host.self}, owner, id, amount);
      if minted.Err? {
        registry.RollBack(saved);
        return Err(HostTrap);
      }
      return Ok(());
    }
  }
}
