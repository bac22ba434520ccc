/**
 * The registry, the credit contract and the marketplace as one machine: every run of
 * calls keeps issued, circulating and retired credits in balance.
 */
module CarbonSystem {
  import opened Base
  import opened Bytes
  import R = CarbonRegistry
  import C = CarbonCredit
  import opened CarbonMarketplace
  import opened CarbonBooks

  datatype Call =
    | InitRegistry(admin: Address, marketplace: Address)
    | InitCredit(admin: Address, marketplace: Address)
    | InitMarket(admin: Address)
    | RegisterProject(signers: set<Address>, owner: Address, name: string, totalCredits: I128, vintageYear: U32)
    | SetStatus(signers: set<Address>, id: ProjectId, status: R.ProjectStatus)
    | IssueCredits(signers: set<Address>, id: ProjectId, amount: I128)
    | Mint(signers: set<Address>, to: Address, id: ProjectId, amount: I128)
    | Burn(signers: set<Address>, from: Address, id: ProjectId, amount: I128)
    | Transfer(signers: set<Address>, from: Address, to: Address, id: ProjectId, amount: I128)
    | BatchTransfer(signers: set<Address>, from: Address, legs: seq<C.Leg>)
    | Retire(signers: set<Address>, from: Address, id: ProjectId, amount: I128, op: C.OperationId)
    | ConfigureOracle(signers: set<Address>, admin: Address, oracle: Address, feedId: Bytes32, maxAge: I64)
    | SetCircuit(signers: set<Address>, admin: Address, circuit: CircuitBreaker)
    | CreateListing(signers: set<Address>, seller: Address, id: ProjectId, amount: I128, price: I128, ledger: U32,
                    feed: FeedReading)
    | PurchaseListing(signers: set<Address>, buyer: Address, lid: ListingId, payment: I128, maxLedger: U32, ledger: U32,
                      feed: FeedReading)
    | CancelListing(signers: set<Address>, seller: Address, lid: ListingId)
    | MintProjectCredits(signers: set<Address>, id: ProjectId, amount: I128)

  function OnRegistry<T>(w: World, r: R.Outcome<T>): World {
    if r.Ok? then w.(registry := r.value.0) else w
  }

  function OnCredit<T>(w: World, r: C.Outcome<T>): World {
    if r.Ok? then w.(credit := r.value.0) else w
  }

  function OnMarket<T>(w: World, r: Outcome<T>): World {
    if r.Ok? then r.value.0 else w
  }

  /** The world after one transaction; a failing transaction leaves it unchanged. */
  function Apply(w: World, host: Host, call: Call): World {
    match call
    case InitRegistry(admin, marketplace) => OnRegistry(w, w.registry.Initialize(admin, marketplace))
    case InitCredit(admin, marketplace) => OnCredit(w, w.credit.Initialize(admin, marketplace))
    case InitMarket(admin) => OnMarket(w, w.Initialize(admin))
    case RegisterProject(signers, owner, name, total, year) =>
      OnRegistry(w, w.registry.RegisterProject(signers, host.projectBytes, owner, name, total, year))
    case SetStatus(signers, id, status) => OnRegistry(w, w.registry.SetStatus(signers, id, status))
    case IssueCredits(signers, id, amount) => OnRegistry(w, w.registry.IssueCredits(signers, id, amount))
    case Mint(signers, to, id, amount) => OnCredit(w, w.credit.Mint(signers, w.registry.Lookup(id), to, id, amount))
    case Burn(signers, from, id, amount) => OnCredit(w, w.credit.Burn(signers, from, id, amount))
    case Transfer(signers, from, to, id, amount) => OnCredit(w, w.credit.Transfer(signers, from, to, id, amount))
    case BatchTransfer(signers, from, legs) => OnCredit(w, w.credit.BatchTransfer(signers, from, legs))
    case Retire(signers, from, id, amount, op) => OnCredit(w, w.credit.Retire(signers, from, id, amount, op))
    case ConfigureOracle(signers, admin, oracle, feedId, maxAge) =>
      OnMarket(w, w.ConfigureOracle(signers, admin, oracle, feedId, maxAge))
    case SetCircuit(signers, admin, circuit) => OnMarket(w, w.SetCircuit(signers, admin, circuit))
    case CreateListing(signers, seller, id, amount, price, ledger, feed) =>
      OnMarket(w, w.CreateListing(signers, host, seller, id, amount, price, ledger, feed))
    case PurchaseListing(signers, buyer, lid, payment, maxLedger, ledger, feed) =>
      OnMarket(w, w.PurchaseListing(signers, host.self, buyer, lid, payment, maxLedger, ledger, feed))
    case CancelListing(signers, seller, lid) => OnMarket(w, w.CancelListing(signers, seller, lid))
    case MintProjectCredits(signers, id, amount) => OnMarket(w, w.MintProjectCredits(signers, host.self, id, amount))
  }

  function Issued(w: World, id: ProjectId): int {
    if id in w.registry.projects then w.registry.projects[id].issuedCredits else 0
  }

  function ProjectOf(host: Host, owner: Address, name: string, vintageYear: U32): ProjectId {
    Digest(host.projectBytes(owner, name, vintageYear))
  }

  /**
   * What the environment guarantees: no transaction is signed by the marketplace contract itself,
   * the contracts are initialised with its address, and a project id is derived again only
   * while nothing has been issued under it (see `RegistrationKeepsConservation`).
   */
  ghost predicate Admissible(w: World, host: Host, call: Call) {
    match call
    case InitRegistry(_, marketplace) => marketplace == host.self
    case InitCredit(_, marketplace) => marketplace == host.self
    case InitMarket(_) => true
    case RegisterProject(_, owner, name, _, year) =>
      host.self !in call.signers && Issued(w, ProjectOf(host, owner, name, year)) == 0
    case _ => host.self !in call.signers
  }

  ghost function Run(w: World, host: Host, calls: seq<Call>): World
    decreases |calls|
  {
    if calls == [] then w else Run(Apply(w, host, calls[0]), host, calls[1..])
  }

  ghost predicate AdmissibleRun(w: World, host: Host, calls: seq<Call>)
    decreases |calls|
  {
    calls != [] ==> Admissible(w, host, calls[0]) && AdmissibleRun(Apply(w, host, calls[0]), host, calls[1..])
  }

  // ---------------------------------------------------------------- conservation

  ghost predicate Wired(w: World, host: Host) {
    && (w.registry.config.Some? ==> w.registry.config.value.marketplace == host.self)
    && (w.credit.config.Some? ==> w.credit.config.value.marketplace == host.self)
  }

  /** Circulating plus retired credits are exactly the issued ones, and never exceed the project's allocation. */
  ghost predicate Conserved(w: World) {
    && Books(w.credit)
    && (forall id :: Row(w.credit.supply, id) + Row(w.credit.retired, id) == Issued(w, id))
    && (forall id :: id in w.registry.projects ==>
          0 <= w.registry.projects[id].issuedCredits <= w.registry.projects[id].totalCredits <= I128_MAX)
  }

  ghost predicate Sound(w: World, host: Host) {
    Wired(w, host) && Conserved(w)
  }

  /** What no call ever undoes. */
  ghost predicate Keeps(w: World, v: World) {
    && (forall id :: Row(w.credit.retired, id) <= Row(v.credit.retired, id))
    && w.credit.usedOps <= v.credit.usedOps
  }

  lemma {:induction false} BatchKeepsBooks(c: C.Credit, signers: set<Address>, from: Address, legs: seq<C.Leg>)
    requires Books(c) && c.TransferLegs(signers, from, legs).Ok?
    ensures var d := c.TransferLegs(signers, from, legs).value.0;
            Books(d) && d == c.(balances := d.balances)
    decreases |legs|
  {
    if legs != [] {
      TransferKeepsBooks(c, signers, from, legs[0].to, legs[0].projectId, legs[0].amount);
      var d := c.Transfer(signers, from, legs[0].to, legs[0].projectId, legs[0].amount).value.0;
      BatchKeepsBooks(d, signers, from, legs[1..]);
    }
  }

  // The mint leg cannot fail once the burn leg has succeeded, so a purchase moves credits and nothing else.
  lemma PurchaseSettles(w: World, host: Host, signers: set<Address>, buyer: Address, lid: ListingId, payment: int,
                        maxLedger: U32, ledger: U32, feed: FeedReading)
    requires Sound(w, host) && w.credit.config.Some?
    ensures
      var r := w.PurchaseListing(signers, host.self, buyer, lid, payment, maxLedger, ledger, feed);
      && (r.Ok? <==>
            && buyer in signers && w.market.config.Some? && w.market.circuit == Running && ledger <= maxLedger
            && FeedError(w.market.config.value, feed) == None
            && lid in w.market.listings && w.market.listings[lid].status == Active
            && var l := w.market.listings[lid];
               && InI128(l.price * l.amount) && l.price * l.amount <= payment
               && l.projectId in w.registry.projects && w.registry.projects[l.projectId].status == R.Verified
               && 0 < l.amount <= Balance(w.credit, l.seller, l.projectId))
      && (r.Ok? ==>
            var v, l := r.value.0, w.market.listings[lid];
            && Books(v.credit)
            && v == w.(credit := w.credit.(balances := v.credit.balances),
                       market := w.market.(listings := w.market.listings[lid := l.(status := Sold)]))
            && (forall a, p ::
                  Balance(v.credit, a, p) == Balance(w.credit, a, p)
                                               + (if (a, p) == (buyer, l.projectId) then l.amount else 0)
                                               - (if (a, p) == (l.seller, l.projectId) then l.amount else 0)))
  {
    if lid in w.market.listings {
      var l := w.market.listings[lid];
      if l.projectId in w.registry.projects && w.registry.projects[l.projectId].status == R.Verified
         && 0 < l.amount <= Balance(w.credit, l.seller, l.projectId)
      {
        var burnt := w.credit.Burn(signers + {host.self}, l.seller, l.projectId, l.amount).value.0;
        BurnKeepsBooks(w.credit, signers + {host.self}, l.seller, l.projectId, l.amount);
        BalanceWithinSupply(burnt, buyer, l.projectId);
        BalanceWithinSupply(w.credit, buyer, l.projectId);
        var project := w.registry.Lookup(l.projectId);
        assert Row(burnt.supply, l.projectId) == Row(w.credit.supply, l.projectId) - l.amount;
        var minted := burnt.Mint(signers + {host.self}, project, buyer, l.projectId, l.amount).value.0;
        MintKeepsBooks(burnt, signers + {host.self}, project, buyer, l.projectId, l.amount);
        RowsDetermineMap(minted.supply, w.credit.supply);
      }
    }
  }

  // Issuance raises issued credits and supply by the same amount.
  lemma IssuanceSettles(w: World, host: Host, signers: set<Address>, id: ProjectId, amount: int)
    requires Sound(w, host) && w.MintProjectCredits(signers, host.self, id, amount).Ok?
    ensures var v := w.MintProjectCredits(signers, host.self, id, amount).value.0;
            Sound(v, host) && Keeps(w, v) && Issued(v, id) == Issued(w, id) + amount
  {
    var issued := w.registry.IssueCredits(signers + {host.self}, id, amount).value.0;
    var project := issued.Lookup(id);
    MintKeepsBooks(w.credit, signers + {host.self}, project, project.value.owner, id, amount);
    var v := w.MintProjectCredits(signers, host.self, id, amount).value.0;
    forall p ensures Row(v.credit.supply, p) + Row(v.credit.retired, p) == Issued(v, p) {
      assert Row(w.credit.supply, p) + Row(w.credit.retired, p) == Issued(w, p);
    }
  }

  lemma RetirementSettles(w: World, host: Host, signers: set<Address>, from: Address, id: ProjectId, amount: int,
                          op: C.OperationId)
    requires Sound(w, host) && w.credit.Retire(signers, from, id, amount, op).Ok?
    ensures var v := Apply(w, host, Retire(signers, from, id, amount, op));
            Sound(v, host) && Keeps(w, v)
  {
    RetireKeepsBooks(w.credit, signers, from, id, amount, op);
    var v := Apply(w, host, Retire(signers, from, id, amount, op));
    forall p ensures Row(v.credit.supply, p) + Row(v.credit.retired, p) == Issued(v, p) {
      assert Row(w.credit.supply, p) + Row(w.credit.retired, p) == Issued(w, p);
    }
  }

  /** The calls that move credits or listings. */
  predicate Moving(call: Call) {
    call.Transfer? || call.BatchTransfer? || call.Retire? || call.CreateListing? || call.PurchaseListing?
    || call.CancelListing? || call.MintProjectCredits?
  }

  // A changed registry keeps the world sound when it moves no issued credits and stays wired to the marketplace.
  lemma RegistrySettles(w: World, v: World, host: Host)
    requires Sound(w, host) && v == w.(registry := v.registry)
    requires Wired(v, host)
    requires forall id :: Issued(v, id) == Issued(w, id)
    requires forall id :: id in v.registry.projects ==>
               0 <= v.registry.projects[id].issuedCredits <= v.registry.projects[id].totalCredits <= I128_MAX
    ensures Sound(v, host) && Keeps(w, v)
  {
    forall id ensures Row(v.credit.supply, id) + Row(v.credit.retired, id) == Issued(v, id) {
      assert Row(w.credit.supply, id) + Row(w.credit.retired, id) == Issued(w, id);
    }
  }

  // So does a changed configuration of the credit contract or the marketplace.
  lemma SettingsSettle(w: World, v: World, host: Host)
    requires Sound(w, host) && Wired(v, host)
    requires v == w.(credit := w.credit.(config := v.credit.config), market := v.market)
    ensures Sound(v, host) && Keeps(w, v)
  {
    forall id ensures Row(v.credit.supply, id) + Row(v.credit.retired, id) == Issued(v, id) {
      assert Row(w.credit.supply, id) + Row(w.credit.retired, id) == Issued(w, id);
    }
  }

  predicate OnlyRegistry(call: Call) {
    call.InitRegistry? || call.RegisterProject? || call.SetStatus?
  }

  // Administration keeps the books, and so do forged mints, burns and issues: the host rejects them.
  lemma AdministrationSettles(w: World, host: Host, call: Call)
    requires Sound(w, host) && Admissible(w, host, call) && !Moving(call)
    ensures Sound(Apply(w, host, call), host) && Keeps(w, Apply(w, host, call))
  {
    var v := Apply(w, host, call);
    if OnlyRegistry(call) {
      RegistrySettles(w, v, host);
    } else {
      SettingsSettle(w, v, host);
    }
  }

  // Moving balances within the books, whatever happens to the market's own rows, is all a trade does.
  lemma TradeSettles(w: World, v: World, host: Host)
    requires Sound(w, host) && Books(v.credit)
    requires v == w.(credit := w.credit.(balances := v.credit.balances), market := v.market)
    ensures Sound(v, host) && Keeps(w, v)
  {
    forall id ensures Row(v.credit.supply, id) + Row(v.credit.retired, id) == Issued(v, id) {
      assert Row(w.credit.supply, id) + Row(w.credit.retired, id) == Issued(w, id);
    }
  }

  // Calls that move balances without issuing or retiring.
  lemma TransferSettles(w: World, host: Host, call: Call)
    requires Sound(w, host) && (call.Transfer? || call.BatchTransfer?)
    ensures Sound(Apply(w, host, call), host) && Keeps(w, Apply(w, host, call))
  {
    var v := Apply(w, host, call);
    if v != w {
      match call {
        case Transfer(signers, from, to, id, amount) =>
          TransferKeepsBooks(w.credit, signers, from, to, id, amount);
        case BatchTransfer(signers, from, legs) =>
          BatchKeepsBooks(w.credit, signers, from, legs);
      }
      TradeSettles(w, v, host);
    }
  }

  // Calls that open or close a listing.
  lemma ListingSettles(w: World, host: Host, call: Call)
    requires Sound(w, host) && (call.CreateListing? || call.PurchaseListing? || call.CancelListing?)
    ensures Sound(Apply(w, host, call), host) && Keeps(w, Apply(w, host, call))
  {
    var v := Apply(w, host, call);
    if v != w {
      match call {
        case PurchaseListing(signers, buyer, lid, payment, maxLedger, ledger, feed) =>
          PurchaseSettles(w, host, signers, buyer, lid, payment, maxLedger, ledger, feed);
        case CreateListing(_, _, _, _, _, _, _) =>
        case CancelListing(_, _, _) =>
      }
      TradeSettles(w, v, host);
    }
  }

  lemma SoundStep(w: World, host: Host, call: Call)
    requires Sound(w, host) && Admissible(w, host, call)
    ensures Sound(Apply(w, host, call), host) && Keeps(w, Apply(w, host, call))
  {
    if !Moving(call) {
      AdministrationSettles(w, host, call);
    } else if call.Transfer? || call.BatchTransfer? {
      TransferSettles(w, host, call);
    } else if call.CreateListing? || call.PurchaseListing? || call.CancelListing? {
      ListingSettles(w, host, call);
    } else if Apply(w, host, call) != w {
      match call
      case Retire(signers, from, id, amount, op) =>
        RetirementSettles(w, host, signers, from, id, amount, op);
      case MintProjectCredits(signers, id, amount) =>
        IssuanceSettles(w, host, signers, id, amount);
    }
  }

  lemma {:induction false} EveryRunIsSound(w: World, host: Host, calls: seq<Call>)
    requires Sound(w, host) && AdmissibleRun(w, host, calls)
    ensures Sound(Run(w, host, calls), host) && Keeps(w, Run(w, host, calls))
    decreases |calls|
  {
    if calls != [] {
      var v := Apply(w, host, calls[0]);
      SoundStep(w, host, calls[0]);
      EveryRunIsSound(v, host, calls[1..]);
      var z := Run(v, host, calls[1..]);
      forall id ensures Row(w.credit.retired, id) <= Row(z.credit.retired, id) {
        assert Row(w.credit.retired, id) <= Row(v.credit.retired, id);
      }
    }
  }

  // From empty storage, any admissible history leaves every project's credits accounted for.
  lemma ConservationFromGenesis(host: Host, calls: seq<Call>, id: ProjectId)
    requires AdmissibleRun(EMPTY, host, calls)
    ensures var w := Run(EMPTY, host, calls);
            && Total(w.credit.balances, id) == Row(w.credit.supply, id)
            && Row(w.credit.supply, id) + Row(w.credit.retired, id) == Issued(w, id)
            && (id in w.registry.projects ==> Issued(w, id) <= w.registry.projects[id].totalCredits)
            && RowsPositive(w.credit.balances) && RowsPositive(w.credit.supply)
  {
    EveryRunIsSound(EMPTY, host, calls);
    var w := Run(EMPTY, host, calls);
    assert Total(w.credit.balances, id) == Row(w.credit.supply, id);
  }

  // ---------------------------------------------------------------- registering an id again

  // `register_project` resets an existing record; conservation survives exactly when nothing was issued under its id.
  lemma RegistrationKeepsConservation(w: World, host: Host, signers: set<Address>, owner: Address, name: string,
                                      total: I128, year: U32)
    requires Sound(w, host) && w.registry.RegisterProject(signers, host.projectBytes, owner, name, total, year).Ok?
    ensures Sound(Apply(w, host, RegisterProject(signers, owner, name, total, year)), host)
            <==> Issued(w, ProjectOf(host, owner, name, year)) == 0
  {
    var v, id := Apply(w, host, RegisterProject(signers, owner, name, total, year)), ProjectOf(host, owner, name, year);
    assert Row(w.credit.supply, id) + Row(w.credit.retired, id) == Issued(w, id);
    if Issued(w, id) != 0 {
      assert Row(v.credit.supply, id) + Row(v.credit.retired, id) != Issued(v, id);
    } else {
      assert InI128(total);
      assert v.registry.projects == w.registry.projects[id := R.Project(owner, name, total, 0, R.Pending, year)];
      RegistrySettles(w, v, host);
    }
  }

  const MARKET := 9

  /** Every conversion of the host fails: sellers encode to nothing and projects to their vintage year. */
  const FALLBACK := Host(MARKET, (a: Address) => [], R.YearOnly)

  const FOREST := Digest(BigEndian(2024, 4))

  /** Set up the three contracts; then register a project of owner 1, verify it and issue five credits. */
  const SET_UP: seq<Call> := [InitRegistry(0, MARKET), InitCredit(0, MARKET), InitMarket(0)]
  const ISSUE_FIVE: seq<Call> :=
    [RegisterProject({1}, 1, "forest", 10, 2024), SetStatus({0}, FOREST, R.Verified),
        MintProjectCredits({0}, FOREST, 5)]

  lemma RunOfThree(w: World, host: Host, a: Call, b: Call, c: Call)
    ensures Run(w, host, [a, b, c]) == Apply(Apply(Apply(w, host, a), host, b), host, c)
  {
    assert [a, b, c][1..] == [b, c] && [b, c][1..] == [c] && [c][1..] == [];
    var v := Apply(w, host, a);
    assert Run(v, host, [b, c]) == Run(Apply(v, host, b), host, [c]);
    assert Run(Apply(v, host, b), host, [c]) == Apply(Apply(v, host, b), host, c);
  }

  lemma {:induction false} RunConcat(w: World, host: Host, a: seq<Call>, b: seq<Call>)
    ensures Run(w, host, a + b) == Run(Run(w, host, a), host, b)
    decreases |a|
  {
    if a == [] {
      assert a + b == b;
    } else {
      assert (a + b)[1..] == a[1..] + b;
      RunConcat(Apply(w, host, a[0]), host, a[1..], b);
    }
  }

  // The world after the set-up and the first issue.
  lemma FiveIssued() returns (w: World)
    ensures w == Run(EMPTY, FALLBACK, SET_UP + ISSUE_FIVE)
    ensures w.registry.config == Some(R.RegistryConfig(0, MARKET)) && w.credit.config == Some(C.CreditConfig(0, MARKET))
    ensures w.market == Market(Some(MarketConfig(0, None, None, 0)), Running, map[], map[])
    ensures w.registry.projects == map[FOREST := R.Project(1, "forest", 10, 5, R.Verified, 2024)]
    ensures w.credit.balances == map[(1, FOREST) := 5] && w.credit.supply == map[FOREST := 5]
    ensures w.credit.retired == map[]
  {
    RunConcat(EMPTY, FALLBACK, SET_UP, ISSUE_FIVE);
    RunOfThree(EMPTY, FALLBACK, SET_UP[0], SET_UP[1], SET_UP[2]);
    var ready := Run(EMPTY, FALLBACK, SET_UP);
    RunOfThree(ready, FALLBACK, ISSUE_FIVE[0], ISSUE_FIVE[1], ISSUE_FIVE[2]);
    w := Run(ready, FALLBACK, ISSUE_FIVE);
  }

  // Under the fallback, somebody else's project of the same vintage year has the same id: registering it loses the
  // five credits from the record.
  lemma ReRegistrationBreaksConservation()
    ensures var w := Run(EMPTY, FALLBACK, SET_UP + ISSUE_FIVE);
            && Issued(w, FOREST) == 5
            && !Conserved(Apply(w, FALLBACK, RegisterProject({2}, 2, "mangrove", 10, 2024)))
  {
    var w := FiveIssued();
    var v := Apply(w, FALLBACK, RegisterProject({2}, 2, "mangrove", 10, 2024));
    assert Row(v.credit.supply, FOREST) + Row(v.credit.retired, FOREST) != Issued(v, FOREST);
  }
}
