/** Who can change what in the carbon credit system, over every call and every run. */
module CarbonAuthority {
  import opened Base
  import opened Bytes
  import opened CarbonBooks
  import opened CarbonMarketplace
  import opened CarbonSystem
  import R = CarbonRegistry
  import C = CarbonCredit

  // ---------------------------------------------------------------- balances and listings

  // Credits leave an account only with its owner's signature, or through a listing the owner has open.
  lemma CreditsNeedConsent(w: World, host: Host, call: Call, owner: Address, id: ProjectId)
    requires Sound(w, host) && Admissible(w, host, call)
    requires Balance(Apply(w, host, call).credit, owner, id) < Balance(w.credit, owner, id)
    ensures || (call.Transfer? && owner in call.signers)
            || (call.BatchTransfer? && owner in call.signers)
            || (call.Retire? && owner in call.signers)
            || (call.PurchaseListing? && call.lid in w.market.listings
                && var l := w.market.listings[call.lid]; l.status == Active && l.seller == owner && l.projectId == id)
  {
    match call {
      case Transfer(signers, from, to, p, amount) => TransferKeepsBooks(w.credit, signers, from, to, p, amount);
      case BatchTransfer(signers, from, legs) =>
        if owner != from {
          LegsOnlyAdd(w.credit, signers, from, legs, owner, id);
        }
      case Retire(signers, from, p, amount, op) =>
        if w.credit.Retire(signers, from, p, amount, op).Ok? {
          RetireKeepsBooks(w.credit, signers, from, p, amount, op);
        }
      case PurchaseListing(signers, buyer, lid, payment, maxLedger, ledger, feed) =>
        if w.credit.config.Some? {
          PurchaseSettles(w, host, signers, buyer, lid, payment, maxLedger, ledger, feed);
        }
      case MintProjectCredits(signers, p, amount) =>
        if w.MintProjectCredits(signers, host.self, p, amount).Ok? {
          var issued := w.registry.IssueCredits(signers + {host.self}, p, amount).value.0;
          var project := issued.Lookup(p);
          MintKeepsBooks(w.credit, signers + {host.self}, project, project.value.owner, p, amount);
        }
      case _ =>
    }
  }

  lemma {:induction false} LegsOnlyAdd(c: C.Credit, signers: set<Address>, from: Address, legs: seq<C.Leg>,
                                       owner: Address, id: ProjectId)
    requires Books(c) && owner != from
    ensures var r := c.TransferLegs(signers, from, legs);
            r.Ok? ==> Balance(r.value.0, owner, id) >= Balance(c, owner, id)
    decreases |legs|
  {
    if legs != [] {
      TransferKeepsBooks(c, signers, from, legs[0].to, legs[0].projectId, legs[0].amount);
      var first := c.Transfer(signers, from, legs[0].to, legs[0].projectId, legs[0].amount);
      if first.Ok? {
        LegsOnlyAdd(first.value.0, signers, from, legs[1..], owner, id);
      }
    }
  }

  // A stored listing changes only by a sale that pays its price, by its seller's cancellation, or when another creation
  // lands on its id.
  lemma ListingLifecycle(w: World, host: Host, call: Call, lid: ListingId)
    requires lid in w.market.listings
    ensures var v, l := Apply(w, host, call), w.market.listings[lid];
            && lid in v.market.listings
            && var m := v.market.listings[lid];
               || m == l
               || (call.PurchaseListing? && call.lid == lid && l.status == Active && m == l.(status := Sold)
                   && call.buyer in call.signers && l.price * l.amount <= call.payment && call.ledger <= call.maxLedger)
               || (call.CancelListing? && call.lid == lid && l.status == Active && m == l.(status := Cancelled)
                   && l.seller in call.signers)
               || (call.CreateListing? && call.seller in call.signers && m.seller == call.seller && m.status == Active)
  {
  }

  // ---------------------------------------------------------------- projects

  // A project's record changes only through the registry's administrator, an issue by the marketplace's administrator,
  // or a registration that derives its id again.
  lemma ProjectLifecycle(w: World, host: Host, call: Call, id: ProjectId)
    requires Sound(w, host) && Admissible(w, host, call) && id in w.registry.projects
    ensures var v, p := Apply(w, host, call), w.registry.projects[id];
            && id in v.registry.projects
            && var q := v.registry.projects[id];
               || q == p
               || (call.SetStatus? && call.id == id && q == p.(status := call.status)
                   && w.registry.config.Some? && w.registry.config.value.admin in call.signers)
               || (call.MintProjectCredits? && call.id == id && q == p.(issuedCredits := p.issuedCredits + call.amount)
                   && call.amount > 0 && p.status == R.Verified && w.market.circuit == Running
                   && w.market.config.Some? && w.market.config.value.admin in call.signers)
               || (call.RegisterProject? && ProjectOf(host, call.owner, call.name, call.vintageYear) == id
                   && call.owner in call.signers && q.status == R.Pending && q.issuedCredits == p.issuedCredits == 0)
  {
  }

  /** No administrator's call in the run verifies the project. */
  ghost predicate NeverVerifies(calls: seq<Call>, id: ProjectId) {
    forall call :: call in calls && call.SetStatus? && call.id == id ==> call.status != R.Verified
  }

  ghost predicate Unverified(w: World, id: ProjectId) {
    Issued(w, id) == 0 && (id in w.registry.projects ==> w.registry.projects[id].status != R.Verified)
  }

  // Credits of a project exist only after the registry's administrator has verified it, whoever registers it how often.
  lemma {:induction false} UnverifiedHoldsNothing(w: World, host: Host, calls: seq<Call>, id: ProjectId)
    requires Sound(w, host) && AdmissibleRun(w, host, calls)
    requires Unverified(w, id) && NeverVerifies(calls, id)
    ensures var v := Run(w, host, calls);
            Unverified(v, id) && forall owner :: Balance(v.credit, owner, id) == 0
    decreases |calls|
  {
    if calls == [] {
      forall owner ensures Balance(w.credit, owner, id) == 0 {
        BalanceWithinSupply(w.credit, owner, id);
        assert Row(w.credit.supply, id) + Row(w.credit.retired, id) == Issued(w, id);
      }
    } else {
      assert calls[0] in calls;
      SoundStep(w, host, calls[0]);
      UnverifiedStep(w, host, calls[0], id);
      UnverifiedHoldsNothing(Apply(w, host, calls[0]), host, calls[1..], id);
    }
  }

  lemma UnverifiedStep(w: World, host: Host, call: Call, id: ProjectId)
    requires Sound(w, host) && Admissible(w, host, call) && Unverified(w, id)
    requires call.SetStatus? && call.id == id ==> call.status != R.Verified
    ensures Unverified(Apply(w, host, call), id)
  {
    if id in w.registry.projects {
      ProjectLifecycle(w, host, call, id);
    }
  }

  // ---------------------------------------------------------------- offices and switches

  /** Offices are filled once and for all. */
  ghost predicate OfficesKept(w: World, v: World) {
    && (w.registry.config.Some? ==> v.registry.config == w.registry.config)
    && (w.credit.config.Some? ==> v.credit.config == w.credit.config)
    && (w.market.config.Some? ==> v.market.config.Some? && v.market.config.value.admin == w.market.config.value.admin)
  }

  // No run replaces an administrator or re-points a contract to another marketplace.
  lemma {:induction false} OfficesStay(w: World, host: Host, calls: seq<Call>)
    ensures OfficesKept(w, Run(w, host, calls))
    decreases |calls|
  {
    if calls != [] {
      OfficesStep(w, host, calls[0]);
      OfficesStay(Apply(w, host, calls[0]), host, calls[1..]);
    }
  }

  lemma OfficesStep(w: World, host: Host, call: Call)
    ensures OfficesKept(w, Apply(w, host, call))
  {
    if call.BatchTransfer? {
      LegsMoveBalances(w.credit, call.signers, call.from, call.legs);
    }
  }

  lemma {:induction false} LegsMoveBalances(c: C.Credit, signers: set<Address>, from: Address, legs: seq<C.Leg>)
    ensures var r := c.TransferLegs(signers, from, legs);
            r.Ok? ==> r.value.0 == c.(balances := r.value.0.balances)
    decreases |legs|
  {
    if legs != [] {
      var first := c.Transfer(signers, from, legs[0].to, legs[0].projectId, legs[0].amount);
      if first.Ok? {
        LegsMoveBalances(first.value.0, signers, from, legs[1..]);
      }
    }
  }

  /** A call by which the market's administrator could move the circuit breaker. */
  predicate MovesCircuit(w: World, call: Call) {
    call.SetCircuit? && w.market.config.Some? && w.market.config.value.admin in call.signers
  }

  ghost predicate LeavesCircuit(calls: seq<Call>, admin: Address) {
    forall call :: call in calls && call.SetCircuit? ==> admin !in call.signers
  }

  // A stopped market stands still, listings and issued credits alike, until its administrator moves the breaker.
  lemma {:induction false} StoppedMarketStandsStill(w: World, host: Host, calls: seq<Call>)
    requires Sound(w, host) && AdmissibleRun(w, host, calls)
    requires w.market.config.Some? && w.market.circuit != Running
    requires LeavesCircuit(calls, w.market.config.value.admin)
    ensures var v := Run(w, host, calls);
            && v.market.circuit == w.market.circuit && v.market.listings == w.market.listings
            && forall id :: Issued(v, id) == Issued(w, id)
    decreases |calls|
  {
    if calls != [] {
      assert calls[0] in calls;
      SoundStep(w, host, calls[0]);
      OfficesStep(w, host, calls[0]);
      StoppedStep(w, host, calls[0]);
      StoppedMarketStandsStill(Apply(w, host, calls[0]), host, calls[1..]);
    }
  }

  lemma StoppedStep(w: World, host: Host, call: Call)
    requires Sound(w, host) && Admissible(w, host, call)
    requires w.market.config.Some? && w.market.circuit != Running && !MovesCircuit(w, call)
    ensures var v := Apply(w, host, call);
            && v.market.circuit == w.market.circuit && v.market.listings == w.market.listings
            && forall id :: Issued(v, id) == Issued(w, id)
  {
  }

  // Once an oracle is configured, no listing is opened or sold on a reading that is not fresh.
  lemma StaleFeedStopsTrade(w: World, host: Host, calls: seq<Call>, call: Call)
    requires w.market.config.Some? && w.market.config.value.oracle.Some? && w.market.config.value.feedId.Some?
    requires (call.CreateListing? || call.PurchaseListing?) && call.feed != Fresh
    ensures var v := Run(w, host, calls);
            Apply(v, host, call) == v
  {
    FeedStaysConfigured(w, host, calls);
  }

  lemma {:induction false} FeedStaysConfigured(w: World, host: Host, calls: seq<Call>)
    requires w.market.config.Some? && w.market.config.value.oracle.Some? && w.market.config.value.feedId.Some?
    ensures var cfg := Run(w, host, calls).market.config;
            cfg.Some? && cfg.value.oracle.Some? && cfg.value.feedId.Some?
    decreases |calls|
  {
    if calls != [] {
      FeedStaysConfigured(Apply(w, host, calls[0]), host, calls[1..]);
    }
  }
}
