/** Credit balances, supply and retirement: contracts/carbon_credit. */
module CarbonCredit {
  import opened Base
  import R = CarbonRegistry

  type ProjectId = R.ProjectId
  type OperationId = int
  type Balances = map<(Address, ProjectId), int>

  datatype CreditConfig = CreditConfig(admin: Address, marketplace: Address)

  datatype CreditError =
    | AlreadyInitialized
    | NotInitialized
    | InsufficientBalance
    | ProjectNotVerified
    | InvalidAmount
    | AlreadyRetired
    | HostTrap // a failed `require_auth` or a failed cross-contract call

  datatype Credit = Credit(
    config: Option<CreditConfig>,
    balances: Balances,
    supply: map<ProjectId, int>,
    retired: map<ProjectId, int>,
    usedOps: set<OperationId>)
  {
    function Initialize(admin: Address, marketplace: Address): Outcome<()> {
      if config.Some? then Err(AlreadyInitialized)
      else Ok((this.(config := Some(CreditConfig(admin, marketplace))), ()))
    }

    /** `project` is the registry's answer to get_project; a missing project traps. */
    function Mint(signers: set<Address>, project: Option<R.Project>, to: Address, id: ProjectId, amount: int)
      : Outcome<()>
    {
      if config.None? then Err(NotInitialized)
      else if config.value.marketplace !in signers then Err(HostTrap)
      else if amount <= 0 then Err(InvalidAmount)
      else if project.None? then Err(HostTrap)
      else if project.value.status != R.Verified then Err(ProjectNotVerified)
      else
        var newBalance := Row(balances, (to, id)) + amount;
        var newSupply := Row(supply, id) + amount;
        if !InI128(newBalance) || !InI128(newSupply) then Err(InvalidAmount)
        else Ok((this.(balances := balances[(to, id) := newBalance], supply := Put(supply, id, newSupply)), ()))
    }

    function Transfer(signers: set<Address>, from: Address, to: Address, id: ProjectId, amount: int): Outcome<()> {
      if from !in signers then Err(HostTrap)
      else if config.None? then Err(NotInitialized)
      else if amount <= 0 then Err(InvalidAmount)
      else if from == to then Ok((this, ()))
      else
        var fromBalance := Row(balances, (from, id));
        var toBalance := Row(balances, (to, id)) + amount;
        if fromBalance < amount then Err(InsufficientBalance)
        else if !InI128(toBalance) then Err(InvalidAmount)
        else
          var debited := Put(balances, (from, id), fromBalance - amount);
          Ok((this.(balances := debited[(to, id) := toBalance]), ()))
    }

    function Burn(signers: set<Address>, from: Address, id: ProjectId, amount: int): Outcome<()> {
      if config.None? then Err(NotInitialized)
      else if config.value.marketplace !in signers then Err(HostTrap)
      else if amount <= 0 then Err(InvalidAmount)
      else
        var balance := Row(balances, (from, id));
        if balance < amount then Err(InsufficientBalance)
        else
          Ok((this.(balances := Put(balances, (from, id), balance - amount),
                   supply := Put(supply, id, SaturatingSub(Row(supply, id), amount))), ()))
    }

    function Retire(signers: set<Address>, from: Address, id: ProjectId, amount: int, op: OperationId)
      : Outcome<()>
    {
      if from !in signers then Err(HostTrap)
      else if config.None? then Err(NotInitialized)
      else if amount <= 0 then Err(InvalidAmount)
      else if op in usedOps then Err(AlreadyRetired)
      else
        var balance := Row(balances, (from, id));
        var newRetired := Row(retired, id) + amount;
        if balance < amount then Err(InsufficientBalance)
        else if !InI128(newRetired) then Err(InvalidAmount)
        else
          Ok((this.(balances := Put(balances, (from, id), balance - amount),
                   supply := Put(supply, id, SaturatingSub(Row(supply, id), amount)),
                   retired := retired[id := newRetired],
                   usedOps := usedOps + {op}), ()))
    }

    /** The legs run in order and the first failure fails the whole batch. */
    function TransferLegs(signers: set<Address>, from: Address, legs: seq<Leg>): Outcome<()>
      decreases |legs|
    {
      if legs == [] then Ok((this, ()))
      else
        var first :- Transfer(signers, from, legs[0].to, legs[0].projectId, legs[0].amount);
        first.0.TransferLegs(signers, from, legs[1..])
    }

    function BatchTransfer(signers: set<Address>, from: Address, legs: seq<Leg>): Outcome<()> {
      if from !in signers then Err(HostTrap) else TransferLegs(signers, from, legs)
    }
  }

  datatype Leg = Leg(to: Address, projectId: ProjectId, amount: int)

  type Outcome<T> = Result<(Credit, T), CreditError>

  const EMPTY := Credit(None, map[], map[], map[], {})

  lemma {:induction false} TransferLegsSplit(s: Credit, signers: set<Address>, from: Address, done: seq<Leg>,
                                             rest: seq<Leg>)
    ensures var first := s.TransferLegs(signers, from, done);
            s.TransferLegs(signers, from, done + rest) ==
            if first.Ok? then first.value.0.TransferLegs(signers, from, rest) else first
    decreases |done|
  {
    if done == [] {
      assert done + rest == rest;
    } else {
      assert (done + rest)[1..] == done[1..] + rest;
      var step := s.Transfer(signers, from, done[0].to, done[0].projectId, done[0].amount);
      if step.Ok? {
        TransferLegsSplit(step.value.0, signers, from, done[1..], rest);
      }
    }
  }

  /** The contract over its mutable storage. Every failing path first puts the storage back, as the host does. */
  class CreditContract {
    var config: Option<CreditConfig>
    var balances: Balances
    var supply: map<ProjectId, int>
    var retired: map<ProjectId, int>
    var usedOps: set<OperationId>
    const registry: R.RegistryContract

    ghost function State(): Credit
      reads this
    {
      Credit(config, balances, supply, retired, usedOps)
    }

    constructor (registry: R.RegistryContract)
      ensures State() == EMPTY && this.registry == registry
    {
      config, balances, supply, retired, usedOps := None, map[], map[], map[], {};
      this.registry := registry;
    }

    /** The host puts a failed transaction's storage back. */
    method RollBack(savedBalances: Balances, savedSupply: map<ProjectId, int>)
      modifies this`balances, this`supply
      ensures balances == savedBalances && supply == savedSupply
    {
      balances, supply := savedBalances, savedSupply;
    }

    /** write_amount_or_remove for a balance row. */
    method WriteBalance(key: (Address, ProjectId), amount: int)
      modifies this`balances
      ensures balances == Put(old(balances), key, amount)
      ensures forall k :: Row(balances, k) == if k == key then amount else Row(old(balances), k)
      ensures key in balances <==> amount != 0
    {
      if amount == 0 {
        balances := balances - {key};
      } else {
        balances := balances[key := amount];
      }
    }

    /** write_amount_or_remove for a supply row. */
    method WriteSupply(id: ProjectId, amount: int)
      modifies this`supply
      ensures supply == Put(old(supply), id, amount)
      ensures forall k :: Row(supply, k) == if k == id then amount else Row(old(supply), k)
      ensures id in supply <==> amount != 0
    {
      if amount == 0 {
        supply := supply - {id};
      } else {
        supply := supply[id := amount];
      }
    }

    method Initialize(admin: Address, marketplace: Address) returns (r: Result<(), CreditError>)
      modifies this
      ensures Committed(old(State()), State(), r, old(State()).Initialize(admin, marketplace))
    {
      if config.Some? {
        return Err(AlreadyInitialized);
      }
      config := Some(CreditConfig(admin, marketplace));
      return Ok(());
    }

    method Mint(signers: set<Address>, to: Address, id: ProjectId, amount: int) returns (r: Result<(), CreditError>)
      modifies this
      ensures Committed(old(State()), State(), r,
                        old(State()).Mint(signers, registry.State().Lookup(id), to, id, amount))
    {
      if config.None? {
        return Err(NotInitialized);
      }
      if config.value.marketplace !in signers {
        return Err(HostTrap);
      }
      if amount <= 0 {
        return Err(InvalidAmount);
      }
      if id !in registry.projects {
        return Err(HostTrap);
      }
      if registry.projects[id].status != R.Verified {
        return Err(ProjectNotVerified);
      }
      var saved := balances;
      var balance := Row(balances, (to, id)) + amount;
      if !InI128(balance) {
        return Err(InvalidAmount);
      }
      balances := balances[(to, id) := balance];
      var newSupply := Row(supply, id) + amount;
      if !InI128(newSupply) {
        balances := saved;
        return Err(InvalidAmount);
      }
      WriteSupply(id, newSupply);
      return Ok(());
    }

    method Transfer(signers: set<Address>, from: Address, to: Address, id: ProjectId, amount: int)
      returns (r: Result<(), CreditError>)
      modifies this`balances
      ensures Committed(old(State()), State(), r, old(State()).Transfer(signers, from, to, id, amount))
    {
      if from !in signers {
        return Err(HostTrap);
      }
      if config.None? {
        return Err(NotInitialized);
      }
      if amount <= 0 {
        return Err(InvalidAmount);
      }
      if from == to {
        return Ok(());
      }
      var fromBalance := Row(balances, (from, id));
      if fromBalance < amount {
        return Err(InsufficientBalance);
      }
      var saved := balances;
      var toBalance := Row(balances, (to, id));
      WriteBalance((from, id), fromBalance - amount);
      if !InI128(toBalance + amount) {
        balances := saved;
        return Err(InvalidAmount);
      }
      balances := balances[(to, id) := toBalance + amount];
      return Ok(());
    }

    method Burn(signers: set<Address>, from: Address, id: ProjectId, amount: int) returns (r: Result<(), CreditError>)
      modifies this
      ensures Committed(old(State()), State(), r, old(State()).Burn(signers, from, id, amount))
    {
      if config.None? {
        return Err(NotInitialized);
      }
      if config.value.marketplace !in signers {
        return Err(HostTrap);
      }
      if amount <= 0 {
        return Err(InvalidAmount);
      }
      var balance := Row(balances, (from, id));
      if balance < amount {
        return Err(InsufficientBalance);
      }
      WriteBalance((from, id), balance - amount);
      WriteSupply(id, SaturatingSub(Row(supply, id), amount));
      return Ok(());
    }

    method Retire(signers: set<Address>, from: Address, id: ProjectId, amount: int, op: OperationId)
      returns (r: Result<(), CreditError>)
      modifies this
      ensures Committed(old(State()), State(), r, old(State()).Retire(signers, from, id, amount, op))
    {
      if from !in signers {
        return Err(HostTrap);
      }
      if config.None? {
        return Err(NotInitialized);
      }
      if amount <= 0 {
        return Err(InvalidAmount);
      }
      if op in usedOps {
        return Err(AlreadyRetired);
      }
      var savedOps, savedBalances, savedSupply := usedOps, balances, supply;
      usedOps := usedOps + {op};
      var balance := Row(balances, (from, id));
      if balance < amount {
        usedOps := savedOps;
        return Err(InsufficientBalance);
      }
      WriteBalance((from, id), balance - amount);
      WriteSupply(id, SaturatingSub(Row(supply, id), amount));
      var newRetired := Row(retired, id) + amount;
      if !InI128(newRetired) {
        usedOps, balances, supply := savedOps, savedBalances, savedSupply;
        return Err(InvalidAmount);
      }
      retired := retired[id := newRetired];
      return Ok(());
    }

    method BatchTransfer(signers: set<Address>, from: Address, legs: seq<Leg>) returns (r: Result<(), CreditError>)
      modifies this`balances
      ensures Committed(old(State()), State(), r, old(State()).BatchTransfer(signers, from, legs))
    {
      if from !in signers {
        return Err(HostTrap);
      }
      var saved := balances;
      ghost var before := State();
      for i := 0 to |legs|
        invariant before.TransferLegs(signers, from, legs[..i]) == Ok((State(), ()))
      {
        assert legs == legs[..i] + legs[i..] && legs[..i + 1] == legs[..i] + [legs[i]];
        TransferLegsSplit(before, signers, from, legs[..i], legs[i..]);
        TransferLegsSplit(before, signers, from, legs[..i], [legs[i]]);
        var leg := legs[i];
        var step := Transfer(signers, from, leg.to, leg.projectId, leg.amount);
        if step.Err? {
          balances := saved;
          return step;
        }
      }
      assert legs[..|legs|] == legs;
      return Ok(());
    }
  }
}
