/** Carbon project records: contracts/carbon_registry. */
module CarbonRegistry {
  import opened Base
  import opened Bytes

  type ProjectId = Digest

  /** The bytes the host makes of an owner, a name and a vintage year, or the contract's fallback for them. */
  type ProjectBytes = (Address, string, U32) -> seq<Byte>

  /** The fallback encodes the vintage year alone. */
  function YearOnly(owner: Address, name: string, vintageYear: U32): seq<Byte> {
    BigEndian(vintageYear, 4)
  }

  datatype ProjectStatus = Pending | Verified | Suspended | Retired

  datatype Project = Project(
    owner: Address,
    name: string,
    totalCredits: int,
    issuedCredits: int,
    status: ProjectStatus,
    vintageYear: U32)

  datatype RegistryConfig = RegistryConfig(admin: Address, marketplace: Address)

  datatype RegistryError =
    | AlreadyInitialized
    | NotInitialized
    | ProjectNotFound
    | ProjectNotVerified
    | InsufficientCredits
    | InvalidAmount
    | ProjectSuspended
    | HostTrap // a failed `require_auth`

  datatype Registry = Registry(config: Option<RegistryConfig>, projects: map<ProjectId, Project>) {
    function Lookup(id: ProjectId): Option<Project> {
      if id in projects then Some(projects[id]) else None
    }

    function Initialize(admin: Address, marketplace: Address): Outcome<()> {
      if config.Some? then Err(AlreadyInitialized)
      else Ok((this.(config := Some(RegistryConfig(admin, marketplace))), ()))
    }

    /** An existing record under the derived id is replaced. */
    function RegisterProject(signers: set<Address>, encode: ProjectBytes, owner: Address, name: string,
        totalCredits: int, vintageYear: U32): Outcome<ProjectId>
    {
      if owner !in signers then Err(HostTrap)
      else if config.None? then Err(NotInitialized)
      else if totalCredits <= 0 then Err(InvalidAmount)
      else
        var id := Digest(encode(owner, name, vintageYear));
        var project := Project(owner, name, totalCredits, 0, Pending, vintageYear);
        Ok((this.(projects := projects[id := project]), id))
    }

    /** verify_project, suspend_project and retire_project differ only in the status they write. */
    function SetStatus(signers: set<Address>, id: ProjectId, status: ProjectStatus): Outcome<()> {
      if config.None? then Err(NotInitialized)
      else if config.value.admin !in signers then Err(HostTrap)
      else if id !in projects then Err(ProjectNotFound)
      else Ok((this.(projects := projects[id := projects[id].(status := status)]), ()))
    }

    function IssueCredits(signers: set<Address>, id: ProjectId, amount: int): Outcome<()> {
      if config.None? then Err(NotInitialized)
      else if config.value.marketplace !in signers then Err(HostTrap)
      else if amount <= 0 then Err(InvalidAmount)
      else if id !in projects then Err(ProjectNotFound)
      else
        var project := projects[id];
        var issued := project.issuedCredits + amount;
        if project.status == Suspended then Err(ProjectSuspended)
        else if project.status != Verified then Err(ProjectNotVerified)
        else if !InI128(issued) then Err(InvalidAmount)
        else if issued > project.totalCredits then Err(InsufficientCredits)
        else Ok((this.(projects := projects[id := project.(issuedCredits := issued)]), ()))
    }
  }

  type Outcome<T> = Result<(Registry, T), RegistryError>

  const EMPTY := Registry(None, map[])

  /** The contract over its mutable storage. */
  class RegistryContract {
    var config: Option<RegistryConfig>
    var projects: map<ProjectId, Project>
    const encode: ProjectBytes

    ghost function State(): Registry
      reads this
    {
      Registry(config, projects)
    }

    constructor (encode: ProjectBytes)
      ensures State() == EMPTY && this.encode == encode
    {
      config, projects := None, map[];
      this.encode := encode;
    }

    /** The host puts a failed transaction's storage back. */
    method RollBack(saved: map<ProjectId, Project>)
      modifies this`projects
      ensures projects == saved
    {
      projects := saved;
    }

    method Initialize(admin: Address, marketplace: Address) returns (r: Result<(), RegistryError>)
      modifies this
      ensures Committed(old(State()), State(), r, old(State()).Initialize(admin, marketplace))
    {
      if config.Some? {
        return Err(AlreadyInitialized);
      }
      config := Some(RegistryConfig(admin, marketplace));
      return Ok(());
    }

    method RegisterProject(signers: set<Address>, owner: Address, name: string, totalCredits: int, vintageYear: U32)
      returns (r: Result<ProjectId, RegistryError>)
      modifies this
      ensures Committed(old(State()), State(), r,
                        old(State()).RegisterProject(signers, encode, owner, name, totalCredits, vintageYear))
    {
      if owner !in signers {
        return Err(HostTrap);
      }
      if config.None? {
        return Err(NotInitialized);
      }
      if totalCredits <= 0 {
        return Err(InvalidAmount);
      }
      var id := Digest(encode(owner, name, vintageYear));
      projects := projects[id := Project(owner, name, totalCredits, 0, Pending, vintageYear)];
      return Ok(id);
    }

    method SetStatus(signers: set<Address>, id: ProjectId, status: ProjectStatus) returns (r: Result<(), RegistryError>)
      modifies this
      ensures Committed(old(State()), State(), r, old(State()).SetStatus(signers, id, status))
    {
      if config.None? {
        return Err(NotInitialized);
      }
      if config.value.admin !in signers {
        return Err(HostTrap);
      }
      if id !in projects {
        return Err(ProjectNotFound);
      }
      var project := projects[id];
      projects := projects[id := project.(status := status)];
      return Ok(());
    }

    method IssueCredits(signers: set<Address>, id: ProjectId, amount: int) returns (r: Result<(), RegistryError>)
      modifies this
      ensures Committed(old(State()), State(), r, old(State()).IssueCredits(signers, id, amount))
    {
      if config.None? {
        return Err(NotInitialized);
      }
      if config.value.marketplace !in signers {
        return Err(HostTrap);
      }
      if amount <= 0 {
        return Err(InvalidAmount);
      }
      if id !in projects {
        return Err(ProjectNotFound);
      }
      var project := projects[id];
      if project.status == Suspended {
        return Err(ProjectSuspended);
      }
      if project.status != Verified {
        return Err(ProjectNotVerified);
      }
      var issued := project.issuedCredits + amount;
      if !InI128(issued) {
        return Err(InvalidAmount);
      }
      if issued > project.totalCredits {
        return Err(InsufficientCredits);
      }
      projects := projects[id := project.(issuedCredits := issued)];
      return Ok(());
    }
  }
}
