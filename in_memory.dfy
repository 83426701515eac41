/**
 * The in-memory registry (`InMemoryCoordinator`): three name-keyed tables
 * of domains, domain groups and ring groups, each updated in place. The
 * records it hands out are objects, so a later add under the same name
 * stores a new object rather than changing the old one.
 */
module InMemory {
  import opened JavaText

  /** `MemDomain`: a domain as registered, with the arguments it was added with. */
  class MemDomain {
    const name: string
    const numParts: int32
    const storageEngineFactoryName: string
    const storageEngineOptions: string
    const partitionerName: string

    constructor (name: string, numParts: int32, storageEngineFactoryName: string,
                 storageEngineOptions: string, partitionerName: string)
      ensures this.name == name && this.numParts == numParts
      ensures this.storageEngineFactoryName == storageEngineFactoryName
      ensures this.storageEngineOptions == storageEngineOptions && this.partitionerName == partitionerName
    {
      this.name := name;
      this.numParts := numParts;
      this.storageEngineFactoryName := storageEngineFactoryName;
      this.storageEngineOptions := storageEngineOptions;
      this.partitionerName := partitionerName;
    }
  }

  /** `MemDomainGroup`: a domain group as registered. */
  class MemDomainGroup {
    const name: string

    constructor (name: string)
      ensures this.name == name
    {
      this.name := name;
    }
  }

  /** `MemRingGroup`: a ring group, linked to its domain group (null when that was unknown). */
  class MemRingGroup {
    const name: string
    const domainGroup: MemDomainGroup?

    constructor (name: string, domainGroup: MemDomainGroup?)
      ensures this.name == name && this.domainGroup == domainGroup
    {
      this.name := name;
      this.domainGroup := domainGroup;
    }
  }

  /** The values stored in a table, as the set `new HashSet(map.values())` holds. */
  function ValueSet<T>(m: map<string, T>): (s: set<T>)
    ensures forall k | k in m :: m[k] in s
    ensures forall x | x in s :: exists k | k in m :: m[k] == x
  {
    set k | k in m :: m[k]
  }

  class Coordinator {
    var domains: map<string, MemDomain>
    var domainGroups: map<string, MemDomainGroup>
    var ringGroups: map<string, MemRingGroup>

    /** Every table is keyed by the name of the record stored under it. */
    ghost predicate Valid()
      reads this
    {
      && (forall n | n in domains :: domains[n].name == n)
      && (forall n | n in domainGroups :: domainGroups[n].name == n)
      && (forall n | n in ringGroups :: ringGroups[n].name == n)
    }

    constructor ()
      ensures Valid()
      ensures domains == map[] && domainGroups == map[] && ringGroups == map[]
    {
      domains := map[];
      domainGroups := map[];
      ringGroups := map[];
    }

    /** `addDomain(...)`: registers a new domain under `name`, replacing any domain already there. */
    method AddDomain(name: string, numParts: int32, storageEngineFactoryName: string,
                     storageEngineOptions: string, partitionerName: string) returns (d: MemDomain)
      requires Valid()
      modifies this
      ensures Valid()
      ensures fresh(d) && d.name == name && d.numParts == numParts
      ensures d.storageEngineFactoryName == storageEngineFactoryName
      ensures d.storageEngineOptions == storageEngineOptions && d.partitionerName == partitionerName
      ensures domains == old(domains)[name := d]
      ensures domainGroups == old(domainGroups) && ringGroups == old(ringGroups)
    {
      d := new MemDomain(name, numParts, storageEngineFactoryName, storageEngineOptions, partitionerName);
      domains := domains[name := d];
    }

    /** `addDomainGroup(name)`: registers a new, empty domain group under `name`. */
    method AddDomainGroup(name: string) returns (g: MemDomainGroup)
      requires Valid()
      modifies this
      ensures Valid()
      ensures fresh(g) && g.name == name
      ensures domainGroups == old(domainGroups)[name := g]
      ensures domains == old(domains) && ringGroups == old(ringGroups)
    {
      g := new MemDomainGroup(name);
      domainGroups := domainGroups[name := g];
    }

    /**
     * `addRingGroup(name, domainGroupName)`: registers a ring group linked to
     * the domain group currently stored under `domainGroupName`, or to null
     * when there is none.
     */
    method AddRingGroup(name: string, domainGroupName: string) returns (rg: MemRingGroup)
      requires Valid()
      modifies this
      ensures Valid()
      ensures fresh(rg) && rg.name == name
      ensures rg.domainGroup == GetDomainGroupConfig(domainGroupName)
      ensures ringGroups == old(ringGroups)[name := rg]
      ensures domains == old(domains) && domainGroups == old(domainGroups)
    {
      rg := new MemRingGroup(name, GetDomainGroupConfig(domainGroupName));
      ringGroups := ringGroups[name := rg];
    }

    /** `getDomainConfig(name)`: the domain registered under `name`, or null. */
    function GetDomainConfig(name: string): (d: MemDomain?)
      reads this
      ensures d == null <==> name !in domains
      ensures d != null ==> d == domains[name]
    {
      if name in domains then domains[name] else null
    }

    /** `getDomainGroupConfig(name)`: the domain group registered under `name`, or null. */
    function GetDomainGroupConfig(name: string): (g: MemDomainGroup?)
      reads this
      ensures g == null <==> name !in domainGroups
      ensures g != null ==> g == domainGroups[name]
    {
      if name in domainGroups then domainGroups[name] else null
    }

    /** `getRingGroupConfig(name)`: the ring group registered under `name`, or null. */
    function GetRingGroupConfig(name: string): (rg: MemRingGroup?)
      reads this
      ensures rg == null <==> name !in ringGroups
      ensures rg != null ==> rg == ringGroups[name]
    {
      if name in ringGroups then ringGroups[name] else null
    }

    /** `getDomainConfigs()`: every registered domain. */
    function GetDomainConfigs(): (s: set<MemDomain>)
      reads this
      ensures forall n | n in domains :: domains[n] in s
      ensures forall d | d in s :: exists n | n in domains :: domains[n] == d
    {
      ValueSet(domains)
    }

    /** `getDomainGroupConfigs()`: every registered domain group. */
    function GetDomainGroupConfigs(): (s: set<MemDomainGroup>)
      reads this
      ensures forall n | n in domainGroups :: domainGroups[n] in s
      ensures forall g | g in s :: exists n | n in domainGroups :: domainGroups[n] == g
    {
      ValueSet(domainGroups)
    }

    /** `getRingGroups()`: every registered ring group. */
    function GetRingGroups(): (s: set<MemRingGroup>)
      reads this
      ensures forall n | n in ringGroups :: ringGroups[n] in s
      ensures forall rg | rg in s :: exists n | n in ringGroups :: ringGroups[n] == rg
    {
      ValueSet(ringGroups)
    }

    /** `deleteDomainConfig(name)`: removes the domain under `name`; reports whether there was one. */
    method DeleteDomainConfig(name: string) returns (removed: bool)
      requires Valid()
      modifies this
      ensures Valid()
      ensures removed <==> name in old(domains)
      ensures domains == old(domains) - {name}
      ensures domainGroups == old(domainGroups) && ringGroups == old(ringGroups)
    {
      removed := name in domains;
      domains := domains - {name};
    }
  }
}
