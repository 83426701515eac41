/**
 * Call sequences on the in-memory registry: what a caller observes from the
 * lookups after adds, overwrites and deletes.
 */
module InMemoryScenarios {
  import opened JavaText
  import opened InMemory

  /**
   * Adding a domain makes the lookup return the object the add returned; a
   * second add under the same name replaces it, and the set of domains then
   * holds only the replacement.
   */
  method AddThenGetDomain(name: string, numParts: int32)
    returns (firstFound: bool, secondFound: bool, firstGone: bool, configs: set<MemDomain>, second: MemDomain)
    ensures firstFound && secondFound && firstGone
    ensures configs == {second}
  {
    var c := new Coordinator();
    var d1 := c.AddDomain(name, numParts, "factory", "options", "partitioner");
    firstFound := c.GetDomainConfig(name) == d1;
    second := c.AddDomain(name, numParts, "factory", "options", "partitioner");
    secondFound := c.GetDomainConfig(name) == second;
    firstGone := second != d1;
    configs := c.GetDomainConfigs();
  }

  /** A fresh registry knows no name and has no records. */
  method UnknownNames(name: string)
    returns (domain: MemDomain?, group: MemDomainGroup?, ring: MemRingGroup?,
             domains: set<MemDomain>, groups: set<MemDomainGroup>, rings: set<MemRingGroup>)
    ensures domain == null && group == null && ring == null
    ensures domains == {} && groups == {} && rings == {}
  {
    var c := new Coordinator();
    domain := c.GetDomainConfig(name);
    group := c.GetDomainGroupConfig(name);
    ring := c.GetRingGroupConfig(name);
    domains := c.GetDomainConfigs();
    groups := c.GetDomainGroupConfigs();
    rings := c.GetRingGroups();
  }

  /**
   * Deleting a registered domain reports true and leaves it unknown;
   * deleting it again reports false. The other domain and the groups stay.
   */
  method DeleteTwice(name: string, other: string)
    returns (first: bool, second: bool, gone: bool, otherKept: bool, groupKept: bool)
    requires name != other
    ensures first && !second && gone && otherKept && groupKept
  {
    var c := new Coordinator();
    var g := c.AddDomainGroup(name);
    var d := c.AddDomain(name, 1, "factory", "options", "partitioner");
    var e := c.AddDomain(other, 2, "factory", "options", "partitioner");
    first := c.DeleteDomainConfig(name);
    gone := c.GetDomainConfig(name) == null;
    second := c.DeleteDomainConfig(name);
    otherKept := c.GetDomainConfig(other) == e;
    groupKept := c.GetDomainGroupConfig(name) == g;
  }

  /**
   * A ring group added for a registered domain group is linked to it; one
   * added for an unknown domain group is linked to null.
   */
  method RingGroupLinks(ring1: string, ring2: string, group: string, unknown: string)
    returns (linked: bool, unlinked: bool, rings: set<MemRingGroup>, r1: MemRingGroup, r2: MemRingGroup)
    requires group != unknown && ring1 != ring2
    ensures linked && unlinked
    ensures rings == {r1, r2}
  {
    var c := new Coordinator();
    var g := c.AddDomainGroup(group);
    r1 := c.AddRingGroup(ring1, group);
    linked := r1.domainGroup == g;
    r2 := c.AddRingGroup(ring2, unknown);
    unlinked := r2.domainGroup == null;
    rings := c.GetRingGroups();
    assert c.ringGroups[ring1] == r1 && c.ringGroups[ring2] == r2;
  }
}
