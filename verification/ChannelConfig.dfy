/** Reading a channel configuration tree: collecting MSP configurations, orderer
    addresses, anchor peers and capabilities, and building the tree of versions. */
module ChannelConfig {
  import opened Options
  import opened Sequences

  type Bytes = seq<bv8>

  datatype ConfigValue = ConfigValue(version: nat, value: Bytes, modPolicy: string)
  datatype ConfigPolicy = ConfigPolicy(version: nat, policy: Bytes, modPolicy: string)
  datatype ConfigGroup =
    | NilGroup
    | ConfigGroup(version: nat, modPolicy: string, groups: map<string, ConfigGroup>,
                  values: map<string, ConfigValue>, policies: map<string, ConfigPolicy>)

  datatype MSPConfig = MSPConfig(providerType: int, config: Bytes)
  datatype AnchorPeer = AnchorPeer(host: string, port: int)
  datatype OrgAnchorPeer = OrgAnchorPeer(org: string, host: string, port: int)

  const FABRIC := 0

  /** The keys that loadConfigValue looks into. */
  datatype Kind = AnchorPeersKind | MspKind | CapabilitiesKind | OrdererAddressesKind | OtherKind

  function KindOf(key: string): Kind {
    if key == "AnchorPeers" then AnchorPeersKind
    else if key == "MSP" then MspKind
    else if key == "Capabilities" then CapabilitiesKind
    else if key == "OrdererAddresses" then OrdererAddressesKind
    else OtherKind
  }

  /** proto.Unmarshal for the four kinds of value that are looked into. */
  datatype Decoders = Decoders(
    anchorPeers: Bytes -> Option<seq<AnchorPeer>>,
    msp: Bytes -> Option<MSPConfig>,
    capabilities: Bytes -> Option<set<string>>,
    ordererAddresses: Bytes -> Option<seq<string>>)

  // ---- what is in a tree ----

  datatype Item = Msp(config: MSPConfig) | Orderer(address: string) | Anchor(peer: OrgAnchorPeer)

  function TagOrg(org: string, ps: seq<AnchorPeer>): seq<OrgAnchorPeer> {
    seq(|ps|, i requires 0 <= i < |ps| => OrgAnchorPeer(org, ps[i].host, ps[i].port))
  }

  ghost function Msps(s: seq<MSPConfig>): seq<Item> { seq(|s|, i requires 0 <= i < |s| => Msp(s[i])) }
  ghost function Orderers(s: seq<string>): seq<Item> { seq(|s|, i requires 0 <= i < |s| => Orderer(s[i])) }
  ghost function Anchors(s: seq<OrgAnchorPeer>): seq<Item> { seq(|s|, i requires 0 <= i < |s| => Anchor(s[i])) }

  /** A recognised value that does not decode, or names another kind of MSP. */
  ghost predicate BadValue(d: Decoders, key: string, v: ConfigValue) {
    match KindOf(key)
    case AnchorPeersKind => d.anchorPeers(v.value).None?
    case MspKind => d.msp(v.value).None? || d.msp(v.value).value.providerType != FABRIC
    case CapabilitiesKind => d.capabilities(v.value).None?
    case OrdererAddressesKind => d.ordererAddresses(v.value).None?
    case OtherKind => false
  }

  ghost predicate Bad(d: Decoders, g: ConfigGroup) {
    g.ConfigGroup? && (|| (exists k :: k in g.groups && Bad(d, g.groups[k]))
                       || (exists k :: k in g.values && BadValue(d, k, g.values[k])))
  }

  ghost function ValueItems(d: Decoders, key: string, v: ConfigValue, org: string): multiset<Item> {
    if BadValue(d, key, v) then multiset{}
    else
      match KindOf(key)
      case AnchorPeersKind => multiset(Anchors(TagOrg(org, d.anchorPeers(v.value).value)))
      case MspKind => multiset{Msp(d.msp(v.value).value)}
      case OrdererAddressesKind => multiset(Orderers(d.ordererAddresses(v.value).value))
      case _ => multiset{}
  }

  /** The sum of the bags of a map, in whatever order they are added. */
  ghost function Sum<K>(m: map<K, multiset<Item>>): multiset<Item> {
    if m == map[] then multiset{}
    else
      var k :| k in m; m[k] + Sum(m - {k})
  }

  ghost function ChildBags(d: Decoders, g: ConfigGroup): map<string, multiset<Item>>
    requires g.ConfigGroup?
    decreases g, 0
  {
    map k | k in g.groups :: GroupItems(d, g.groups[k], k)
  }

  ghost function ValueBags(d: Decoders, g: ConfigGroup, org: string): map<string, multiset<Item>>
    requires g.ConfigGroup?
  {
    map k | k in g.values :: ValueItems(d, k, g.values[k], org)
  }

  /** Everything the tree holds; a group's name is the organisation of its anchor peers. */
  ghost function GroupItems(d: Decoders, g: ConfigGroup, org: string): multiset<Item>
    decreases g, 1
  {
    if g.NilGroup? then multiset{} else Sum(ChildBags(d, g)) + Sum(ValueBags(d, g, org))
  }

  /** The capability sets found in the tree, with the name of their group. */
  ghost function CapabilitySources(d: Decoders, g: ConfigGroup, name: string): set<(string, set<string>)> {
    if g.NilGroup? then {}
    else
      (set k, p | k in g.groups && p in CapabilitySources(d, g.groups[k], k) :: p)
      + OwnCapabilities(d, g.values, name)
  }

  ghost function OwnCapabilities(d: Decoders, values: map<string, ConfigValue>, name: string)
    : set<(string, set<string>)>
  {
    set k | k in values && KindOf(k) == CapabilitiesKind && d.capabilities(values[k].value).Some?
      :: (name, d.capabilities(values[k].value).value)
  }

  ghost function VersionTree(g: ConfigGroup): ConfigGroup {
    if g.NilGroup? then ConfigGroup(0, "", map[], map[], map[])
    else ConfigGroup(g.version, g.modPolicy,
                     map k | k in g.groups :: VersionTree(g.groups[k]),
                     map k | k in g.values :: ConfigValue(g.values[k].version, g.values[k].value, ""),
                     g.policies)
  }

  // ---- sums do not depend on the order ----

  lemma {:induction false} SumPull<K>(m: map<K, multiset<Item>>, k: K)
    requires k in m
    ensures Sum(m) == m[k] + Sum(m - {k})
    decreases |m|
  {
    var j :| j in m && Sum(m) == m[j] + Sum(m - {j});
    if j != k {
      SumPull(m - {j}, k);
      SumPull(m - {k}, j);
      assert m - {j} - {k} == m - {k} - {j};
    }
  }

  lemma MapEnds<V>(m: map<string, V>)
    ensures m - m.Keys == map[] && m - {} == m
  {
  }

  lemma MapTurn<V>(m: map<string, V>, todo: set<string>, k: string)
    requires k in todo && k in m
    ensures m - (todo - {k}) == (m - todo)[k := m[k]]
  {
  }

  /** Adding the bag of `k` to those already added, when `todo` is still missing. */
  lemma SumTurn(m: map<string, multiset<Item>>, todo: set<string>, k: string)
    requires k in todo && k in m
    ensures Sum(m - (todo - {k})) == Sum(m - todo) + m[k]
  {
    SumPull(m - (todo - {k}), k);
    assert m - (todo - {k}) - {k} == m - todo;
  }

  // ---- the code ----

  class ChannelCfg {
    var msps: seq<MSPConfig>
    var anchorPeers: seq<OrgAnchorPeer>
    var orderers: seq<string>
    var capabilities: map<string, set<string>>

    constructor ()
      ensures Bag() == multiset{} && capabilities == map[]
    {
      msps, anchorPeers, orderers, capabilities := [], [], [], map[];
    }

    ghost function Bag(): multiset<Item>
      reads this
    {
      multiset(Msps(msps)) + multiset(Orderers(orderers)) + multiset(Anchors(anchorPeers))
    }
  }

  /** `after` is `before` with every source's name set to one of its sources. */
  ghost predicate Updated(before: map<string, set<string>>, after: map<string, set<string>>,
                          sources: set<(string, set<string>)>)
  {
    && after.Keys == before.Keys + (set p | p in sources :: p.0)
    && (forall n :: n in after ==> (n, after[n]) in sources || (n in before && after[n] == before[n]))
    && (forall p :: p in sources ==> (p.0, after[p.0]) in sources)
  }

  lemma UpdatedTwice(a: map<string, set<string>>, b: map<string, set<string>>, c: map<string, set<string>>,
                     s: set<(string, set<string>)>, t: set<(string, set<string>)>)
    requires Updated(a, b, s) && Updated(b, c, t)
    ensures Updated(a, c, s + t)
  {
    assert (set p | p in s + t :: p.0) == (set p | p in s :: p.0) + (set p | p in t :: p.0);
    forall p | p in s + t
      ensures (p.0, c[p.0]) in s + t
    {
      assert p.0 in c;
    }
  }

  method LoadAnchorPeers(d: Decoders, v: ConfigValue, items: ChannelCfg, org: string) returns (ok: bool)
    modifies items`anchorPeers
    ensures ok <==> d.anchorPeers(v.value).Some?
    ensures ok ==> items.Bag() == old(items.Bag()) + multiset(Anchors(TagOrg(org, d.anchorPeers(v.value).value)))
  {
    var ps := d.anchorPeers(v.value);
    if ps.None? { return false; }
    var tagged := TagOrg(org, ps.value);
    assert Anchors(items.anchorPeers + tagged) == Anchors(items.anchorPeers) + Anchors(tagged);
    items.anchorPeers := items.anchorPeers + tagged;
    return true;
  }

  method LoadMSPKey(d: Decoders, v: ConfigValue, items: ChannelCfg) returns (ok: bool)
    modifies items`msps
    ensures ok <==> d.msp(v.value).Some? && d.msp(v.value).value.providerType == FABRIC
    ensures ok ==> items.Bag() == old(items.Bag()) + multiset{Msp(d.msp(v.value).value)}
  {
    var m := d.msp(v.value);
    if m.None? || m.value.providerType != FABRIC { return false; }
    assert Msps(items.msps + [m.value]) == Msps(items.msps) + [Msp(m.value)];
    items.msps := items.msps + [m.value];
    return true;
  }

  method LoadOrdererAddressesKey(d: Decoders, v: ConfigValue, items: ChannelCfg) returns (ok: bool)
    modifies items`orderers
    ensures ok <==> d.ordererAddresses(v.value).Some?
    ensures ok ==> items.Bag() == old(items.Bag()) + multiset(Orderers(d.ordererAddresses(v.value).value))
  {
    var a := d.ordererAddresses(v.value);
    if a.None? { return false; }
    assert Orderers(items.orderers + a.value) == Orderers(items.orderers) + Orderers(a.value);
    items.orderers := items.orderers + a.value;
    return true;
  }

  method LoadCapabilities(d: Decoders, v: ConfigValue, items: ChannelCfg, groupName: string) returns (ok: bool)
    modifies items`capabilities
    ensures ok <==> d.capabilities(v.value).Some?
    ensures ok ==> items.capabilities == old(items.capabilities)[groupName := d.capabilities(v.value).value]
  {
    var c := d.capabilities(v.value);
    if c.None? { return false; }
    items.capabilities := items.capabilities[groupName := c.value];
    return true;
  }

  lemma OneValueCapabilities(d: Decoders, key: string, v: ConfigValue, name: string)
    ensures OwnCapabilities(d, map[key := v], name)
         == if KindOf(key) == CapabilitiesKind && d.capabilities(v.value).Some?
            then {(name, d.capabilities(v.value).value)} else {}
  {
    hide KindOf;
  }

  lemma UpdatedOnce(m: map<string, set<string>>, n: string, c: set<string>)
    ensures Updated(m, m, {}) && Updated(m, m[n := c], {(n, c)})
  {
  }

  method LoadConfigValue(d: Decoders, items: ChannelCfg, key: string, v: ConfigValue, groupName: string, org: string)
    returns (ok: bool, version: ConfigValue)
    modifies items
    ensures ok <==> !BadValue(d, key, v)
    ensures version == ConfigValue(v.version, v.value, "")
    ensures ok ==> items.Bag() == old(items.Bag()) + ValueItems(d, key, v, org)
    ensures ok ==> Updated(old(items.capabilities), items.capabilities, OwnCapabilities(d, map[key := v], groupName))
  {
    hide KindOf, OwnCapabilities, Updated, Msps, Orderers, Anchors;
    OneValueCapabilities(d, key, v, groupName);
    var decoded := d.capabilities(v.value);
    UpdatedOnce(items.capabilities, groupName, if decoded.Some? then decoded.value else {});
    version := ConfigValue(v.version, v.value, "");
    match KindOf(key)
    case AnchorPeersKind => ok := LoadAnchorPeers(d, v, items, org);
    case MspKind => ok := LoadMSPKey(d, v, items);
    case CapabilitiesKind => ok := LoadCapabilities(d, v, items, groupName);
    case OrdererAddressesKind => ok := LoadOrdererAddressesKey(d, v, items);
    case OtherKind => ok := true;
  }

  lemma OwnCapabilitiesTurn(d: Decoders, values: map<string, ConfigValue>, todo: set<string>, k: string, name: string)
    requires k in todo && k in values
    ensures OwnCapabilities(d, values - (todo - {k}), name)
         == OwnCapabilities(d, values - todo, name) + OwnCapabilities(d, map[k := values[k]], name)
  {
  }

  /** Where the loop over the values of a group stands when `todo` is left. */
  ghost predicate ValuesLoaded(d: Decoders, g: ConfigGroup, name: string, org: string, todo: set<string>,
                               bag0: multiset<Item>, caps0: map<string, set<string>>,
                               bag: multiset<Item>, caps: map<string, set<string>>, versions: map<string, ConfigValue>)
    requires g.ConfigGroup?
  {
    && todo <= g.values.Keys
    && (forall k :: k in g.values && k !in todo ==> !BadValue(d, k, g.values[k]))
    && versions == VersionTree(g).values - todo
    && bag == bag0 + Sum(ValueBags(d, g, org) - todo)
    && Updated(caps0, caps, OwnCapabilities(d, g.values - todo, name))
  }

  lemma ValuesStart(d: Decoders, g: ConfigGroup, name: string, org: string,
                    bag: multiset<Item>, caps: map<string, set<string>>)
    requires g.ConfigGroup?
    ensures ValuesLoaded(d, g, name, org, g.values.Keys, bag, caps, bag, caps, map[])
  {
    MapEnds(ValueBags(d, g, org));
    MapEnds(g.values);
    MapEnds(VersionTree(g).values);
    NoCapabilities(d, name);
    UpdatedOnce(caps, name, {});
  }

  lemma ValuesTurn(d: Decoders, g: ConfigGroup, name: string, org: string, todo: set<string>, k: string,
                   bag0: multiset<Item>, caps0: map<string, set<string>>,
                   bag: multiset<Item>, caps: map<string, set<string>>, versions: map<string, ConfigValue>,
                   after: map<string, set<string>>)
    requires g.ConfigGroup? && ValuesLoaded(d, g, name, org, todo, bag0, caps0, bag, caps, versions)
    requires k in todo && !BadValue(d, k, g.values[k])
    requires Updated(caps, after, OwnCapabilities(d, map[k := g.values[k]], name))
    ensures ValuesLoaded(d, g, name, org, todo - {k}, bag0, caps0, bag + ValueItems(d, k, g.values[k], org), after,
                         versions[k := ConfigValue(g.values[k].version, g.values[k].value, "")])
  {
    hide KindOf, BadValue, ValueItems, OwnCapabilities, Updated, Sum;
    SumTurn(ValueBags(d, g, org), todo, k);
    MapTurn(VersionTree(g).values, todo, k);
    OwnCapabilitiesTurn(d, g.values, todo, k, name);
    UpdatedTwice(caps0, caps, after, OwnCapabilities(d, g.values - todo, name),
                 OwnCapabilities(d, map[k := g.values[k]], name));
  }

  lemma ValuesEnd(d: Decoders, g: ConfigGroup, name: string, org: string,
                  bag0: multiset<Item>, caps0: map<string, set<string>>,
                  bag: multiset<Item>, caps: map<string, set<string>>, versions: map<string, ConfigValue>)
    requires g.ConfigGroup? && ValuesLoaded(d, g, name, org, {}, bag0, caps0, bag, caps, versions)
    ensures forall k :: k in g.values ==> !BadValue(d, k, g.values[k])
    ensures versions == VersionTree(g).values && bag == bag0 + Sum(ValueBags(d, g, org))
    ensures Updated(caps0, caps, OwnCapabilities(d, g.values, name))
  {
    MapEnds(ValueBags(d, g, org));
    MapEnds(g.values);
    MapEnds(VersionTree(g).values);
  }

  /** The values of one group, in any order. */
  method LoadValues(d: Decoders, items: ChannelCfg, group: ConfigGroup, name: string, org: string)
    returns (ok: bool, versions: map<string, ConfigValue>)
    requires group.ConfigGroup?
    modifies items
    ensures ok <==> forall k :: k in group.values ==> !BadValue(d, k, group.values[k])
    ensures ok ==> versions == VersionTree(group).values
    ensures ok ==> items.Bag() == old(items.Bag()) + Sum(ValueBags(d, group, org))
    ensures ok ==> Updated(old(items.capabilities), items.capabilities, OwnCapabilities(d, group.values, name))
  {
    hide *;
    ghost var bag0, caps0 := items.Bag(), items.capabilities;
    versions := map[];
    var todo := group.values.Keys;
    ValuesStart(d, group, name, org, bag0, caps0);
    while todo != {}
      invariant todo <= group.values.Keys
      invariant ValuesLoaded(d, group, name, org, todo, bag0, caps0, items.Bag(), items.capabilities, versions)
      decreases todo
    {
      var k :| k in todo;
      ghost var bag, caps := items.Bag(), items.capabilities;
      var good, version := LoadConfigValue(d, items, k, group.values[k], name, org);
      if !good {
        return false, versions;
      }
      ValuesTurn(d, group, name, org, todo, k, bag0, caps0, bag, caps, versions, items.capabilities);
      versions := versions[k := version];
      todo := todo - {k};
    }
    ValuesEnd(d, group, name, org, bag0, caps0, items.Bag(), items.capabilities, versions);
    ok := true;
  }

  lemma NoCapabilities(d: Decoders, name: string)
    ensures OwnCapabilities(d, map[], name) == {}
  {
  }

  ghost function ChildCapabilities(d: Decoders, groups: map<string, ConfigGroup>): set<(string, set<string>)> {
    set k, p | k in groups && p in CapabilitySources(d, groups[k], k) :: p
  }

  lemma ChildCapabilitiesTurn(d: Decoders, groups: map<string, ConfigGroup>, todo: set<string>, k: string)
    requires k in todo && k in groups
    ensures ChildCapabilities(d, groups - (todo - {k}))
         == ChildCapabilities(d, groups - todo) + CapabilitySources(d, groups[k], k)
  {
    var more, less := groups - (todo - {k}), groups - todo;
    forall p
      ensures p in ChildCapabilities(d, more)
              <==> p in ChildCapabilities(d, less) || p in CapabilitySources(d, groups[k], k)
    {
      if p in CapabilitySources(d, groups[k], k) {
        assert k in more && p in CapabilitySources(d, more[k], k);
      } else {
        assert forall j :: j in more && j != k ==> j in less && less[j] == more[j];
        assert forall j :: j in less ==> j in more && less[j] == more[j];
      }
    }
  }

  /** Where the loop over the subgroups stands when `todo` is left. */
  ghost predicate GroupsLoaded(d: Decoders, g: ConfigGroup, todo: set<string>,
                               bag0: multiset<Item>, caps0: map<string, set<string>>,
                               bag: multiset<Item>, caps: map<string, set<string>>, versions: map<string, ConfigGroup>)
    requires g.ConfigGroup?
  {
    && todo <= g.groups.Keys
    && (forall k :: k in g.groups && k !in todo ==> !Bad(d, g.groups[k]))
    && versions == VersionTree(g).groups - todo
    && bag == bag0 + Sum(ChildBags(d, g) - todo)
    && Updated(caps0, caps, ChildCapabilities(d, g.groups - todo))
  }

  lemma GroupsStart(d: Decoders, g: ConfigGroup, bag: multiset<Item>, caps: map<string, set<string>>)
    requires g.ConfigGroup?
    ensures GroupsLoaded(d, g, g.groups.Keys, bag, caps, bag, caps, map[])
  {
    MapEnds(ChildBags(d, g));
    MapEnds(g.groups);
    MapEnds(VersionTree(g).groups);
    NoChildren(d);
    UpdatedOnce(caps, "", {});
  }

  lemma GroupsTurn(d: Decoders, g: ConfigGroup, todo: set<string>, k: string,
                   bag0: multiset<Item>, caps0: map<string, set<string>>,
                   bag: multiset<Item>, caps: map<string, set<string>>, versions: map<string, ConfigGroup>,
                   after: map<string, set<string>>)
    requires g.ConfigGroup? && GroupsLoaded(d, g, todo, bag0, caps0, bag, caps, versions)
    requires k in todo && !Bad(d, g.groups[k])
    requires Updated(caps, after, CapabilitySources(d, g.groups[k], k))
    ensures GroupsLoaded(d, g, todo - {k}, bag0, caps0, bag + GroupItems(d, g.groups[k], k), after,
                         versions[k := VersionTree(g.groups[k])])
  {
    hide Bad, CapabilitySources, ChildCapabilities, Updated, Sum;
    SumTurn(ChildBags(d, g), todo, k);
    MapTurn(VersionTree(g).groups, todo, k);
    ChildCapabilitiesTurn(d, g.groups, todo, k);
    UpdatedTwice(caps0, caps, after, ChildCapabilities(d, g.groups - todo), CapabilitySources(d, g.groups[k], k));
  }

  lemma GroupsEnd(d: Decoders, g: ConfigGroup, bag0: multiset<Item>, caps0: map<string, set<string>>,
                  bag: multiset<Item>, caps: map<string, set<string>>, versions: map<string, ConfigGroup>)
    requires g.ConfigGroup? && GroupsLoaded(d, g, {}, bag0, caps0, bag, caps, versions)
    ensures forall k :: k in g.groups ==> !Bad(d, g.groups[k])
    ensures versions == VersionTree(g).groups && bag == bag0 + Sum(ChildBags(d, g))
    ensures Updated(caps0, caps, ChildCapabilities(d, g.groups))
  {
    MapEnds(ChildBags(d, g));
    MapEnds(g.groups);
    MapEnds(VersionTree(g).groups);
  }

  /** The subgroups of one group, in any order. */
  method LoadGroups(d: Decoders, items: ChannelCfg, group: ConfigGroup)
    returns (ok: bool, versions: map<string, ConfigGroup>)
    requires group.ConfigGroup?
    modifies items
    ensures ok <==> forall k :: k in group.groups ==> !Bad(d, group.groups[k])
    ensures ok ==> versions == VersionTree(group).groups
    ensures ok ==> items.Bag() == old(items.Bag()) + Sum(ChildBags(d, group))
    ensures ok ==> Updated(old(items.capabilities), items.capabilities, ChildCapabilities(d, group.groups))
    decreases group, 0
  {
    hide *;
    ghost var bag0, caps0 := items.Bag(), items.capabilities;
    versions := map[];
    var todo := group.groups.Keys;
    GroupsStart(d, group, bag0, caps0);
    while todo != {}
      invariant todo <= group.groups.Keys
      invariant GroupsLoaded(d, group, todo, bag0, caps0, items.Bag(), items.capabilities, versions)
      decreases todo
    {
      var k :| k in todo;
      ghost var bag, caps := items.Bag(), items.capabilities;
      var good, version := LoadConfig(d, items, group.groups[k], k, k);
      if !good {
        return false, versions;
      }
      GroupsTurn(d, group, todo, k, bag0, caps0, bag, caps, versions, items.capabilities);
      versions := versions[k := version];
      todo := todo - {k};
    }
    GroupsEnd(d, group, bag0, caps0, items.Bag(), items.capabilities, versions);
    ok := true;
  }

  lemma NoChildren(d: Decoders)
    ensures ChildCapabilities(d, map[]) == {}
  {
  }

  lemma GroupParts(d: Decoders, g: ConfigGroup, name: string, org: string)
    requires g.ConfigGroup?
    ensures !Bad(d, g) <==> && (forall k :: k in g.groups ==> !Bad(d, g.groups[k]))
                            && (forall k :: k in g.values ==> !BadValue(d, k, g.values[k]))
    ensures GroupItems(d, g, org) == Sum(ChildBags(d, g)) + Sum(ValueBags(d, g, org))
    ensures CapabilitySources(d, g, name) == ChildCapabilities(d, g.groups) + OwnCapabilities(d, g.values, name)
    ensures VersionTree(g)
         == ConfigGroup(g.version, g.modPolicy, VersionTree(g).groups, VersionTree(g).values, g.policies)
  {
    hide BadValue, OwnCapabilities;
  }

  lemma NilParts(d: Decoders, g: ConfigGroup, name: string, org: string)
    requires g.NilGroup?
    ensures !Bad(d, g) && GroupItems(d, g, org) == multiset{} && CapabilitySources(d, g, name) == {}
    ensures VersionTree(g) == ConfigGroup(0, "", map[], map[], map[])
  {
  }

  /** loadConfig collects exactly what the tree holds, builds its version tree,
      and fails exactly on a bad value, whatever the iteration order. */
  method LoadConfig(d: Decoders, items: ChannelCfg, group: ConfigGroup, name: string, org: string)
    returns (ok: bool, versions: ConfigGroup)
    modifies items
    ensures ok <==> !Bad(d, group)
    ensures ok ==> versions == VersionTree(group)
    ensures ok ==> items.Bag() == old(items.Bag()) + GroupItems(d, group, org)
    ensures ok ==> Updated(old(items.capabilities), items.capabilities, CapabilitySources(d, group, name))
    decreases group, 1
  {
    hide *;
    versions := ConfigGroup(0, "", map[], map[], map[]);
    if group.NilGroup? {
      NilParts(d, group, name, org);
      UpdatedOnce(items.capabilities, name, {});
      return true, versions;
    }
    GroupParts(d, group, name, org);
    versions := versions.(version := group.version, modPolicy := group.modPolicy);
    var good, groups := LoadGroups(d, items, group);
    if !good {
      return false, versions;
    }
    ghost var between := items.capabilities;
    versions := versions.(groups := groups);
    var fine, values := LoadValues(d, items, group, name, org);
    if !fine {
      return false, versions;
    }
    UpdatedTwice(old(items.capabilities), between, items.capabilities,
                 ChildCapabilities(d, group.groups), OwnCapabilities(d, group.values, name));
    versions := versions.(values := values, policies := group.policies);
    ok := true;
  }

  // ---- the items, independently of sums ----

  /** `item` comes from a value of the group reached by following `path`. */
  ghost predicate Holds(d: Decoders, g: ConfigGroup, org: string, path: seq<string>, item: Item)
    decreases |path|
  {
    g.ConfigGroup? &&
    if path == [] then exists k :: k in g.values && item in ValueItems(d, k, g.values[k], org)
    else path[0] in g.groups && Holds(d, g.groups[path[0]], path[0], path[1..], item)
  }

  lemma {:induction false} InSum(m: map<string, multiset<Item>>, item: Item)
    ensures item in Sum(m) <==> exists k :: k in m && item in m[k]
    decreases |m|
  {
    if m != map[] {
      var k :| k in m && Sum(m) == m[k] + Sum(m - {k});
      var rest := m - {k};
      InSum(rest, item);
      if j :| j in rest && item in rest[j] { assert j in m && item in m[j]; }
      if j :| j in m && item in m[j] && j != k { assert j in rest && item in rest[j]; }
    }
  }

  ghost predicate Reachable(d: Decoders, g: ConfigGroup, org: string, item: Item) {
    exists path :: Holds(d, g, org, path, item)
  }

  lemma ReachableHereOrBelow(d: Decoders, g: ConfigGroup, org: string, item: Item)
    requires g.ConfigGroup?
    ensures Reachable(d, g, org, item)
            <==> || (exists k :: k in g.values && item in ValueItems(d, k, g.values[k], org))
                 || (exists k :: k in g.groups && Reachable(d, g.groups[k], k, item))
  {
    hide ValueItems;
    if k :| k in g.values && item in ValueItems(d, k, g.values[k], org) {
      assert Holds(d, g, org, [], item);
    }
    if k :| k in g.groups && Reachable(d, g.groups[k], k, item) {
      var path :| Holds(d, g.groups[k], k, path, item);
      assert ([k] + path)[1..] == path;
      assert Holds(d, g, org, [k] + path, item);
    }
    if path :| Holds(d, g, org, path, item) {
      if path != [] {
        assert Holds(d, g.groups[path[0]], path[0], path[1..], item);
      }
    }
  }

  /** Nothing is invented and nothing is missed: an item is collected exactly
      when some path leads to a group with a value that holds it. */
  lemma {:induction false} CollectedExactly(d: Decoders, g: ConfigGroup, org: string, item: Item)
    ensures item in GroupItems(d, g, org) <==> Reachable(d, g, org, item)
    decreases g
  {
    hide ValueItems, Reachable, Sum;
    if g.NilGroup? {
      NothingReachable(d, g, org, item);
    } else {
      var below, here := ChildBags(d, g), ValueBags(d, g, org);
      InSum(below, item);
      InSum(here, item);
      forall k | k in g.groups
        ensures item in below[k] <==> Reachable(d, g.groups[k], k, item)
      {
        CollectedExactly(d, g.groups[k], k, item);
      }
      assert forall k :: k in here ==> here[k] == ValueItems(d, k, g.values[k], org);
      ReachableHereOrBelow(d, g, org, item);
    }
  }

  lemma NothingReachable(d: Decoders, g: ConfigGroup, org: string, item: Item)
    requires g.NilGroup?
    ensures !Reachable(d, g, org, item)
  {
  }

  // ---- how often an item is collected ----

  /** A value of the tree: the group names leading to it, and its key. */
  datatype Place = Place(path: seq<string>, key: string)

  ghost predicate IsPlace(g: ConfigGroup, p: Place)
    decreases |p.path|
  {
    g.ConfigGroup? &&
    if p.path == [] then p.key in g.values
    else p.path[0] in g.groups && IsPlace(g.groups[p.path[0]], Place(p.path[1..], p.key))
  }

  ghost function ItemsAt(d: Decoders, g: ConfigGroup, org: string, p: Place): multiset<Item>
    requires IsPlace(g, p)
    decreases |p.path|
  {
    if p.path == [] then ValueItems(d, p.key, g.values[p.key], org)
    else ItemsAt(d, g.groups[p.path[0]], p.path[0], Place(p.path[1..], p.key))
  }

  ghost function Under(name: string, p: Place): Place {
    Place([name] + p.path, p.key)
  }

  ghost function Places(g: ConfigGroup): set<Place> {
    if g.NilGroup? then {}
    else
      (set k | k in g.values :: Place([], k))
      + (set k, p | k in g.groups && p in Places(g.groups[k]) :: Under(k, p))
  }

  lemma {:induction false} PlacesExactly(g: ConfigGroup, p: Place)
    ensures p in Places(g) <==> IsPlace(g, p)
    decreases |p.path|
  {
    if g.ConfigGroup? && p.path != [] {
      var name, rest := p.path[0], Place(p.path[1..], p.key);
      assert p == Under(name, rest);
      if name in g.groups { PlacesExactly(g.groups[name], rest); }
      forall k, q | k in g.groups && q in Places(g.groups[k]) && Under(k, q) == p ensures k == name && q == rest {
        assert q.path == ([k] + q.path)[1..];
      }
    }
  }

  lemma {:induction false} SumUnion<K>(a: map<K, multiset<Item>>, b: map<K, multiset<Item>>)
    requires a.Keys !! b.Keys
    ensures Sum(a + b) == Sum(a) + Sum(b)
    decreases |a|
  {
    hide Sum;
    if a == map[] {
      EmptySum<K>();
      assert a + b == b;
    } else {
      var k :| k in a;
      SumPull(a, k);
      SumPull(a + b, k);
      SumUnion(a - {k}, b);
      UnionWithout(a, b, k);
    }
  }

  lemma EmptySum<K>()
    ensures Sum<K>(map[]) == multiset{}
  {
  }

  lemma UnionWithout<K, V>(a: map<K, V>, b: map<K, V>, k: K)
    requires k in a && k !in b
    ensures (a + b) - {k} == (a - {k}) + b && (a + b)[k] == a[k]
  {
  }

  /** A sum does not depend on how its terms are named. */
  lemma {:induction false} SumRenamed<K(!new), L>(a: map<K, multiset<Item>>, b: map<L, multiset<Item>>, f: K -> L)
    requires forall j, k :: j in a && k in a && f(j) == f(k) ==> j == k
    requires forall k :: k in a ==> f(k) in b && b[f(k)] == a[k]
    requires forall l :: l in b ==> exists k :: k in a && f(k) == l
    ensures Sum(a) == Sum(b)
    decreases |a|
  {
    if a == map[] {
      assert b == map[];
    } else {
      var k :| k in a;
      SumPull(a, k);
      SumPull(b, f(k));
      SumRenamed(a - {k}, b - {f(k)}, f);
    }
  }

  ghost function Bags(d: Decoders, g: ConfigGroup, org: string, places: set<Place>): map<Place, multiset<Item>> {
    map p | p in places && IsPlace(g, p) :: ItemsAt(d, g, org, p)
  }

  /** The places in the group itself, and those in some of its children. */
  ghost function Here(g: ConfigGroup): set<Place> {
    set p | p in Places(g) && p.path == []
  }

  ghost function Below(g: ConfigGroup, names: set<string>): set<Place> {
    set p | p in Places(g) && p.path != [] && p.path[0] in names
  }

  lemma HereSum(d: Decoders, g: ConfigGroup, org: string)
    requires g.ConfigGroup?
    ensures Sum(Bags(d, g, org, Here(g))) == Sum(ValueBags(d, g, org))
  {
    var a, b := ValueBags(d, g, org), Bags(d, g, org, Here(g));
    var f := (k: string) => Place([], k);
    hide ValueItems, Sum;
    forall k | k in a ensures f(k) in b && b[f(k)] == a[k] {
      PlacesExactly(g, f(k));
    }
    forall p | p in b ensures exists k :: k in a && f(k) == p {
      assert p.key in a && f(p.key) == p;
    }
    SumRenamed(a, b, f);
  }

  lemma ChildSum(d: Decoders, g: ConfigGroup, org: string, name: string)
    requires g.ConfigGroup? && name in g.groups
    ensures Sum(Bags(d, g, org, Below(g, {name}))) == Sum(Bags(d, g.groups[name], name, Places(g.groups[name])))
  {
    var child := g.groups[name];
    var a, b := Bags(d, child, name, Places(child)), Bags(d, g, org, Below(g, {name}));
    var f := (p: Place) => Under(name, p);
    hide Sum;
    forall p | p in a ensures f(p) in b && b[f(p)] == a[p] {
      assert f(p).path[1..] == p.path;
      PlacesExactly(g, f(p));
    }
    forall p, q | p in a && q in a && f(p) == f(q) ensures p == q {
      assert f(p).path[1..] == p.path && f(q).path[1..] == q.path;
    }
    forall p | p in b ensures exists q :: q in a && f(q) == p {
      var q := Place(p.path[1..], p.key);
      PlacesExactly(child, q);
      assert q in a && f(q) == p;
    }
    SumRenamed(a, b, f);
  }

  ghost function SomeChildBags(d: Decoders, g: ConfigGroup, names: set<string>): map<string, multiset<Item>>
    requires g.ConfigGroup? && names <= g.groups.Keys
  {
    map k | k in names :: GroupItems(d, g.groups[k], k)
  }

  lemma {:induction false} ChildrenSum(d: Decoders, g: ConfigGroup, org: string, names: set<string>)
    requires g.ConfigGroup? && names <= g.groups.Keys
    requires forall k :: k in names ==>
               Sum(Bags(d, g.groups[k], k, Places(g.groups[k]))) == GroupItems(d, g.groups[k], k)
    ensures Sum(Bags(d, g, org, Below(g, names))) == Sum(SomeChildBags(d, g, names))
    decreases names
  {
    if names == {} {
      assert Bags(d, g, org, Below(g, names)) == map[] && SomeChildBags(d, g, names) == map[];
    } else {
      hide *;
      var name :| name in names;
      ChildrenSum(d, g, org, names - {name});
      ChildSum(d, g, org, name);
      OneChildMore(d, g, org, names, name);
      SumUnion(Bags(d, g, org, Below(g, names - {name})), Bags(d, g, org, Below(g, {name})));
      SumPull(SomeChildBags(d, g, names), name);
    }
  }

  lemma OneChildMore(d: Decoders, g: ConfigGroup, org: string, names: set<string>, name: string)
    requires g.ConfigGroup? && names <= g.groups.Keys && name in names
    ensures var rest := names - {name};
            var a, b := Bags(d, g, org, Below(g, rest)), Bags(d, g, org, Below(g, {name}));
            && a.Keys !! b.Keys && Bags(d, g, org, Below(g, names)) == a + b
            && SomeChildBags(d, g, names) - {name} == SomeChildBags(d, g, rest)
            && name in SomeChildBags(d, g, names)
            && SomeChildBags(d, g, names)[name] == GroupItems(d, g.groups[name], name)
  {
    hide GroupItems, ItemsAt, Places, IsPlace;
  }

  lemma {:induction false} AllPlacesSum(d: Decoders, g: ConfigGroup, org: string)
    ensures Sum(Bags(d, g, org, Places(g))) == GroupItems(d, g, org)
    decreases g
  {
    if g.NilGroup? {
      assert Bags(d, g, org, Places(g)) == map[];
    } else {
      forall k | k in g.groups
        ensures Sum(Bags(d, g.groups[k], k, Places(g.groups[k]))) == GroupItems(d, g.groups[k], k)
      {
        AllPlacesSum(d, g.groups[k], k);
      }
      var names := g.groups.Keys;
      HereSum(d, g, org);
      ChildrenSum(d, g, org, names);
      assert SomeChildBags(d, g, names) == ChildBags(d, g);
      var here, below := Bags(d, g, org, Here(g)), Bags(d, g, org, Below(g, names));
      SumUnion(here, below);
      HereOrBelow(d, g, org);
    }
  }

  lemma HereOrBelow(d: Decoders, g: ConfigGroup, org: string)
    requires g.ConfigGroup?
    ensures Bags(d, g, org, Places(g)) == Bags(d, g, org, Here(g)) + Bags(d, g, org, Below(g, g.groups.Keys))
  {
    hide ItemsAt;
    forall p | p in Places(g) ensures p in Here(g) || p in Below(g, g.groups.Keys) {
      PlacesExactly(g, p);
    }
  }

  ghost function CountAt(d: Decoders, g: ConfigGroup, org: string, places: seq<Place>, item: Item): nat
    requires forall i :: 0 <= i < |places| ==> IsPlace(g, places[i])
  {
    if places == [] then 0 else ItemsAt(d, g, org, places[0])[item] + CountAt(d, g, org, places[1..], item)
  }

  /** An item is collected as often as the values of the tree hold it together:
      go through the values in any order, each once, and count. */
  lemma CountedExactly(d: Decoders, g: ConfigGroup, org: string, places: seq<Place>, item: Item)
    requires Distinct(places) && forall p :: p in places <==> IsPlace(g, p)
    ensures GroupItems(d, g, org)[item] == CountAt(d, g, org, places, item)
  {
    AllPlacesSum(d, g, org);
    var bags := Bags(d, g, org, Places(g));
    forall p ensures p in bags <==> p in places { PlacesExactly(g, p); }
    CountSum(d, g, org, bags, places, item);
  }

  lemma {:induction false} CountSum(d: Decoders, g: ConfigGroup, org: string, bags: map<Place, multiset<Item>>,
                                    places: seq<Place>, item: Item)
    requires Distinct(places) && forall p :: p in places <==> p in bags
    requires forall p :: p in bags ==> IsPlace(g, p) && bags[p] == ItemsAt(d, g, org, p)
    ensures Sum(bags)[item] == CountAt(d, g, org, places, item)
  {
    if places == [] {
      assert bags == map[];
    } else {
      var p, rest := places[0], places[1..];
      assert p in bags && p !in rest;
      SumPull(bags, p);
      CountSum(d, g, org, bags - {p}, rest, item);
    }
  }

  // ---- the version tree carries the same configuration ----

  lemma {:induction false} VersionTreeIdempotent(g: ConfigGroup)
    ensures VersionTree(VersionTree(g)) == VersionTree(g)
    decreases g
  {
    if g.ConfigGroup? {
      var t := VersionTree(g);
      forall k | k in g.groups ensures VersionTree(t.groups[k]) == t.groups[k] { VersionTreeIdempotent(g.groups[k]); }
    }
  }

  lemma SameValue(d: Decoders, key: string, v: ConfigValue, org: string)
    ensures var w := ConfigValue(v.version, v.value, "");
            ValueItems(d, key, w, org) == ValueItems(d, key, v, org) && (BadValue(d, key, w) <==> BadValue(d, key, v))
  {
    hide KindOf;
  }

  lemma SameValues(d: Decoders, g: ConfigGroup, org: string)
    requires g.ConfigGroup?
    ensures ValueBags(d, VersionTree(g), org) == ValueBags(d, g, org)
    ensures forall k :: k in g.values ==> (BadValue(d, k, VersionTree(g).values[k]) <==> BadValue(d, k, g.values[k]))
  {
    hide BadValue, ValueItems;
    forall k | k in g.values
      ensures ValueItems(d, k, VersionTree(g).values[k], org) == ValueItems(d, k, g.values[k], org)
      ensures BadValue(d, k, VersionTree(g).values[k]) <==> BadValue(d, k, g.values[k])
    {
      SameValue(d, k, g.values[k], org);
    }
  }

  /** Two groups whose children and values agree hold the same. */
  lemma SameParts(d: Decoders, g: ConfigGroup, t: ConfigGroup, org: string)
    requires g.ConfigGroup? && t.ConfigGroup? && t.groups.Keys == g.groups.Keys && t.values.Keys == g.values.Keys
    requires forall k :: k in g.groups ==>
               && GroupItems(d, t.groups[k], k) == GroupItems(d, g.groups[k], k)
               && (Bad(d, t.groups[k]) <==> Bad(d, g.groups[k]))
    requires ValueBags(d, t, org) == ValueBags(d, g, org)
    requires forall k :: k in g.values ==> (BadValue(d, k, t.values[k]) <==> BadValue(d, k, g.values[k]))
    ensures GroupItems(d, t, org) == GroupItems(d, g, org)
    ensures Bad(d, t) <==> Bad(d, g)
  {
    hide BadValue, ValueItems, Sum;
    assert ChildBags(d, t) == ChildBags(d, g);
  }

  /** Loading the version tree gives the same tree and the same items again, and
      fails exactly when loading the original fails. */
  lemma {:induction false} VersionTreeReloads(d: Decoders, g: ConfigGroup, org: string)
    ensures GroupItems(d, VersionTree(g), org) == GroupItems(d, g, org)
    ensures Bad(d, VersionTree(g)) <==> Bad(d, g)
    decreases g
  {
    hide GroupItems, Bad;
    if g.NilGroup? {
      NilParts(d, g, "", org);
      EmptyTree(d, org);
    } else {
      forall k | k in g.groups
        ensures GroupItems(d, VersionTree(g).groups[k], k) == GroupItems(d, g.groups[k], k)
        ensures Bad(d, VersionTree(g).groups[k]) <==> Bad(d, g.groups[k])
      {
        VersionTreeReloads(d, g.groups[k], k);
      }
      SameValues(d, g, org);
      hide BadValue, ValueBags;
      SameParts(d, g, VersionTree(g), org);
    }
  }

  lemma EmptyTree(d: Decoders, org: string)
    ensures var g := ConfigGroup(0, "", map[], map[], map[]);
            GroupItems(d, g, org) == multiset{} && !Bad(d, g)
  {
    var g := ConfigGroup(0, "", map[], map[], map[]);
    assert ChildBags(d, g) == map[] && ValueBags(d, g, org) == map[];
  }
}
