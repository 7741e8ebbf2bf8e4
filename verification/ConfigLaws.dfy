/** What a configuration tree holds, told value by value with the keys written out. */
module ConfigLaws {
  import opened Options
  import opened ChannelConfig

  // ---- one value --------------------------------------------------------------

  lemma {:induction false} CountOrderers(s: seq<string>, a: string)
    ensures multiset(Orderers(s))[Orderer(a)] == multiset(s)[a]
    ensures forall i :: i in Orderers(s) ==> i.Orderer?
  {
    if s != [] {
      var init, last := s[..|s| - 1], s[|s| - 1];
      CountOrderers(init, a);
      assert s == init + [last] && Orderers(s) == Orderers(init) + [Orderer(last)];
    }
  }

  lemma {:induction false} CountAnchors(org: string, s: seq<AnchorPeer>, o: OrgAnchorPeer)
    ensures multiset(Anchors(TagOrg(org, s)))[Anchor(o)]
         == if o.org == org then multiset(s)[AnchorPeer(o.host, o.port)] else 0
    ensures forall i :: i in Anchors(TagOrg(org, s)) ==> i.Anchor?
  {
    if s != [] {
      var init, last := s[..|s| - 1], s[|s| - 1];
      CountAnchors(org, init, o);
      assert s == init + [last];
      assert Anchors(TagOrg(org, s)) == Anchors(TagOrg(org, init)) + [Anchor(OrgAnchorPeer(org, last.host, last.port))];
    }
  }

  /** An MSP value of FABRIC type adds itself, once, and nothing else does. */
  lemma MspsOf(d: Decoders, key: string, v: ConfigValue, org: string, m: MSPConfig)
    ensures ValueItems(d, key, v, org)[Msp(m)]
         == if key == "MSP" && d.msp(v.value) == Some(m) && m.providerType == 0 then 1 else 0
  {
    if key == "OrdererAddresses" && d.ordererAddresses(v.value).Some? {
      CountOrderers(d.ordererAddresses(v.value).value, "");
    } else if key == "AnchorPeers" && d.anchorPeers(v.value).Some? {
      CountAnchors(org, d.anchorPeers(v.value).value, OrgAnchorPeer("", "", 0));
    }
  }

  /** An orderer address value adds each address as often as it lists it. */
  lemma OrderersOf(d: Decoders, key: string, v: ConfigValue, org: string, a: string)
    ensures ValueItems(d, key, v, org)[Orderer(a)]
         == if key == "OrdererAddresses" && d.ordererAddresses(v.value).Some?
            then multiset(d.ordererAddresses(v.value).value)[a] else 0
  {
    if key == "OrdererAddresses" && d.ordererAddresses(v.value).Some? {
      CountOrderers(d.ordererAddresses(v.value).value, a);
    } else if key == "AnchorPeers" && d.anchorPeers(v.value).Some? {
      CountAnchors(org, d.anchorPeers(v.value).value, OrgAnchorPeer("", "", 0));
    }
  }

  /** An anchor peer value adds each peer as often as it lists it, under its organisation. */
  lemma AnchorsOf(d: Decoders, key: string, v: ConfigValue, org: string, o: OrgAnchorPeer)
    ensures ValueItems(d, key, v, org)[Anchor(o)]
         == if key == "AnchorPeers" && d.anchorPeers(v.value).Some? && o.org == org
            then multiset(d.anchorPeers(v.value).value)[AnchorPeer(o.host, o.port)] else 0
  {
    if key == "OrdererAddresses" && d.ordererAddresses(v.value).Some? {
      CountOrderers(d.ordererAddresses(v.value).value, "");
    } else if key == "AnchorPeers" && d.anchorPeers(v.value).Some? {
      CountAnchors(org, d.anchorPeers(v.value).value, o);
    }
  }

  /** Which values stop the load. */
  lemma BadExactly(d: Decoders, key: string, v: ConfigValue)
    ensures BadValue(d, key, v) <==>
            || (key == "MSP" && (d.msp(v.value).None? || d.msp(v.value).value.providerType != 0))
            || (key == "AnchorPeers" && d.anchorPeers(v.value).None?)
            || (key == "OrdererAddresses" && d.ordererAddresses(v.value).None?)
            || (key == "Capabilities" && d.capabilities(v.value).None?)
  {
  }

  // ---- the values of a tree ---------------------------------------------------

  ghost function ValueAt(g: ConfigGroup, p: Place): ConfigValue
    requires IsPlace(g, p)
    decreases |p.path|
  {
    if p.path == [] then g.values[p.key] else ValueAt(g.groups[p.path[0]], Place(p.path[1..], p.key))
  }

  /** The name of the group at the end of a path. */
  ghost function NameAt(name: string, path: seq<string>): string {
    if path == [] then name else path[|path| - 1]
  }

  type Test = (string, ConfigValue, string) -> bool

  ghost function HoldsItem(d: Decoders, item: Item): Test {
    (k: string, v: ConfigValue, n: string) => item in ValueItems(d, k, v, n)
  }

  ghost function StopsLoad(d: Decoders): Test {
    (k: string, v: ConfigValue, n: string) => BadValue(d, k, v)
  }

  ghost function NamesMsp(d: Decoders, m: MSPConfig): Test {
    (k: string, v: ConfigValue, n: string) => m.providerType == 0 && k == "MSP" && d.msp(v.value) == Some(m)
  }

  ghost function ListsOrderer(d: Decoders, address: string): Test {
    (k: string, v: ConfigValue, n: string) =>
      k == "OrdererAddresses" && d.ordererAddresses(v.value).Some? && address in d.ordererAddresses(v.value).value
  }

  ghost function ListsAnchor(d: Decoders, o: OrgAnchorPeer): Test {
    (k: string, v: ConfigValue, n: string) =>
      k == "AnchorPeers" && o.org == n && d.anchorPeers(v.value).Some?
      && AnchorPeer(o.host, o.port) in d.anchorPeers(v.value).value
  }

  ghost function HasCapabilities(d: Decoders, group: string, caps: set<string>): Test {
    (k: string, v: ConfigValue, n: string) =>
      k == "Capabilities" && n == group && d.capabilities(v.value) == Some(caps)
  }

  /** Some value of the tree passes a test on its key, its content and its group's name. */
  ghost predicate SomeValue(g: ConfigGroup, name: string, test: Test) {
    exists p :: IsPlace(g, p) && test(p.key, ValueAt(g, p), NameAt(name, p.path))
  }

  lemma NothingThere(g: ConfigGroup, name: string, test: Test)
    requires g.NilGroup?
    ensures !SomeValue(g, name, test)
  {
  }

  lemma SomeValueHereOrBelow(g: ConfigGroup, name: string, test: Test)
    requires g.ConfigGroup?
    ensures SomeValue(g, name, test) <==>
            || (exists k :: k in g.values && test(k, g.values[k], name))
            || (exists k :: k in g.groups && SomeValue(g.groups[k], k, test))
  {
    if k :| k in g.values && test(k, g.values[k], name) {
      var p := Place([], k);
      assert IsPlace(g, p) && ValueAt(g, p) == g.values[k] && NameAt(name, p.path) == name;
    }
    if k :| k in g.groups && SomeValue(g.groups[k], k, test) {
      var q :| IsPlace(g.groups[k], q) && test(q.key, ValueAt(g.groups[k], q), NameAt(k, q.path));
      var p := Under(k, q);
      assert p.path[1..] == q.path;
      assert Place(p.path[1..], p.key) == q;
      assert IsPlace(g, p) && ValueAt(g, p) == ValueAt(g.groups[k], q) && NameAt(name, p.path) == NameAt(k, q.path);
    }
    if p :| IsPlace(g, p) && test(p.key, ValueAt(g, p), NameAt(name, p.path)) {
      if p.path == [] {
        assert test(p.key, g.values[p.key], name);
      } else {
        var k, q := p.path[0], Place(p.path[1..], p.key);
        assert IsPlace(g.groups[k], q) && ValueAt(g.groups[k], q) == ValueAt(g, p);
        assert NameAt(k, q.path) == NameAt(name, p.path);
      }
    }
  }

  lemma SameTest(g: ConfigGroup, name: string, a: Test, b: Test)
    requires forall k, v, n :: a(k, v, n) == b(k, v, n)
    ensures SomeValue(g, name, a) <==> SomeValue(g, name, b)
  {
  }

  lemma {:induction false} Collected(d: Decoders, g: ConfigGroup, org: string, item: Item)
    ensures item in GroupItems(d, g, org) <==> SomeValue(g, org, HoldsItem(d, item))
    decreases g
  {
    var test := HoldsItem(d, item);
    hide ValueItems, SomeValue, Sum;
    if g.NilGroup? {
      NothingThere(g, org, test);
    } else {
      var below, here := ChildBags(d, g), ValueBags(d, g, org);
      InSum(below, item);
      InSum(here, item);
      forall k | k in g.groups ensures item in below[k] <==> SomeValue(g.groups[k], k, test) {
        Collected(d, g.groups[k], k, item);
      }
      assert forall k :: k in here ==> here[k] == ValueItems(d, k, g.values[k], org);
      SomeValueHereOrBelow(g, org, test);
    }
  }

  /** The MSPs collected are those of FABRIC type that decode from a value with the
      key "MSP" anywhere in the tree. */
  lemma CollectedMsps(d: Decoders, g: ConfigGroup, org: string, m: MSPConfig)
    ensures Msp(m) in GroupItems(d, g, org) <==>
            m.providerType == 0 && exists p :: IsPlace(g, p) && p.key == "MSP" && d.msp(ValueAt(g, p).value) == Some(m)
  {
    var a := HoldsItem(d, Msp(m));
    var b := NamesMsp(d, m);
    Collected(d, g, org, Msp(m));
    forall k, v, n ensures a(k, v, n) == b(k, v, n) { MspsOf(d, k, v, n, m); }
    SameTest(g, org, a, b);
  }

  /** The orderers collected are those listed by a value with the key
      "OrdererAddresses" anywhere in the tree. */
  lemma CollectedOrderers(d: Decoders, g: ConfigGroup, org: string, address: string)
    ensures Orderer(address) in GroupItems(d, g, org) <==>
            exists p :: IsPlace(g, p) && p.key == "OrdererAddresses"
                        && d.ordererAddresses(ValueAt(g, p).value).Some?
                        && address in d.ordererAddresses(ValueAt(g, p).value).value
  {
    var a := HoldsItem(d, Orderer(address));
    var b := ListsOrderer(d, address);
    Collected(d, g, org, Orderer(address));
    forall k, v, n ensures a(k, v, n) == b(k, v, n) { OrderersOf(d, k, v, n, address); }
    SameTest(g, org, a, b);
  }

  /** The anchor peers collected are those listed by a value with the key
      "AnchorPeers", tagged with the name of the group that holds it. */
  lemma CollectedAnchors(d: Decoders, g: ConfigGroup, org: string, o: OrgAnchorPeer)
    ensures Anchor(o) in GroupItems(d, g, org) <==>
            exists p :: IsPlace(g, p) && p.key == "AnchorPeers" && o.org == NameAt(org, p.path)
                        && d.anchorPeers(ValueAt(g, p).value).Some?
                        && AnchorPeer(o.host, o.port) in d.anchorPeers(ValueAt(g, p).value).value
  {
    var a := HoldsItem(d, Anchor(o));
    var b := ListsAnchor(d, o);
    Collected(d, g, org, Anchor(o));
    forall k, v, n ensures a(k, v, n) == b(k, v, n) { AnchorsOf(d, k, v, n, o); }
    SameTest(g, org, a, b);
  }

  /** The load fails exactly when some value anywhere in the tree stops it. */
  lemma {:induction false} FailsExactly(d: Decoders, g: ConfigGroup)
    ensures Bad(d, g) <==> exists p :: IsPlace(g, p) && BadValue(d, p.key, ValueAt(g, p))
  {
    BadSomewhere(d, g, "");
    var test := StopsLoad(d);
    assert SomeValue(g, "", test) <==> exists p :: IsPlace(g, p) && BadValue(d, p.key, ValueAt(g, p));
  }

  lemma {:induction false} BadSomewhere(d: Decoders, g: ConfigGroup, name: string)
    ensures Bad(d, g) <==> SomeValue(g, name, StopsLoad(d))
    decreases g
  {
    var test := StopsLoad(d);
    hide BadValue, SomeValue;
    if g.NilGroup? {
      NothingThere(g, name, test);
    } else {
      forall k | k in g.groups ensures Bad(d, g.groups[k]) <==> SomeValue(g.groups[k], k, test) {
        BadSomewhere(d, g.groups[k], k);
      }
      SomeValueHereOrBelow(g, name, test);
    }
  }

  lemma {:induction false} CapabilitiesSomewhere(d: Decoders, g: ConfigGroup, name: string,
                                                 group: string, caps: set<string>)
    ensures (group, caps) in CapabilitySources(d, g, name) <==>
            SomeValue(g, name, HasCapabilities(d, group, caps))
    decreases g
  {
    var test := HasCapabilities(d, group, caps);
    hide SomeValue;
    if g.NilGroup? {
      NothingThere(g, name, test);
    } else {
      forall k | k in g.groups
        ensures (group, caps) in CapabilitySources(d, g.groups[k], k) <==> SomeValue(g.groups[k], k, test)
      {
        CapabilitiesSomewhere(d, g.groups[k], k, group, caps);
      }
      SomeValueHereOrBelow(g, name, test);
      assert (group, caps) in OwnCapabilities(d, g.values, name)
        <==> exists k :: k in g.values && test(k, g.values[k], name);
    }
  }

  /** The capability sets found are those that decode from a value with the key
      "Capabilities", under the name of the group that holds it. */
  lemma CapabilitiesExactly(d: Decoders, g: ConfigGroup, name: string, group: string, caps: set<string>)
    ensures (group, caps) in CapabilitySources(d, g, name) <==>
            exists p :: IsPlace(g, p) && p.key == "Capabilities" && NameAt(name, p.path) == group
                        && d.capabilities(ValueAt(g, p).value) == Some(caps)
  {
    CapabilitiesSomewhere(d, g, name, group, caps);
  }

  // ---- the version tree -------------------------------------------------------

  ghost function GroupAt(g: ConfigGroup, path: seq<string>): Option<ConfigGroup> {
    if path == [] then Some(g)
    else if g.ConfigGroup? && path[0] in g.groups then GroupAt(g.groups[path[0]], path[1..])
    else None
  }

  /** The version tree has the groups of the tree, each with its version, policies
      and keys, and each value with its version and bytes but no policy name. */
  lemma {:induction false} VersionsAt(g: ConfigGroup, path: seq<string>)
    ensures var (a, b) := (GroupAt(g, path), GroupAt(VersionTree(g), path));
            && (a.Some? <==> b.Some?)
            && (a.Some? && a.value.NilGroup? ==> b.value == ConfigGroup(0, "", map[], map[], map[]))
            && (a.Some? && a.value.ConfigGroup? ==>
                  && b.value.ConfigGroup?
                  && b.value.version == a.value.version && b.value.modPolicy == a.value.modPolicy
                  && b.value.policies == a.value.policies && b.value.groups.Keys == a.value.groups.Keys
                  && b.value.values.Keys == a.value.values.Keys
                  && forall k :: k in a.value.values ==>
                       b.value.values[k] == ConfigValue(a.value.values[k].version, a.value.values[k].value, ""))
    decreases |path|
  {
    if path != [] && g.ConfigGroup? && path[0] in g.groups {
      VersionsAt(g.groups[path[0]], path[1..]);
    }
  }
}
