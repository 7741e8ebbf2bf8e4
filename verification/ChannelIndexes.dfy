/** The per-channel indexes of the endpoint configuration: they are computed
    once, before the default channel is taken out of the channel map, and must
    keep agreeing with what the stored channel configurations resolve to. */
module ChannelIndexes {
  import opened Options
  import opened Sequences
  import opened EndpointDirectory

  const DEFAULT_ENTITY := "_default"

  datatype PeerChannelConfig = PeerChannelConfig(
    endorsingPeer: bool, chaincodeQuery: bool, ledgerQuery: bool, eventSource: bool)
  datatype ChannelEndpointConfig = ChannelEndpointConfig(
    peers: map<string, PeerChannelConfig>, orderers: seq<string>, policies: string)
  datatype OrganizationConfig = OrganizationConfig(mspID: string, peers: seq<string>)

  datatype ChannelPeer = ChannelPeer(config: PeerChannelConfig, endpoint: EndpointValue, mspID: string)

  // ---- what a channel configuration resolves to ----

  /** `peers` and `orderers` are the two directories, `equalFold` is
      strings.EqualFold, `usable` says which peers pass verifyPeerConfig. */
  datatype Context = Context(
    lower: string -> string, equalFold: (string, string) -> bool, usable: (string, Option<string>) -> bool,
    peers: DirectoryValue, orderers: DirectoryValue, organizations: map<string, OrganizationConfig>)

  ghost predicate Lists(c: Context, o: OrganizationConfig, name: string) {
    exists i :: 0 <= i < |o.peers| && NamesPeer(c, o.peers[i], name)
  }

  ghost predicate NamesPeer(c: Context, listed: string, name: string) {
    || c.equalFold(listed, name)
    || (var m := FirstMatch(c.peers.matchers, listed); m.Some? && c.equalFold(m.value.config.mappedHost, name))
  }

  /** peerMSPID may answer any organisation that lists the peer. */
  ghost predicate MayBelong(c: Context, name: string, mspID: string) {
    exists k :: k in c.organizations && Lists(c, c.organizations[k], name) && c.organizations[k].mspID == mspID
  }

  ghost predicate PeerFound(c: Context, name: string) {
    Resolve(c.peers, c.lower(name)).Found?
  }

  ghost predicate Represents(c: Context, name: string, config: PeerChannelConfig, v: ChannelPeer) {
    && PeerFound(c, name)
    && v.config == config
    && v.endpoint == Resolve(c.peers, c.lower(name)).value && c.usable(v.endpoint.url, v.endpoint.cert)
    && v.mspID != "" && MayBelong(c, name, v.mspID)
  }

  /** A found peer that stops the load: unusable, or without a named MSP. */
  ghost predicate Rejected(c: Context, name: string) {
    && PeerFound(c, name)
    && (var v := Resolve(c.peers, c.lower(name)).value;
        !c.usable(v.url, v.cert) || MayBelong(c, name, "") || !exists id :: MayBelong(c, name, id))
  }

  ghost predicate ListedAs(c: Context, cfg: map<string, PeerChannelConfig>, vs: seq<ChannelPeer>, names: seq<string>) {
    && |names| == |vs| && Distinct(names)
    && (forall i :: 0 <= i < |vs| ==> names[i] in cfg && Represents(c, names[i], cfg[names[i]], vs[i]))
    && (forall n :: n in cfg && PeerFound(c, n) ==> n in names)
  }

  /** `vs` holds, in some order, one entry for each configured peer that a lookup finds. */
  ghost predicate ResolvesPeers(c: Context, cfg: map<string, PeerChannelConfig>, vs: seq<ChannelPeer>) {
    exists names :: ListedAs(c, cfg, vs, names)
  }

  ghost function AddOrderer(before: Option<seq<EndpointValue>>, found: Lookup<EndpointValue>)
    : Option<seq<EndpointValue>>
  {
    if before.None? then None
    else
      match found
      case Ignored => before
      case NotFound => None
      case Found(v) => Some(before.value + [v])
  }

  /** In order, skipping ignored orderers; None when one is missing. */
  ghost function ResolveOrderers(c: Context, names: seq<string>): Option<seq<EndpointValue>> {
    if names == [] then Some([])
    else AddOrderer(ResolveOrderers(c, names[..|names| - 1]), Resolve(c.orderers, c.lower(names[|names| - 1])))
  }

  lemma OneMoreOrderer(c: Context, names: seq<string>, i: nat)
    requires i < |names|
    ensures ResolveOrderers(c, names[..i + 1])
         == AddOrderer(ResolveOrderers(c, names[..i]), Resolve(c.orderers, c.lower(names[i])))
  {
    assert names[..i + 1][..i] == names[..i];
  }

  // ---- the loader and the lookups ----

  class EndpointConfig {
    const lower: string -> string
    const equalFold: (string, string) -> bool
    const usable: (string, Option<string>) -> bool
    const peers: Directory
    const orderers: Directory
    const organizations: map<string, OrganizationConfig>
    const channelMatchers: seq<Matcher>
    var channels: map<string, ChannelEndpointConfig>
    var channelPeersByChannel: map<string, seq<ChannelPeer>>
    var channelOrderersByChannel: map<string, seq<EndpointValue>>
    var defaultChannel: ChannelEndpointConfig

    ghost function Stored(): set<GrpcOptions> {
      peers.Stored() + orderers.Stored()
    }

    ghost function Ctx(): Context
      reads Stored()
    {
      Context(lower, equalFold, usable, peers.Value(), orderers.Value(), organizations)
    }

    /** The state in which loadNetworkConfig leaves the channel map. */
    constructor (lower: string -> string, equalFold: (string, string) -> bool, usable: (string, Option<string>) -> bool,
                 peers: Directory, orderers: Directory, organizations: map<string, OrganizationConfig>,
                 channelMatchers: seq<Matcher>, channels: map<string, ChannelEndpointConfig>)
      ensures this.lower == lower && this.equalFold == equalFold && this.usable == usable && this.peers == peers
      ensures this.orderers == orderers && this.organizations == organizations
      ensures this.channelMatchers == channelMatchers && this.channels == channels
    {
      this.lower, this.equalFold, this.usable, this.peers, this.orderers := lower, equalFold, usable, peers, orderers;
      this.organizations, this.channelMatchers, this.channels := organizations, channelMatchers, channels;
      channelPeersByChannel, channelOrderersByChannel := map[], map[];
      defaultChannel := ChannelEndpointConfig(map[], [], "");
    }

    function MappedChannelName(channelName: string): string
      reads this`channels
    {
      if lower(channelName) in channels then channelName
      else
        match FirstMatch(channelMatchers, channelName)
        case Some(m) => m.config.mappedName
        case None => DEFAULT_ENTITY
    }

    function ChannelConfig(name: string): ChannelEndpointConfig
      reads this`channels, this`defaultChannel
    {
      var mapped := MappedChannelName(name);
      if mapped == DEFAULT_ENTITY || lower(mapped) !in channels then defaultChannel else channels[lower(mapped)]
    }

    /** A missing key gives a nil slice. */
    function ChannelPeers(name: string): seq<ChannelPeer>
      reads this`channels, this`channelPeersByChannel
    {
      var k := lower(MappedChannelName(name));
      if k in channelPeersByChannel then channelPeersByChannel[k] else []
    }

    function ChannelOrderers(name: string): seq<EndpointValue>
      reads this`channels, this`channelOrderersByChannel
    {
      var k := lower(MappedChannelName(name));
      if k in channelOrderersByChannel then channelOrderersByChannel[k] else []
    }

    /** Whether organisation `o` lists the peer, directly or through a matcher. */
    method OrgLists(o: OrganizationConfig, name: string) returns (b: bool)
      ensures b == Lists(Ctx(), o, name)
    {
      for i := 0 to |o.peers|
        invariant forall j :: 0 <= j < i ==> !NamesPeer(Ctx(), o.peers[j], name)
      {
        if equalFold(o.peers[i], name) {
          assert NamesPeer(Ctx(), o.peers[i], name);
          return true;
        }
        var m := FirstMatch(peers.matchers, o.peers[i]);
        if m.Some? && equalFold(m.value.config.mappedHost, name) {
          assert NamesPeer(Ctx(), o.peers[i], name);
          return true;
        }
      }
      return false;
    }

    /** The last organisation met that lists the peer wins, in any order. */
    method PeerMSPID(name: string) returns (mspID: string, ok: bool)
      ensures ok <==> mspID != ""
      ensures ok ==> MayBelong(Ctx(), name, mspID)
      ensures !ok ==> MayBelong(Ctx(), name, "") || !exists id :: MayBelong(Ctx(), name, id)
    {
      mspID := "";
      var todo := organizations.Keys;
      while todo != {}
        invariant todo <= organizations.Keys
        invariant mspID != "" ==> MayBelong(Ctx(), name, mspID)
        invariant mspID == "" ==>
                    || MayBelong(Ctx(), name, "")
                    || forall k :: k in organizations && k !in todo ==> !Lists(Ctx(), organizations[k], name)
        decreases todo
      {
        var k :| k in todo;
        var listed := OrgLists(organizations[k], name);
        if listed {
          mspID := organizations[k].mspID;
          assert MayBelong(Ctx(), name, mspID);
        }
        todo := todo - {k};
      }
      ok := mspID != "";
    }

    /** The body of loadChannelPeers for one channel: peers in any order. */
    method LoadPeersOf(cfg: map<string, PeerChannelConfig>) returns (ok: bool, list: seq<ChannelPeer>)
      ensures Ctx() == old(Ctx())
      ensures ok ==> ResolvesPeers(Ctx(), cfg, list)
      ensures !ok ==> exists n :: n in cfg && Rejected(Ctx(), n)
    {
      hide ListedAs, ResolvesPeers, Represents, MayBelong, PeerFound, Resolve;
      ghost var c := Ctx();
      list := [];
      ghost var names: seq<string> := [];
      var todo := cfg.Keys;
      ListedStart(c, cfg);
      while todo != {}
        invariant todo <= cfg.Keys && Ctx() == c
        invariant ListedAs(c, cfg - todo, list, names)
        decreases todo
      {
        var name :| name in todo;
        var found := peers.TryMatching(lower(name));
        assert Ctx() == c;
        if found.Found? {
          var e := ValueOf(found.value);
          if !usable(e.url, e.cert) {
            WhyRejected(c, name);
            return false, list;
          }
          var mspID, known := PeerMSPID(name);
          assert Ctx() == c;
          if !known {
            WhyRejected(c, name);
            return false, list;
          }
          var p := ChannelPeer(cfg[name], e, mspID);
          ListedOneMore(c, cfg, todo, name, list, names, p);
          list := list + [p];
          names := names + [name];
        } else {
          ListedSame(c, cfg, todo, name, list, names);
        }
        todo := todo - {name};
      }
      ListedEnd(c, cfg, list, names);
      ok := true;
    }

    /** The body of loadChannelOrderers for one channel. */
    method LoadOrderersOf(names: seq<string>) returns (ok: bool, list: seq<EndpointValue>)
      ensures Ctx() == old(Ctx())
      ensures ok <==> ResolveOrderers(Ctx(), names).Some?
      ensures ok ==> ResolveOrderers(Ctx(), names) == Some(list)
    {
      hide Resolve, ResolveOrderers;
      ghost var c := Ctx();
      list := [];
      NoOrderers(c);
      for i := 0 to |names|
        invariant Ctx() == c && ResolveOrderers(c, names[..i]) == Some(list)
      {
        OneMoreOrderer(c, names, i);
        var found := orderers.TryMatching(lower(names[i]));
        assert Ctx() == c;
        match found
        case Ignored =>
        case NotFound =>
          MissingOrderer(c, names, i + 1);
          return false, list;
        case Found(e) => list := list + [ValueOf(e)];
      }
      assert names[..|names|] == names;
      ok := true;
    }

    /** The loop of loadChannelPeers: channels in any order. */
    method IndexPeers() returns (ok: bool, byChannel: map<string, seq<ChannelPeer>>)
      ensures Ctx() == old(Ctx())
      ensures !ok ==> exists k, n :: k in channels && n in channels[k].peers && Rejected(Ctx(), n)
      ensures ok && LowerKeys(lower, channels) ==>
                && byChannel.Keys == channels.Keys
                && forall k :: k in channels ==> ResolvesPeers(Ctx(), channels[k].peers, byChannel[k])
    {
      hide ResolvesPeers, Rejected, EndpointConfig.Ctx;
      ghost var c := Ctx();
      byChannel := map[];
      var todo := channels.Keys;
      while todo != {}
        invariant todo <= channels.Keys && Ctx() == c
        invariant LowerKeys(lower, channels) ==>
                    && byChannel.Keys == channels.Keys - todo
                    && forall k :: k in byChannel ==> ResolvesPeers(c, channels[k].peers, byChannel[k])
        decreases todo
      {
        var id :| id in todo;
        var good, list := LoadPeersOf(channels[id].peers);
        if !good {
          return false, byChannel;
        }
        byChannel := byChannel[lower(id) := list];
        todo := todo - {id};
      }
      ok := true;
    }

    method LoadChannelPeers() returns (ok: bool)
      modifies this`channelPeersByChannel
      ensures Ctx() == old(Ctx())
      ensures !ok ==> channelPeersByChannel == old(channelPeersByChannel)
      ensures !ok ==> exists k, n :: k in channels && n in channels[k].peers && Rejected(Ctx(), n)
      ensures ok && LowerKeys(lower, channels) ==>
                && channelPeersByChannel.Keys == channels.Keys
                && forall k :: k in channels ==> ResolvesPeers(Ctx(), channels[k].peers, channelPeersByChannel[k])
    {
      hide ResolvesPeers, Rejected;
      var byChannel;
      ok, byChannel := IndexPeers();
      if ok {
        channelPeersByChannel := byChannel;
      }
    }

    /** The loop of loadChannelOrderers. */
    method IndexOrderers() returns (ok: bool, byChannel: map<string, seq<EndpointValue>>)
      ensures Ctx() == old(Ctx())
      ensures ok <==> forall k :: k in channels ==> ResolveOrderers(Ctx(), channels[k].orderers).Some?
      ensures ok && LowerKeys(lower, channels) ==>
                && byChannel.Keys == channels.Keys
                && forall k :: k in channels ==> ResolveOrderers(Ctx(), channels[k].orderers) == Some(byChannel[k])
    {
      hide ResolveOrderers, EndpointConfig.Ctx;
      ghost var c := Ctx();
      byChannel := map[];
      var todo := channels.Keys;
      while todo != {}
        invariant todo <= channels.Keys && Ctx() == c
        invariant forall k :: k in channels && k !in todo ==> ResolveOrderers(c, channels[k].orderers).Some?
        invariant LowerKeys(lower, channels) ==>
                    && byChannel.Keys == channels.Keys - todo
                    && forall k :: k in byChannel ==> ResolveOrderers(c, channels[k].orderers) == Some(byChannel[k])
        decreases todo
      {
        var id :| id in todo;
        var good, list := LoadOrderersOf(channels[id].orderers);
        if !good {
          return false, byChannel;
        }
        byChannel := byChannel[lower(id) := list];
        todo := todo - {id};
      }
      ok := true;
    }

    method LoadChannelOrderers() returns (ok: bool)
      modifies this`channelOrderersByChannel
      ensures Ctx() == old(Ctx())
      ensures !ok ==> channelOrderersByChannel == old(channelOrderersByChannel)
      ensures ok <==> forall k :: k in channels ==> ResolveOrderers(Ctx(), channels[k].orderers).Some?
      ensures ok && LowerKeys(lower, channels) ==>
                && channelOrderersByChannel.Keys == channels.Keys
                && forall k :: k in channels ==>
                                 ResolveOrderers(Ctx(), channels[k].orderers) == Some(channelOrderersByChannel[k])
    {
      hide ResolveOrderers;
      var byChannel;
      ok, byChannel := IndexOrderers();
      if ok {
        channelOrderersByChannel := byChannel;
      }
    }

    /** Takes the default channel out of the map; `policies` are the hard-coded ones. */
    method LoadDefaultChannel(policies: string)
      modifies this`channels, this`defaultChannel
      ensures Ctx() == old(Ctx())
      ensures channels == old(channels) - {DEFAULT_ENTITY}
      ensures defaultChannel == if DEFAULT_ENTITY in old(channels) then old(channels)[DEFAULT_ENTITY]
                                else ChannelEndpointConfig(map[], [], policies)
    {
      if DEFAULT_ENTITY in channels {
        defaultChannel := channels[DEFAULT_ENTITY];
        channels := channels - {DEFAULT_ENTITY};
      } else {
        defaultChannel := ChannelEndpointConfig(map[], [], policies);
      }
    }

    /** What the indexes promise once loading is over. */
    ghost predicate Loaded()
      reads this, Stored()
    {
      && lower(DEFAULT_ENTITY) == DEFAULT_ENTITY && DEFAULT_ENTITY !in channels && LowerKeys(lower, channels)
      && channelPeersByChannel.Keys == channels.Keys + {DEFAULT_ENTITY}
      && channelOrderersByChannel.Keys == channels.Keys + {DEFAULT_ENTITY}
      && (forall k :: k in channelPeersByChannel ==> ResolvesPeers(Ctx(), Original(k).peers, channelPeersByChannel[k]))
      && (forall k :: k in channelOrderersByChannel ==>
                        ResolveOrderers(Ctx(), Original(k).orderers) == Some(channelOrderersByChannel[k]))
    }

    /** The configuration that was stored under `k` when the indexes were built. */
    ghost function Original(k: string): ChannelEndpointConfig
      reads this`channels, this`defaultChannel
    {
      if k in channels then channels[k] else defaultChannel
    }

    /** The tail of loadEndpointConfigEntities: it fails only if a configured peer
        is rejected or a configured orderer is missing. */
    method LoadChannels(policies: string) returns (ok: bool)
      requires DEFAULT_ENTITY in channels && lower(DEFAULT_ENTITY) == DEFAULT_ENTITY
      modifies this`channels, this`defaultChannel, this`channelPeersByChannel, this`channelOrderersByChannel
      ensures Ctx() == old(Ctx())
      ensures ok ==> channels == old(channels) - {DEFAULT_ENTITY} && defaultChannel == old(channels)[DEFAULT_ENTITY]
      ensures ok && LowerKeys(lower, old(channels)) ==> Loaded()
      ensures !ok ==> Blocked(old(Ctx()), old(channels))
      ensures ok ==> forall k :: k in old(channels) ==> ResolveOrderers(old(Ctx()), old(channels)[k].orderers).Some?
    {
      hide ResolvesPeers, ResolveOrderers, Rejected, EndpointConfig.Ctx;
      ghost var c, before := Ctx(), channels;
      ok := LoadChannelPeers();
      if !ok { return; }
      assert LowerKeys(lower, before) ==>
          forall k :: k in before ==> ResolvesPeers(c, before[k].peers, channelPeersByChannel[k]);
      ok := LoadChannelOrderers();
      if !ok { return; }
      assert LowerKeys(lower, before) ==>
          forall k :: k in before ==> ResolveOrderers(c, before[k].orderers) == Some(channelOrderersByChannel[k]);
      LoadDefaultChannel(policies);
      assert forall k :: k in before ==> Original(k) == before[k];
      assert before.Keys == channels.Keys + {DEFAULT_ENTITY};
    }

    /** The indexes give for `name` what its channel configuration resolves to. */
    ghost predicate Agrees(name: string)
      reads this, Stored()
    {
      && ResolvesPeers(Ctx(), ChannelConfig(name).peers, ChannelPeers(name))
      && ResolveOrderers(Ctx(), ChannelConfig(name).orderers) == Some(ChannelOrderers(name))
    }

    /** A matcher sends `name` to a channel that is not configured. */
    predicate Dangling(name: string)
      reads this`channels
    {
      var k := lower(MappedChannelName(name));
      k !in channels && k != DEFAULT_ENTITY
    }

    /** Index and configuration agree for every name, unknown ones that fall back
        to the deleted default included, unless the name dangles while the
        default channel has peers or orderers. */
    lemma AgreementExactly(name: string)
      requires Loaded()
      ensures Agrees(name)
              <==> !Dangling(name)
                   || (channelPeersByChannel[DEFAULT_ENTITY] == [] && channelOrderersByChannel[DEFAULT_ENTITY] == [])
    {
      hide Resolve;
      var k := lower(MappedChannelName(name));
      if k in channels {
        assert Original(k) == ChannelConfig(name);
      } else {
        assert Original(DEFAULT_ENTITY) == ChannelConfig(name) == defaultChannel;
        SameEmptiness(Ctx(), defaultChannel.peers, channelPeersByChannel[DEFAULT_ENTITY]);
      }
    }
  }

  /** Some channel has a peer that stops the load, or an orderer that is not found. */
  ghost predicate Blocked(c: Context, channels: map<string, ChannelEndpointConfig>) {
    || (exists k, n :: k in channels && n in channels[k].peers && Rejected(c, n))
    || (exists k :: k in channels && ResolveOrderers(c, channels[k].orderers).None?)
  }

  ghost predicate LowerKeys(lower: string -> string, channels: map<string, ChannelEndpointConfig>) {
    forall k :: k in channels ==> lower(k) == k
  }

  /** Two listings of the same peers are both empty or neither. */
  lemma SameEmptiness(c: Context, cfg: map<string, PeerChannelConfig>, vs: seq<ChannelPeer>)
    requires ResolvesPeers(c, cfg, vs)
    ensures ResolvesPeers(c, cfg, []) <==> vs == []
  {
    var names :| ListedAs(c, cfg, vs, names);
    if vs != [] {
      assert names[0] in cfg && PeerFound(c, names[0]);
      forall none: seq<string> | |none| == 0
        ensures !ListedAs(c, cfg, [], none)
      {
        assert names[0] !in none;
      }
    } else {
      assert ListedAs(c, cfg, [], names);
    }
  }

  lemma WhyRejected(c: Context, name: string)
    requires Resolve(c.peers, c.lower(name)).Found?
    requires var v := Resolve(c.peers, c.lower(name)).value;
             !c.usable(v.url, v.cert) || MayBelong(c, name, "") || !exists id :: MayBelong(c, name, id)
    ensures Rejected(c, name)
  {
  }

  lemma ListedStart(c: Context, cfg: map<string, PeerChannelConfig>)
    ensures ListedAs(c, cfg - cfg.Keys, [], [])
  {
  }

  lemma ListedEnd(c: Context, cfg: map<string, PeerChannelConfig>, vs: seq<ChannelPeer>, names: seq<string>)
    requires ListedAs(c, cfg - {}, vs, names)
    ensures ResolvesPeers(c, cfg, vs)
  {
    assert cfg - {} == cfg;
  }

  lemma ListedOneMore(c: Context, cfg: map<string, PeerChannelConfig>, todo: set<string>, name: string,
                      vs: seq<ChannelPeer>, names: seq<string>, v: ChannelPeer)
    requires ListedAs(c, cfg - todo, vs, names) && name in todo && name in cfg
    requires Resolve(c.peers, c.lower(name)).Found? && v.endpoint == Resolve(c.peers, c.lower(name)).value
    requires v.config == cfg[name] && c.usable(v.endpoint.url, v.endpoint.cert)
    requires v.mspID != "" && MayBelong(c, name, v.mspID)
    ensures ListedAs(c, cfg - (todo - {name}), vs + [v], names + [name])
  {
  }

  lemma ListedSame(c: Context, cfg: map<string, PeerChannelConfig>, todo: set<string>, name: string,
                   vs: seq<ChannelPeer>, names: seq<string>)
    requires ListedAs(c, cfg - todo, vs, names) && name in todo && name in cfg
    requires !Resolve(c.peers, c.lower(name)).Found?
    ensures ListedAs(c, cfg - (todo - {name}), vs, names)
  {
  }

  lemma NoOrderers(c: Context)
    ensures ResolveOrderers(c, []) == Some([])
  {
  }

  lemma {:induction false} MissingOrderer(c: Context, names: seq<string>, n: nat)
    requires n <= |names| && ResolveOrderers(c, names[..n]).None?
    ensures ResolveOrderers(c, names).None?
    decreases |names| - n
  {
    if n == |names| {
      assert names[..n] == names;
    } else {
      OneMoreOrderer(c, names, n);
      MissingOrderer(c, names, n + 1);
    }
  }
}
