/** What a lookup answers: which matcher counts, what it makes of an endpoint, which
    channel configuration a name gets, and what a list of endpoints holds. */
module LookupLaws {
  import opened Options
  import opened Sequences
  import opened EndpointDirectory
  import opened ChannelIndexes

  // ---- matchers ---------------------------------------------------------------

  ghost predicate IsFirst(ms: seq<Matcher>, key: string, i: nat) {
    i < |ms| && ms[i].matches(key) && forall j :: 0 <= j < i ==> !ms[j].matches(key)
  }

  /** The first matcher whose pattern matches counts, and no other. */
  lemma {:induction false} FirstMatchExactly(ms: seq<Matcher>, key: string)
    ensures FirstMatch(ms, key).None? <==> forall i :: 0 <= i < |ms| ==> !ms[i].matches(key)
    ensures forall i: nat :: IsFirst(ms, key, i) ==> FirstMatch(ms, key) == Some(ms[i])
  {
    if ms != [] && !ms[0].matches(key) {
      FirstMatchExactly(ms[1..], key);
      forall i | 0 <= i < |ms[1..]| ensures ms[1..][i] == ms[i + 1] {}
      forall i: nat | IsFirst(ms, key, i) ensures FirstMatch(ms, key) == Some(ms[i]) {
        assert i > 0 && ms[1..][i - 1] == ms[i];
        assert IsFirst(ms[1..], key, i - 1);
      }
      if forall i :: 0 <= i < |ms[1..]| ==> !ms[1..][i].matches(key) {
        forall i | 0 <= i < |ms| ensures !ms[i].matches(key) {
          if i > 0 { assert ms[1..][i - 1] == ms[i]; }
        }
      }
    }
  }

  /** Only an expression with a reference to the pattern is expanded. */
  ghost predicate Expands(m: Matcher, key: string, expression: string, result: string) {
    ('$' in expression ==> result == m.replaceAll(key, expression)) && ('$' !in expression ==> result == expression)
  }

  /** Without a matching pattern a name is looked up as it is, in lower case. */
  lemma ResolvesByName(d: DirectoryValue, key: string)
    requires forall i :: 0 <= i < |d.matchers| ==> !d.matchers[i].matches(key)
    ensures d.lower(key) in d.entries ==> Resolve(d, key) == Found(d.entries[d.lower(key)])
    ensures d.lower(key) !in d.entries ==> Resolve(d, key) == NotFound
  {
    FirstMatchExactly(d.matchers, key);
  }

  /** A matching pattern always answers: not at all if it says so, else with the
      entry it maps to, or the default, under the address and name it substitutes. */
  lemma ResolvesByMatcher(d: DirectoryValue, key: string, i: nat, host: string, url: string, name: string)
    requires IsFirst(d.matchers, key, i)
    requires var m := d.matchers[i];
             && Expands(m, key, m.config.mappedHost, host)
             && Expands(m, key, m.config.urlSubstitution, url)
             && Expands(m, key, m.config.sslSubstitution, name)
    ensures var m, r := d.matchers[i], Resolve(d, key);
            && (m.config.ignoreEndpoint ==> r.Ignored?)
            && (!m.config.ignoreEndpoint ==>
                  var base := if d.lower(host) in d.entries then d.entries[d.lower(host)] else d.fallback;
                  var address := if m.config.urlSubstitution == "" then base.url else url;
                  && r.Found? && r.value.cert == base.cert
                  && (address != "" ==> r.value.url == address)
                  && (address == "" ==> r.value.url == if ':' in key then key else "")
                  && (m.config.sslSubstitution == "" ==> r.value.options == base.options)
                  && (m.config.sslSubstitution != "" ==>
                        && "ssl-target-name-override" in r.value.options
                        && r.value.options["ssl-target-name-override"] == name
                        && forall k :: k != "ssl-target-name-override" ==>
                             && (k in r.value.options <==> k in base.options)
                             && (k in base.options ==> r.value.options[k] == base.options[k])))
  {
    FirstMatchExactly(d.matchers, key);
  }

  // ---- channels ---------------------------------------------------------------

  /** A configured channel, however it is spelled, gets its own configuration. */
  lemma ConfiguredChannel(c: EndpointConfig, name: string)
    requires c.Loaded() && c.lower(name) in c.channels
    ensures c.ChannelConfig(name) == c.channels[c.lower(name)]
    ensures c.ChannelPeers(name) == c.channelPeersByChannel[c.lower(name)]
    ensures c.ChannelOrderers(name) == c.channelOrderersByChannel[c.lower(name)]
  {
  }

  /** A name that is not configured and that no pattern matches gets the default. */
  lemma UnknownChannel(c: EndpointConfig, name: string)
    requires c.Loaded() && c.lower(name) !in c.channels
    requires forall i :: 0 <= i < |c.channelMatchers| ==> !c.channelMatchers[i].matches(name)
    ensures c.ChannelConfig(name) == c.defaultChannel
    ensures c.ChannelPeers(name) == c.channelPeersByChannel["_default"]
    ensures c.ChannelOrderers(name) == c.channelOrderersByChannel["_default"]
  {
    FirstMatchExactly(c.channelMatchers, name);
  }

  /** Any other name gets what the first matching pattern maps it to: that channel,
      or the default when it is the default or is not configured. In the last case
      the indexes have nothing. */
  lemma MappedChannel(c: EndpointConfig, name: string, i: nat)
    requires c.Loaded() && c.lower(name) !in c.channels && IsFirst(c.channelMatchers, name, i)
    ensures var mapped := c.channelMatchers[i].config.mappedName;
            && (c.lower(mapped) in c.channels ==>
                  && c.ChannelConfig(name) == c.channels[c.lower(mapped)]
                  && c.ChannelPeers(name) == c.channelPeersByChannel[c.lower(mapped)]
                  && c.ChannelOrderers(name) == c.channelOrderersByChannel[c.lower(mapped)])
            && (c.lower(mapped) !in c.channels ==> c.ChannelConfig(name) == c.defaultChannel)
            && (c.lower(mapped) == "_default" ==>
                  && c.ChannelPeers(name) == c.channelPeersByChannel["_default"]
                  && c.ChannelOrderers(name) == c.channelOrderersByChannel["_default"])
            && (c.lower(mapped) !in c.channels && c.lower(mapped) != "_default" ==>
                  c.ChannelPeers(name) == [] && c.ChannelOrderers(name) == [])
  {
    FirstMatchExactly(c.channelMatchers, name);
  }

  // ---- what the indexes list --------------------------------------------------

  ghost predicate MapsTo(c: Context, listed: string, name: string, j: nat) {
    IsFirst(c.peers.matchers, listed, j) && c.equalFold(c.peers.matchers[j].config.mappedHost, name)
  }

  /** An organisation lists a peer under its name, or under a name whose first
      matching pattern maps to it. */
  ghost predicate ListsPeer(c: Context, o: OrganizationConfig, name: string) {
    exists listed :: listed in o.peers && (c.equalFold(listed, name) || exists j :: MapsTo(c, listed, name, j))
  }

  lemma FirstExists(ms: seq<Matcher>, key: string) returns (i: nat)
    requires FirstMatch(ms, key).Some?
    ensures IsFirst(ms, key, i) && FirstMatch(ms, key) == Some(ms[i])
  {
    FirstMatchExactly(ms, key);
    i := 0;
    while !ms[i].matches(key)
      invariant i < |ms| && forall j :: 0 <= j < i ==> !ms[j].matches(key)
      decreases |ms| - i
    {
      i := i + 1;
      if i == |ms| { assert false; }
    }
  }

  lemma NamesExactly(c: Context, listed: string, name: string)
    ensures NamesPeer(c, listed, name) <==> c.equalFold(listed, name) || exists j :: MapsTo(c, listed, name, j)
  {
    FirstMatchExactly(c.peers.matchers, listed);
    if NamesPeer(c, listed, name) && !c.equalFold(listed, name) {
      var j := FirstExists(c.peers.matchers, listed);
      assert MapsTo(c, listed, name, j);
    }
  }

  lemma ListsExactly(c: Context, o: OrganizationConfig, name: string)
    ensures Lists(c, o, name) <==> ListsPeer(c, o, name)
  {
    forall listed | listed in o.peers
      ensures NamesPeer(c, listed, name) <==> c.equalFold(listed, name) || exists j :: MapsTo(c, listed, name, j)
    {
      NamesExactly(c, listed, name);
    }
    if ListsPeer(c, o, name) {
      var listed :| listed in o.peers && NamesPeer(c, listed, name);
      var i :| 0 <= i < |o.peers| && o.peers[i] == listed;
    }
  }

  ghost predicate BelongsTo(c: Context, name: string, mspID: string) {
    exists k :: k in c.organizations && c.organizations[k].mspID == mspID && ListsPeer(c, c.organizations[k], name)
  }

  /** The peers of a channel: one for each configured name that a lookup finds, with
      that name's policy, the endpoint found, and an organisation that lists it. */
  lemma PeersExactly(c: Context, cfg: map<string, PeerChannelConfig>, vs: seq<ChannelPeer>) returns (names: seq<string>)
    requires ResolvesPeers(c, cfg, vs)
    ensures |names| == |vs| && forall i, j :: 0 <= i < j < |names| ==> names[i] != names[j]
    ensures forall n :: n in names <==> n in cfg && Resolve(c.peers, c.lower(n)).Found?
    ensures forall i :: 0 <= i < |vs| ==>
              && names[i] in cfg && vs[i].config == cfg[names[i]]
              && Resolve(c.peers, c.lower(names[i])) == Found(vs[i].endpoint)
              && c.usable(vs[i].endpoint.url, vs[i].endpoint.cert)
              && vs[i].mspID != "" && BelongsTo(c, names[i], vs[i].mspID)
  {
    names :| ListedAs(c, cfg, vs, names);
    forall i | 0 <= i < |vs|
      ensures names[i] in cfg && Represents(c, names[i], cfg[names[i]], vs[i])
      ensures BelongsTo(c, names[i], vs[i].mspID)
    {
      assert Represents(c, names[i], cfg[names[i]], vs[i]);
      var k :| && k in c.organizations && Lists(c, c.organizations[k], names[i])
               && c.organizations[k].mspID == vs[i].mspID;
      ListsExactly(c, c.organizations[k], names[i]);
    }
  }

  /** A found peer stops the load exactly when it is unusable, or when no listing
      organisation, or one without a name, may be taken for its MSP. */
  lemma RejectedExactly(c: Context, name: string)
    ensures Rejected(c, name) <==>
            && Resolve(c.peers, c.lower(name)).Found?
            && var e := Resolve(c.peers, c.lower(name)).value;
               !c.usable(e.url, e.cert) || BelongsTo(c, name, "") || forall id :: !BelongsTo(c, name, id)
  {
    forall id ensures MayBelong(c, name, id) <==> BelongsTo(c, name, id) {
      forall k | k in c.organizations
        ensures Lists(c, c.organizations[k], name) <==> ListsPeer(c, c.organizations[k], name)
      {
        ListsExactly(c, c.organizations[k], name);
      }
    }
  }

  /** The orderers of a channel: each name adds what it is found as, an ignored one
      nothing, and one that is not found leaves no list at all. */
  lemma {:induction false} OrderersExactly(c: Context, names: seq<string>, name: string)
    ensures ResolveOrderers(c, []) == Some([])
    ensures var (before, after, found) :=
              (ResolveOrderers(c, names), ResolveOrderers(c, names + [name]), Resolve(c.orderers, c.lower(name)));
            && (after.None? <==> before.None? || found.NotFound?)
            && (after.Some? && found.Ignored? ==> after == before)
            && (after.Some? && found.Found? ==> after.value == before.value + [found.value])
  {
    assert (names + [name])[..|names|] == names;
  }
}
