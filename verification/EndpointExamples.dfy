/** A loaded configuration whose indexes disagree with its channel configuration. */
module EndpointExamples {
  import opened Options
  import opened EndpointDirectory
  import opened ChannelIndexes

  const CATCH_ALL := Matcher(name => true, (name, replacement) => replacement, MatchConfig("", "absent", "", "", false))

  const ORDERER := EndpointValue("host:7050", map[], None)

  lemma OneOrderer(c: Context)
    requires c.lower("o") == "o" && c.orderers.lower("o") == "o"
    requires c.orderers.matchers == [] && c.orderers.entries == map["o" := ORDERER]
    ensures ResolveOrderers(c, ["o"]) == Some([ORDERER])
  {
    assert FirstMatch(c.orderers.matchers, "o") == None;
    NoOrderers(c);
    OneMoreOrderer(c, ["o"], 0);
    assert [] + [ORDERER] == [ORDERER];
    assert ["o"][..0] == [] && ["o"][..1] == ["o"];
  }

  /** One orderer, no peers, and a default channel that lists the orderer. */
  method OneOrdererConfig() returns (c: EndpointConfig)
    ensures fresh(c) && c.channels == map[DEFAULT_ENTITY := ChannelEndpointConfig(map[], ["o"], "")]
    ensures (forall s :: c.lower(s) == s) && c.channelMatchers == [CATCH_ALL]
    ensures ResolveOrderers(c.Ctx(), ["o"]) == Some([ORDERER])
  {
    var options := new GrpcOptions(map[]);
    var none := Endpoint("", options, None);
    var peers := new Directory(s => s, map[], [], none);
    var orderers := new Directory(s => s, map["o" := Endpoint("host:7050", options, None)], [], none);
    var channels := map[DEFAULT_ENTITY := ChannelEndpointConfig(map[], ["o"], "")];
    c := new EndpointConfig(s => s, (a, b) => a == b, (url, cert) => true, peers, orderers, map[], [CATCH_ALL],
                            channels);
    OneOrderer(c.Ctx());
  }

  /** Every unknown channel is mapped to one that is not configured: the index has
      no orderers for its name, the configuration falls back to the default. */
  method DanglingName() returns (c: EndpointConfig, name: string)
    ensures c.Loaded() && c.Dangling(name) && !c.Agrees(name)
  {
    c := OneOrdererConfig();
    name := "unknown";
    hide Resolve, ResolveOrderers, ResolvesPeers, EndpointConfig.Ctx, EndpointConfig.Agrees;
    ghost var ctx := c.Ctx();
    var ok := c.LoadChannels("");
    assert c.Ctx() == ctx;
    assert ok;
    assert c.channelOrderersByChannel[DEFAULT_ENTITY] == [ORDERER];
    assert FirstMatch(c.channelMatchers, name) == Some(CATCH_ALL);
    c.AgreementExactly(name);
  }
}
