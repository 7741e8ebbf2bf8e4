# Fabric SDK core: models and proofs

A Dafny model of the parts of the Go Fabric SDK where state, concurrency and
loops interact, with proofs of what they keep. Everything that reaches the
network or a foreign library (gRPC, protobuf, cryptography, regular expressions,
clocks, random numbers) is a parameter: the theorems hold for whatever it answers.

| file | what it models |
|---|---|
| `ConnCache.dfy` | the state behind the lock of the caching connector, and the effect of each locked section |
| `ConnProtocol.dfy` | every interleaving of dials, releases, sweeps, janitors, outside shutdowns and Close |
| `ConnExamples.dfy` | three concrete interleavings that end in surprising states |
| `Connector.dfy` | the connector, its cached connections and the client's connection as classes, proved against `ConnCache` |
| `OrdererStream.dfy` | producer, consumer and drain loop of broadcast and deliver streams |
| `Broadcast.dfy` | trying the orderers in random order |
| `ChannelBrowser.dfy` | walking a channel backwards along header hashes |
| `ChannelConfig.dfy` | reading a channel configuration tree |
| `EndpointDirectory.dfy`, `ChannelIndexes.dfy` | matcher-based lookup, and the per-channel indexes |
| `EndpointExamples.dfy` | a loaded configuration whose indexes disagree with it |
| `MultiError.dfy`, `Proposal.dfy`, `ChannelLedger.dfy` | gathering responses from several peers, filtering them, agreement |
| `Shuffle.dfy`, `LedgerClient.dfy` | target selection and the choice among answers |
| `Lifecycle.dfy` | agreement on chaincode definitions |
| `ConnLaws.dfy`, `StreamLaws.dfy`, `BrowserLaws.dfy`, `ConfigLaws.dfy`, `LookupLaws.dfy`, `AnswerLaws.dfy`, `ClientLaws.dfy`, `LifecycleLaws.dfy` | what the specification functions mean, told without them |
| `Options.dfy`, `Sequences.dfy` | shared helpers |

Concurrency is modelled as a transition system: one step is one section run
under the lock, or one unlocked access to shared state, and a run is any
sequence of enabled steps. Code that changes state is a class or a method with
loops, proved equal to a specification function; the laws are about that
function. The `...Laws` modules fix what each such function answers by facts that
do not use it: literal keys and constants, single elements, positions.

## Where the code does less than one might expect

Each is proved with its exact condition and shown at a concrete input.

- The maps `conns` and `index` can come apart: a failing dial removes whatever
  is stored for its target, also a newer entry (`StaleFailureSplitsMaps`). They
  stay inverse exactly in the runs where no failing dial finds its entry
  replaced (`InverseExactly`).
- A failing dial shuts down a connection others hold (`FailureCutsOtherDial`),
  exactly when its count is above one (`FailHitsOthersExactly`).
- An idle cached connection can be left without a janitor
  (`IdleConnectionWithoutJanitor`): its last use is given back after the janitor
  decided to exit and before its token is back, so the release starts none.
  `IdleWatchedExactly` says that this and nothing else causes it;
  `WatchedExactly` is the condition for cached connections in use as well.
- Draining the error channel loses errors for every capacity above the 1 the
  code uses (`TwoLoses`, `LosslessExactly`).
- Two negative target bounds make the source slice with a negative index, exactly
  when it finds targets to slice (`NegativeBounds`, `PrepareRequestParams`);
  `RandomMaxTargets` does so exactly for a negative maximum (`NegativeMaximum`).
- Peers that list the same definitions in different order can be rejected, and
  under every comparison sort for some order are, exactly when two different
  definitions share a name (`SameNameRejected`, `OrderIrrelevantExactly`).
- A channel matcher that maps to an unconfigured channel makes the indexes
  disagree with the configuration, which falls back to the default channel,
  exactly when the default's indexes are not empty (`DanglingName`,
  `AgreementExactly`).
- On a chain of height 0 the block counter of the browser wraps around, and
  browsing succeeds only for the largest block number (`EmptyChannel`,
  `StopRule`).

## Model

| member | source | states |
|---|---|---|
| ConnProtocol.StepInv | pkg/fab/comm/connector.go:76-324 | every step of every thread keeps the invariant: map agreement, no leak, exact counts, exact release times, one token or one janitor |
| ConnProtocol.RunInv | pkg/fab/comm/connector.go:76-324 | so does every run, at every point |
| ConnProtocol.CountsInEveryRun | pkg/fab/comm/connector.go:113-210 | in every interleaving before the flush of Close, an indexed entry's count is the number of dials that obtained it and have neither failed nor been released |
| ConnProtocol.NoLeakInEveryRun | pkg/fab/comm/connector.go:168-277 | every connection ever made is indexed or shut down; whatever `conns` names has that target and is indexed |
| ConnProtocol.ClosedIsFinal | pkg/fab/comm/connector.go:97-110 | once Close returned, no later step makes a connection and all ever made are shut down |
| ConnProtocol.TokenConserved | pkg/fab/comm/connector.go:279-324 | until Close begins, tokens plus janitors are exactly one, and an exiting janitor's send finds room |
| ConnProtocol.GuardNeverSaturates | pkg/fab/comm/connector.go:345-350 | setClosed never finds a zero count on a dial's failure or release |
| ConnProtocol.SweepSparesUsedConnections | pkg/fab/comm/connector.go:257-268 | a sweep in any run shuts down only what no dial holds and what was last released more than the idle time ago |
| ConnProtocol.InverseExactly | pkg/fab/comm/connector.go:113-135 | the two maps are inverse throughout a run if and only if no failing dial finds its entry replaced |
| ConnProtocol.FailHitsOthersExactly | pkg/fab/comm/connector.go:127-131 | a failing dial always shuts down its indexed connection; another dial holds it if and only if the count was above one |
| ConnProtocol.CutStep | pkg/fab/comm/connector.go:113-277 | while a dial is in flight only an outside shutdown, the failure of a dial sharing the entry, or Close takes its connection away; sweeps, releases and other dials never do |
| ConnProtocol.StaysOpenExactly | pkg/fab/comm/connector.go:113-277 | over any stretch of any run a dial's connection stays open if and only if none of those three steps occurs |
| ConnProtocol.WatchedExactly | pkg/fab/comm/connector.go:212-223 | before Close every cached entry is under a janitor or a dial about to start one, if and only if no dial completes while the only janitor exits |
| ConnProtocol.IdleWatchedExactly | pkg/fab/comm/connector.go:138-166 | before Close no cached connection is idle without a janitor, if and only if no last use is released while the only janitor exits |
| ConnExamples.StaleFailureSplitsMaps | pkg/fab/comm/connector.go:270-277 | a four-step run after which an entry is indexed but not found by target |
| ConnExamples.IdleConnectionWithoutJanitor | pkg/fab/comm/connector.go:302-324 | a ten-step run after which an idle cached connection has no janitor |
| ConnExamples.FailureCutsOtherDial | pkg/fab/comm/connector.go:127-131 | a three-step run in which a failing dial shuts down a connection another dial still waits for |
| ConnCache.SweepSafeAndComplete | pkg/fab/comm/connector.go:257-268 | what a sweep shuts down was unused and idle too long; what remains is open and in use or not idle long enough |
| ConnCache.SweepTurn | pkg/fab/comm/connector.go:261-267 | deleting during iteration is order independent: removing others changes neither the decision on an entry nor its effect |
| ConnCache.FailInverse | pkg/fab/comm/connector.go:127-131 | a failing dial keeps the maps inverse if and only if its entry was not replaced |
| ConnCache.CreateKeepsInv | pkg/fab/comm/connector.go:183-210 | createConn keeps the invariant and hands out only an indexed entry for the target whose connection is not shut down |
| ConnCache.CreateEffect | pkg/fab/comm/connector.go:183-210 | createConn raises the count of exactly the entry it hands out, by one |
| ConnCache.ReleaseEffect | pkg/fab/comm/connector.go:138-166 | a release lowers exactly one count by one and stamps it, only while the entry is indexed and the connector open |
| ConnLaws.CreateExactly | pkg/fab/comm/connector.go:183-210 | a dial gets a connection if and only if the connector is open and has a live one for the target, or dialling succeeds; and which one |
| ConnLaws.CreateFinds | pkg/fab/comm/connector.go:168-181 | a live entry is used again and nothing but its count changes |
| ConnLaws.CreateStores | pkg/fab/comm/connector.go:193-209 | otherwise the new connection is stored for its target, the other entries stay, and a dead one is forgotten, waking a janitor |
| ConnLaws.CreateFails | pkg/fab/comm/connector.go:193-196 | a failed grpc dial stores nothing |
| ConnLaws.FailExactly | pkg/fab/comm/connector.go:127-131 | what a failed dial shuts down, takes out and counts, and that it touches nothing else |
| ConnLaws.ReleaseExactly | pkg/fab/comm/connector.go:138-166 | a release takes nothing out, counts one use less, and starts a janitor if none has the token |
| ConnLaws.SweepLeaves | pkg/fab/comm/connector.go:257-277 | a target stays if and only if no entry of it was swept |
| ConnLaws.SweepTakesAllIdle | pkg/fab/comm/connector.go:257-268 | after a sweep in any run every cached connection is open, and in use or released within the idle time |
| ConnLaws.CloseExactly | pkg/fab/comm/connector.go:97-110 | Close shuts down exactly what is cached |
| ConnLaws.CloseCompletes | pkg/fab/comm/connector.go:76-110 | from every state of every run Close can be carried through, and then everything is shut down |
| Connector.CachingConnector.constructor | pkg/fab/comm/connector.go:56-73 | a new connector holds no entry, one token and no janitor |
| Connector.CachingConnector.EnsureJanitorStarted | pkg/fab/comm/connector.go:279-287 | takes the token if there is one; a closed channel always lets a janitor start |
| Connector.CachingConnector.SetClosed | pkg/fab/comm/connector.go:345-350 | lowers a positive count and stamps the time, else changes nothing |
| Connector.CachingConnector.RemoveConn | pkg/fab/comm/connector.go:270-277 | both map entries go and the connection is shut down |
| Connector.CachingConnector.Store | pkg/fab/comm/connector.go:199-207 | a new entry with count one enters both maps |
| Connector.CachingConnector.CreateConn | pkg/fab/comm/connector.go:183-210 | the class method has exactly the specified effect on maps, counts and channels, and keeps the invariant |
| Connector.CachingConnector.LoadConn | pkg/fab/comm/connector.go:168-181 | a live entry is handed out with its count raised; a dead one is evicted |
| Connector.CachingConnector.ShutdownConn | pkg/fab/comm/connector.go:244-255 | forgets a shut down entry and wakes a janitor, unless closed |
| Connector.CachingConnector.FailConn | pkg/fab/comm/connector.go:127-131 | the locked section after a failed dial |
| Connector.CachingConnector.ReleaseConn | pkg/fab/comm/connector.go:138-166 | the release section: closed connector, unknown connection, and counted release |
| Connector.CachingConnector.SweepEntry | pkg/fab/comm/connector.go:261-267 | one turn of the sweep removes an entry exactly when it is idle too long or shut down |
| Connector.CachingConnector.SweepAndRemove | pkg/fab/comm/connector.go:257-268 | the loop that deletes from the map it ranges over, in any order, computes the sweep |
| Connector.CachingConnector.CloseAndFlush | pkg/fab/comm/connector.go:97-110 | afterwards every connection ever made is shut down |
| Connector.GRPCConnection.Close | pkg/fab/comm/connection.go:91-110 | the first Close releases the handle, any later one changes nothing |
| OrdererStream.NoDeadlock | pkg/fab/orderer/orderer.go:290-341 | in every interleaving some move is enabled until the consumer returns |
| OrdererStream.Terminates | pkg/fab/orderer/orderer.go:290-341 | no interleaving is longer than twice the messages plus six |
| OrdererStream.Returns | pkg/fab/txn/txn.go:239-271 | for any capacity: the last response, and all errors in order but for half of what was buffered when the drain began |
| OrdererStream.BroadcastReturns | pkg/fab/orderer/orderer.go:290-341 | in every interleaving a broadcast returns SUCCESS if some response had it, and every other code in order, then the receive error |
| OrdererStream.DeliverReturns | pkg/fab/orderer/orderer.go:399-434 | in every interleaving a delivery returns the last block, and every bad status in order, then the receive error |
| StreamLaws.BadCodesSplit | pkg/fab/orderer/orderer.go:316-341 | the errors of two streams one after the other are those of each, in order |
| StreamLaws.OneCode | pkg/fab/orderer/orderer.go:335-339 | status 200 is no error, any other code is that error |
| StreamLaws.OneMessage | pkg/fab/orderer/orderer.go:418-432 | a status, a block and an unknown message each contribute what they are |
| StreamLaws.OneAnswer | pkg/fab/orderer/orderer.go:290-341 | in every interleaving one answer and the way the stream ends decide what is returned |
| OrdererStream.LosslessExactly | pkg/fab/orderer/orderer.go:270-314 | no interleaving loses an error if and only if the error channel has capacity 1 |
| OrdererStream.OneIsLossless | pkg/fab/orderer/orderer.go:270-314 | with capacity 1 the consumer returns every error sent, in order, in every interleaving |
| OrdererStream.TwoLoses | pkg/fab/orderer/orderer.go:303-313 | for any larger capacity a run that drops an error |
| OrdererStream.StepInv | pkg/fab/orderer/orderer.go:316-434 | errors returned, buffered and unsent are together all errors of the stream, in order |
| OrdererStream.ErrorChannel.Drain | pkg/fab/txn/txn.go:259-268 | the loop whose bound shrinks takes the first half, rounded up, and leaves the rest |
| Broadcast.TryInOrder | pkg/fab/txn/txn.go:160-187 | for every permutation: each orderer at most once, stop at the first success, succeed if and only if some orderer accepts, else the last error (the loop of SendPayload is the same) |
| ChannelBrowser.BrowseChannelWithConfig | pkg/util/chn_browse_util/chn_browse_util.go:214-308 | on every chain and under every stop rule the loop ends and returns the blocks from the current one down to the lowest wanted, with the number of transaction infos, modulo 2^64, as total |
| ChannelBrowser.BrowseFrom | pkg/util/chn_browse_util/chn_browse_util.go:252-308 | the loop from any current block; counters stay in step with the chain |
| ChannelBrowser.VisitsExactly | pkg/util/chn_browse_util/chn_browse_util.go:214-308 | a browse visits H-1 downwards: min(L,H) blocks, all blocks, or exactly those above the last one, given by number or by hash |
| BrowserLaws.InfoShows | pkg/util/chn_browse_util/chn_browse_util.go:314-345 | number, hashes, count, and each transaction decoded at its own position |
| BrowserLaws.VisitedBlock | pkg/util/chn_browse_util/chn_browse_util.go:214-308 | the i-th info of a browse shows the i-th block from the top with its own transactions |
| BrowserLaws.AllTransactions | pkg/util/chn_browse_util/chn_browse_util.go:288-304 | the transaction infos are those of the blocks, in their order, and the total counts them |
| BrowserLaws.SucceedsExactly | pkg/util/chn_browse_util/chn_browse_util.go:214-308 | a browse succeeds if and only if the limits can be understood and the peers answer for the channel and for every wanted block |
| BrowserLaws.FailsExactly | pkg/util/chn_browse_util/chn_browse_util.go:214-275 | which error is reported |
| BrowserLaws.OneBlockChannel | pkg/util/chn_browse_util/chn_browse_util.go:169-172 | a channel with one block of two transactions, and what browsing it returns |
| ChannelBrowser.StopRule | pkg/util/chn_browse_util/chn_browse_util.go:260-284 | the stop test fires exactly below the lowest wanted block, although counters are incremented and decremented first and wrap around |
| ChannelBrowser.EmptyChannel | pkg/util/chn_browse_util/chn_browse_util.go:252-284 | a channel without blocks, on which a browse succeeds for the largest block number and fails for the one below and without limit |
| ChannelBrowser.IncrementalBrowse | pkg/util/chn_browse_util/chn_browse_util.go:190-308 | browsing down to block k and, at height k+1, everything, concatenates to one full browse: blocks, transactions and totals |
| ChannelBrowser.UnmarshalBlockData | pkg/util/chn_browse_util/chn_browse_util.go:314-345 | one info per transaction, whether or not it decodes |
| ChannelConfig.LoadConfig | pkg/fab/chconfig/chconfig.go:404-456 | fails exactly on a bad recognised value; otherwise adds the bag of everything in the tree and returns the version tree, in any iteration order |
| ChannelConfig.LoadConfigValue | pkg/fab/chconfig/chconfig.go:518-601 | one value: version and bytes copied, its items added, its organisation attached |
| ChannelConfig.LoadAnchorPeers | pkg/fab/chconfig/chconfig.go:458-472 | every anchor peer is added with the organisation, or decoding fails |
| ChannelConfig.LoadMSPKey | pkg/fab/chconfig/chconfig.go:474-489 | succeeds exactly on a decodable FABRIC configuration, and adds it |
| ChannelConfig.LoadOrdererAddressesKey | pkg/fab/chconfig/chconfig.go:491-502 | every address is added, or decoding fails |
| ChannelConfig.LoadCapabilities | pkg/fab/chconfig/chconfig.go:504-516 | the set is stored under the group's name, or decoding fails |
| ChannelConfig.LoadValues | pkg/fab/chconfig/chconfig.go:426-437 | the value loop, in any order: bag, versions, capabilities, and failure exactly on a bad value |
| ChannelConfig.LoadGroups | pkg/fab/chconfig/chconfig.go:412-424 | the group loop, in any order, recursively |
| ChannelConfig.CollectedExactly | pkg/fab/chconfig/chconfig.go:404-516 | an item is collected if and only if some path of group names leads to a value that holds it, tagged with the last group's name |
| ChannelConfig.CountedExactly | pkg/fab/chconfig/chconfig.go:404-516 | an item is collected as often as the values of the tree hold it together, counting over any listing of all paths and keys, each once |
| ConfigLaws.MspsOf | pkg/fab/chconfig/chconfig.go:474-489 | a value adds an MSP, once, if and only if its key is MSP and it decodes to it with FABRIC type |
| ConfigLaws.OrderersOf | pkg/fab/chconfig/chconfig.go:491-502 | a value adds an orderer as often as it lists it, under the key OrdererAddresses only |
| ConfigLaws.AnchorsOf | pkg/fab/chconfig/chconfig.go:458-472 | a value adds an anchor peer as often as it lists it, under the key AnchorPeers and its organisation only |
| ConfigLaws.BadExactly | pkg/fab/chconfig/chconfig.go:518-601 | which values stop the load |
| ConfigLaws.CollectedMsps | pkg/fab/chconfig/chconfig.go:404-489 | the MSPs collected are those of FABRIC type that decode from a value with that key anywhere in the tree |
| ConfigLaws.CollectedOrderers | pkg/fab/chconfig/chconfig.go:404-502 | the orderers collected are those listed by a value with that key anywhere in the tree |
| ConfigLaws.CollectedAnchors | pkg/fab/chconfig/chconfig.go:404-472 | the anchor peers collected are those listed by a value with that key, tagged with the name of its group |
| ConfigLaws.FailsExactly | pkg/fab/chconfig/chconfig.go:404-601 | the load fails if and only if some value anywhere stops it |
| ConfigLaws.CapabilitiesExactly | pkg/fab/chconfig/chconfig.go:504-516 | the capability sets found are those that decode from a value with that key, under the name of its group |
| ConfigLaws.VersionsAt | pkg/fab/chconfig/chconfig.go:404-456 | along every path the version tree has the same groups and keys, with versions, policies and bytes copied |
| ChannelConfig.SumPull | pkg/fab/chconfig/chconfig.go:413-438 | the collected bag does not depend on which key is taken first |
| ChannelConfig.VersionTreeReloads | pkg/fab/chconfig/chconfig.go:404-456 | loading the version tree finds the same items and fails exactly when loading the original does |
| ChannelConfig.VersionTreeIdempotent | pkg/fab/chconfig/chconfig.go:404-456 | the version tree of a version tree is itself |
| EndpointDirectory.Directory.TryMatching | pkg/fab/endpointconfig.go:1445-1459 | resolves as the first matching matcher says, else by name, without modifying any stored options |
| EndpointDirectory.Directory.TryMatchingByURL | pkg/fab/endpointconfig.go:1459-1483 | a name no matcher and no entry knows gives the first entry with that URL, else the default's options if it looks like a URL, else nothing |
| EndpointDirectory.Directory.GetMapped | pkg/fab/endpointconfig.go:1526-1544 | a deep copy of the stored entry or of the default |
| EndpointDirectory.Directory.Match | pkg/fab/endpointconfig.go:1485-1516 | URL and server name are substituted in the copy only |
| LookupLaws.FirstMatchExactly | pkg/fab/endpointconfig.go:1448-1453 | the first matcher whose pattern matches counts, and no other |
| LookupLaws.ResolvesByName | pkg/fab/endpointconfig.go:1455-1459 | without a matching pattern the lower-case name decides |
| LookupLaws.ResolvesByMatcher | pkg/fab/endpointconfig.go:1485-1544 | a matching pattern decides: ignored, or the entry it maps to or the default, with address and server name substituted |
| ChannelIndexes.EndpointConfig.LoadPeersOf | pkg/fab/endpointconfig.go:1304-1338 | the list holds one entry per configured peer that a lookup finds; a failure is due to an unusable peer or one without MSP |
| ChannelIndexes.EndpointConfig.LoadChannelPeers | pkg/fab/endpointconfig.go:1304-1338 | an index entry for each channel that lists its resolved peers; on failure the old index stays and some channel has a rejected peer |
| ChannelIndexes.EndpointConfig.LoadOrderersOf | pkg/fab/endpointconfig.go:1340-1364 | in order, ignored ones skipped; fails exactly when one is missing |
| ChannelIndexes.EndpointConfig.LoadChannelOrderers | pkg/fab/endpointconfig.go:1340-1364 | succeeds exactly when all orderers of all channels resolve, and then indexes them; on failure the old index stays |
| ChannelIndexes.EndpointConfig.PeerMSPID | pkg/fab/endpointconfig.go:1741-1778 | an organisation that lists the peer, directly or through a matcher |
| ChannelIndexes.EndpointConfig.LoadDefaultChannel | pkg/fab/endpointconfig.go:524-533 | the default channel leaves the map and becomes the default |
| ChannelIndexes.EndpointConfig.LoadChannels | pkg/fab/endpointconfig.go:501-522 | after a successful load with lower-case keys both indexes hold, for each channel and the default, what its configuration resolves to; it fails only when a configured peer is rejected or an orderer is missing |
| ChannelIndexes.EndpointConfig.AgreementExactly | pkg/fab/endpointconfig.go:225-285 | index and configuration agree for a name if and only if it does not map to an unconfigured channel, or the default channel is empty |
| LookupLaws.ConfiguredChannel | pkg/fab/endpointconfig.go:225-285 | a configured channel gets its own configuration, peers and orderers |
| LookupLaws.UnknownChannel | pkg/fab/endpointconfig.go:225-285 | a name no pattern matches gets the default's |
| LookupLaws.MappedChannel | pkg/fab/endpointconfig.go:240-285 | otherwise the first matching pattern decides, and the default answers for a name it maps to nothing |
| LookupLaws.PeersExactly | pkg/fab/endpointconfig.go:1304-1338 | one peer for each configured name that a lookup finds, with its policy, endpoint and a listing organisation |
| LookupLaws.OrderersExactly | pkg/fab/endpointconfig.go:1340-1364 | each name adds what it is found as, an ignored one nothing, a missing one leaves no list |
| LookupLaws.ListsExactly | pkg/fab/endpointconfig.go:1741-1778 | an organisation lists a peer by name or by a name whose first matching pattern maps to it |
| LookupLaws.RejectedExactly | pkg/fab/endpointconfig.go:1311-1325 | which found peers stop the load |
| EndpointExamples.DanglingName | pkg/fab/endpointconfig.go:225-285 | a configuration that loads and then disagrees with its indexes for an unknown name |
| MultiError.AppendKeeps | pkg/common/errors/multi/multi.go:22-51 | appending loses, repeats and reorders no cause, however errors are nested; the result is nil only if both are |
| MultiError.ToErrorKeeps | pkg/common/errors/multi/multi.go:55-63 | the error made of a list reports the causes of the list |
| AnswerLaws.AppendExactly | pkg/common/errors/multi/multi.go:22-51 | nil is neutral, two errors make a list, a list grows at its end |
| AnswerLaws.CausesExactly | pkg/common/errors/multi/multi.go:66-79 | what an error reports, one error at a time |
| Proposal.GetTargetsWithoutDuplicates | pkg/fab/txn/proposal.go:141-162 | the first target of each URL in order, or the list unchanged if some target is not a peer |
| Proposal.UniqueMeaning | pkg/fab/txn/proposal.go:141-162 | de-duplication is idempotent, leaves distinct URLs and loses none |
| AnswerLaws.UniqueKeepsFirsts | pkg/fab/txn/proposal.go:141-162 | the targets kept are, in order, exactly those that are the first with their URL |
| Proposal.SendProposal | pkg/fab/txn/proposal.go:79-138 | in every completion order each unique target yields exactly one response or one error; malformed requests send nothing |
| Proposal.Gather | pkg/fab/txn/proposal.go:107-138 | the goroutines, completing in any order: the bags of responses and errors do not depend on it |
| AnswerLaws.OneReply | pkg/fab/txn/proposal.go:114-132 | a call contributes its response or its error |
| AnswerLaws.ResponsesOf | pkg/fab/txn/proposal.go:112-138 | the responses gathered are those that the calls give, and no others |
| Proposal.GatherTurn | pkg/fab/txn/proposal.go:112-136 | whichever goroutine comes next, gathered and outstanding replies together stay the replies of all targets |
| ChannelLedger.FilterResponses | pkg/fab/channel/ledger.go:286-303 | compacting in place keeps exactly the accepted responses in order, leaves the rest of the array alone and reports each other one |
| ChannelLedger.FilterKeeps | pkg/fab/channel/ledger.go:287-297 | the element read is still the received one, and writing it back keeps the loop's invariant |
| ChannelLedger.KeptExactly | pkg/fab/channel/ledger.go:286-303 | kept plus complaints are as many as the responses; accepted ones are kept as often as received |
| AnswerLaws.SignatureChecks | pkg/fab/channel/ledger.go:286-303 | under a signature verifier a response is kept if and only if its status is 200 and the check passes; otherwise which error is reported |
| AnswerLaws.StatusChecks | pkg/fab/channel/ledger.go:286-303 | under the other verifier, or none, only the status counts |
| AnswerLaws.KeptSplit | pkg/fab/channel/ledger.go:286-303 | filtering treats each response on its own and keeps the order |
| AnswerLaws.KeptMembers | pkg/fab/channel/ledger.go:286-303 | the kept responses are the received ones that pass, and a forged one is reported |
| ChannelLedger.QueryChaincode | pkg/fab/channel/ledger.go:267-284 | every unique target ends as one kept response or one error; the errors are those of sending, then those of filtering |
| ChannelLedger.DecodeAll | pkg/fab/channel/ledger.go:126-138 | what decodes, in order; one error for each other response, in order, after the errors already met |
| AnswerLaws.OneResult | pkg/fab/channel/ledger.go:126-161 | a response contributes its decoded value or the error of decoding it |
| AnswerLaws.ResultsSplit | pkg/fab/channel/ledger.go:126-138 | decoding treats each response on its own and keeps the order |
| ChannelLedger.QueryInfo | pkg/fab/channel/ledger.go:55-71 | responses plus errors are as many as the targets asked; the errors are those of sending, filtering and decoding, in that order; no response implies an error |
| ChannelLedger.QueryBlock | pkg/fab/channel/ledger.go:126-152 | the same when decoding errors are collected apart and appended as one |
| ChannelLedger.Match | pkg/fab/channel/responsevalidator.go:27-62 | accepts if and only if there are enough responses and one transaction that each carries alone |
| AnswerLaws.AgreedExactly | pkg/fab/channel/responsevalidator.go:27-62 | agreement pair by pair: enough responses, one transaction each, any two the same |
| ChannelLedger.QueryConfigBlock | pkg/fab/channel/ledger.go:248-265 | a block is returned exactly on agreement of at least MinResponses filtered responses; element 0 always exists |
| Shuffle.InPlace | pkg/client/ledger/ledger.go:478-483 | the in-place exchange loop computes the arrangement its draws determine, a permutation |
| ClientLaws.ShuffleRound | pkg/client/ledger/ledger.go:478-483 | round n exchanges element n with the one drawn and touches no other |
| Shuffle.ShuffleReaches | pkg/client/ledger/ledger.go:478-483 | every arrangement comes out for some draws |
| Shuffle.ShuffleOneToOne | pkg/client/ledger/ledger.go:478-483 | different draws give different arrangements of distinct peers, so fair draws make a fair shuffle |
| Shuffle.RandomMaxTargets | pkg/fab/chconfig/chconfig.go:614-623 | at most max targets, all in order when they fit, else a prefix of the shuffle; a negative max is a slice bound that panics |
| Shuffle.NegativeMaximum | pkg/fab/chconfig/chconfig.go:614-623 | the panic for a maximum of -1 and one target |
| LedgerClient.PrepareRequestOpts | pkg/client/ledger/ledger.go:364-388 | fails exactly on an invalid option; the minimum is kept and never above the maximum |
| ClientLaws.OptionSets | pkg/client/ledger/opts.go:47-120 | an option sets its own field and leaves the others |
| ClientLaws.BoundsExactly | pkg/client/ledger/ledger.go:373-385 | unset bounds are 1, and the maximum is the one given unless the minimum is higher |
| LedgerClient.FilterExactly | pkg/client/ledger/ledger.go:452-466 | filtering keeps each accepted peer as often as listed and no other |
| LedgerClient.FilterTargets | pkg/client/ledger/ledger.go:452-466 | the accepted peers in order |
| LedgerClient.CalculateTargets | pkg/client/ledger/ledger.go:391-435 | which error, or a sub-multiset of the candidates of size min(max, available); the caller's list is only permuted |
| ClientLaws.CandidatesExactly | pkg/client/ledger/ledger.go:397-415 | given targets as they are, else the discovered ones that the request's filter accepts, or without one the client's |
| ClientLaws.ChoosesExactly | pkg/client/ledger/ledger.go:391-424 | when targets can be chosen |
| LedgerClient.PrepareRequestParams | pkg/client/ledger/ledger.go:241-253 | for any options: a selection exactly when targets can be chosen and not both bounds are negative, a panic exactly when both are; not empty, within both bounds and from the candidates |
| LedgerClient.NegativeBounds | pkg/client/ledger/ledger.go:364-435 | minimum and maximum -1 with one peer make a negative count |
| LedgerClient.QueryInfo | pkg/client/ledger/ledger.go:130-164 | from options to answer: an invalid option, no targets or a panic exactly when so; else selected candidates were asked, and of their verified and decoded answers, if at least the minimum, the first of the highest is returned |
| ClientLaws.InfoChosen | pkg/client/ledger/ledger.go:139-163 | which information is chosen, and when |
| ClientLaws.DecodedFrom | pkg/client/ledger/ledger.go:139-147 | what is decoded comes from received responses with status 200 that pass the check, and every such response counts |
| ClientLaws.ReceivedFrom | pkg/client/ledger/ledger.go:139-147 | what is received is what the unique peers send, one call each, or nothing |
| LedgerClient.AskInfo | pkg/client/ledger/ledger.go:139-163 | the part after the selection; response 0 always exists |
| LedgerClient.Highest | pkg/client/ledger/ledger.go:148-163 | nothing is higher, and nothing before it is as high |
| LedgerClient.MatchBlockData | pkg/client/ledger/ledger.go:255-274 | comparing with the first decides agreement of any two; an empty list under a minimum below one has no first, and panics |
| LedgerClient.QueryBlock | pkg/client/ledger/ledger.go:224-239 | from options to answer: as above; a block is returned if and only if at least the minimum of answers decoded and any two have the same data, and it is the first of them |
| ClientLaws.BlockChosen | pkg/client/ledger/ledger.go:255-274 | which block is chosen, and when |
| LedgerClient.AskBlock | pkg/client/ledger/ledger.go:233-238 | the part after the selection |
| Lifecycle.VerifyResponsesMatch | pkg/client/resmgmt/lifecycleprocessor.go:541-566 | comparing neighbours accepts if and only if all decode and any two agree in status and message |
| LifecycleLaws.OneDefinition | pkg/client/resmgmt/lifecycleprocessor.go:569-577 | a query for one name is accepted if and only if all decode to one definition with one status |
| Lifecycle.AcceptedExactly | pkg/client/resmgmt/lifecycleprocessor.go:541-592 | under every comparison sort: accepted only if all lists are rearrangements of each other, and always then when names determine definitions |
| Lifecycle.CanonicalExactly | pkg/client/resmgmt/lifecycleprocessor.go:585-589 | sorting by name has one possible outcome if and only if names determine definitions |
| Lifecycle.CanonicalForm | pkg/client/resmgmt/lifecycleprocessor.go:583-589 | two sorted rearrangements of one list are equal when names determine definitions |
| Lifecycle.OrderIrrelevantExactly | pkg/client/resmgmt/lifecycleprocessor.go:569-592 | under every comparison sort no rearrangement changes the sorted list, if and only if names determine definitions |
| Lifecycle.RejectedRearrangement | pkg/client/resmgmt/lifecycleprocessor.go:583-589 | any list with two definitions of one name has a rearrangement that every comparison sort tells from it |
| Lifecycle.SameNameRejected | pkg/client/resmgmt/lifecycleprocessor.go:585-589 | two definitions of one name in opposite order are rejected under every comparison sort |
| Lifecycle.InOrderSorts | pkg/client/resmgmt/lifecycleprocessor.go:585-589 | moving the definitions as their names are moved gives a sorted rearrangement of them |
| LifecycleLaws.LessExactly | pkg/client/resmgmt/lifecycleprocessor.go:587-589 | names are compared at the first character where they differ, a beginning being less |
| LifecycleLaws.SortedDownwards | pkg/client/resmgmt/lifecycleprocessor.go:583-589 | the sorted list goes from the greatest name down |
| Lifecycle.InsertionSorts | pkg/client/resmgmt/lifecycleprocessor.go:587-589 | a sort under the source's comparison exists: what is said of every such sort is not empty |

## Left out

- gRPC dialling, TLS, certificates, signing and nonces: what they return is a parameter.
- Waiting for a connection: three phases of a dial (opening, ready, held) stand for waitConn and its state changes.
- Janitors after Close has begun: openConn starts them without the lock, so from then on token and janitor counts are arbitrary; connections are still covered.
- The goroutine that SendBroadcast leaves behind when sending the envelope fails.
- OrdererStream.Returns: a stream that never ends is not modelled; every script of messages is finite.
- Broadcast.TryInOrder: an orderer's answer is fixed during one call; the lookup of the client in the context and the signing before it are left out.
- ChannelBrowser.BrowseChannelWithConfig: a chain of at least 2^64 blocks, and two blocks with one hash, are excluded; so is a hash string that decodes to nothing.
- ChannelBrowser.UnmarshalBlockData: what decoding finds inside a transaction (type, chaincode names, read and write sets) is one opaque value.
- The list of basic block infos, which repeats the block infos without their transactions, and the printing of hashes as hex.
- ChannelConfig.LoadConfig: which of several capability sets of equally named groups survives depends on the iteration order and is only constrained to be one of them; the partial result of a failed load is not described.
- HasCapability and the capability pattern: pure lookups without a hard property.
- EndpointDirectory.Directory.TryMatchingByURL: the entries searched are given in the order met, the peers of the map or the list of orderers.
- ChannelIndexes.EndpointConfig.LoadChannels: starts from the state loadNetworkConfig leaves, in which `_default` is a key; the filling in of defaults and policies before that is left out, channel policies are one opaque value, the TLS certificate pool loaded in between can only stop the load, and peers and orderers are indexed by value rather than with shared option maps.
- Proposal.SendProposal: the request timeout is left out; one goroutine is one step, because its only shared action is the append under the lock.
- ChannelLedger.Match: equality of protobuf messages is equality of decoded values; a present but empty transaction list is the same as none, as on the wire.
- ChannelLedger.QueryBlock: the checks for an empty hash or transaction ID in the sibling queries.
- Lifecycle.OrderIrrelevantExactly: the algorithm of sort.Slice is not modelled, only that where it moves elements is a function of how the names compare, which is all that its comparison tells it.
- Lifecycle.VerifyResponsesMatch: signature verification and the other lifecycle requests.
- Names are compared character by character; Go compares bytes, which is the same order for valid UTF-8.
- Policies defaulting, timeout tables, CA and MSP request translation, wallets, event and discovery services, logging and metrics.
