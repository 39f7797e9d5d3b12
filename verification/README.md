# Verified model of the DNS pool, peer exchange and request plumbing

The system is a crawler proxy whose nodes each keep a DNS pool: for every domain an ordered IPv4 and IPv6 list, a
blacklist, a whitelist, moving latency averages and one round-robin index. Nodes exchange their pools pairwise. Around
this sit a reservation queue for concurrent requests, a throttled save to disk, a peer synchroniser, a connection pool,
a rotation over local IPv6 source addresses, two bounded batch fetchers, a log buffer and a retry loop.

Each object that the program updates in place is a class with the same fields (`DnsPool`, `PeerServer`,
`PeerSyncManager`, `ConnectionPool`, `Ipv6Pool`, `LogBuffer`), and its methods keep the program's branches and loops.
Every method is proved against a transition of a specification (`PoolSpec.Step`, `Ipv6Pools.Step`, the functions of
`PeerSync`), and the main results are lemmas over all runs of those transitions. Go's random map iteration is an
arbitrary order; the clock, resolver answers, host capabilities, connection states and fetch outcomes are inputs.
Goroutines are activations of a state machine whose steps are the program's critical sections.

The main results:

- *Gossip* (`Gossip.dfy`): over any number of nodes and any run of local operations, pushes, serves and absorbed replies,
  with any message lost or delayed, no address is made up, no candidate set shrinks, and a time-respecting chain of
  served pushes carries all of the first node's candidates to the last.
- *Convergence* (`Exchange.dfy`, `Slices.dfy`): the responder answers with list headers taken before its merge, and the
  merge rewrites the arrays behind them, so the answer is neither the old nor the new lists. `Slices` derives what such a
  header reads from Go's slices with backing arrays. Two exchanges in a row still equalise two well-typed nodes. One
  exchange is certain to do so exactly when, in each family, one node's list already contains the other's.
- *Allocation* (`Allocation.dfy`, `Filing.dfy`, `Refresh.dfy`): while a domain's candidates stay the same, any mix of batch and single
  calls, with reports, samples, merges and saves in between, is one uninterrupted walk around the candidate ring. Hence
  floor/ceil fairness, distinct windows, and a batch being the same as that many single picks. Both are about addresses;
  `Filing.dfy` treats those filed in both lists of a record.
- *Verdicts* (`Verdicts.dfy`): membership in the blacklist and in the whitelist as a function of the history of reports
  and merges, in both directions.
- *Reservations* (`Reservations.dfy`, `NextHistory.dfy`): what is queued for a domain is always the unspent tail of the last
  batch cut for it, and how each call is answered follows from the calls before it.
- *Persistence* (`Persistence.dfy`): nothing is lost as long as no write starts beside an outdated one when no other is
  to come; every start that breaks this can lose an update.
- *Synchroniser* (`PeerSync.dfy`, `PeerHistory.dfy`): mutual exclusion per peer, no client overwritten, each address
  discovered and started once, every run finite, capped doubling.

Places where the code does not do what its comments or names say; the model follows the code and proves exactly when
it does:

- `save` is meant to keep the rotation going across a refresh (`proxy/dns_pool.go:453-454`). The index counts both families
  but is cut by the IPv4 length alone, and new addresses of the family in front push the others back. When the next address
  is still the next one: `Refresh.SaveKeepsNextPickExactly`, in general; `Refresh.RefreshKeepsNextPickExactly`, when nothing
  new was found. `Records.SaveCanRestartRotation` and `Refresh.SaveCanServeAgain` are the two ways it fails.
- `MergeFromPeer` is said to ignore black and white lists (`proxy/dns_pool.go:475`). It whitelists every address a peer
  names, even one that is blacklisted here: `Records.MergeIgnoresListsExactly`, `Records.MergeKeepsDisjointExactly`.
- `NextIP` is meant to spread concurrent requests. The call that cuts a batch returns the first address and also queues it:
  `Reservations.BatchHeadRepeatsExactly`.
- `NextIPs` promises distinct addresses as far as there are enough. Peer lists are not checked, so an address can end up in
  both lists of a record and then has two places in the ring: `Allocation.BatchDistinctExactly`, `Filing.PeerCanFileTwice`.
  It cannot where peers file by family: `Filing.RunFilesOnce`.
- The backoff check is made before the guard, so a sync can start during a backoff: `PeerSync.EntersInBackoffExactly`, with
  `PeerSync.StalePairIsReached` and `PeerSync.BackoffCheckCanBeStale` as a run that does.
- `persistNow` takes no lock across its write, so overlapping writes can lose an update: `Persistence.SafeExactly`,
  `Persistence.CloseSavesExactly`, with `Persistence.OverlapLosesUpdate` as a run that does.

## Model

| member | source | states |
|---|---|---|
| Gossip.NothingMadeUp | server/peer_server.go:44-76 | In every reachable state of any network, every candidate or whitelisted address at any node, and every address in any request or reply, was there at the start or was found by some node's own save, report or resolution for that domain |
| Gossip.CandidatesNeverShrink | proxy/dns_pool.go:476-531 | Over any run, each node's candidates of each domain and family only grow; pushed messages never change |
| Gossip.ChainCarries | client/peer_client.go:608-652 | A chain of served pushes in time order carries all candidates of the first sender to the last receiver, whether or not replies arrive |
| Gossip.PushServeAbsorbCompletes | client/peer_client.go:608-652 | A push, its serving and the arrival of its reply, with nothing in between, are one complete exchange |
| Gossip.LocalHolds | proxy/dns_pool.go:675-1080 | A local operation brings in no address except those it saved, resolved or observed |
| Gossip.LocalCovers | proxy/dns_pool.go:416-1080 | No local operation removes a candidate of any domain |
| Gossip.MergeHolds | proxy/dns_pool.go:485-522 | A merge brings in no address except those of the message |
| Gossip.MergeCovers | proxy/dns_pool.go:485-522 | A merge removes no candidate and takes in every address of the message, each in the family it was sent under |
| Exchanges.TwoExchangesConverge | server/peer_server.go:44-76 | Two complete exchanges in a row between well-typed nodes leave equal candidate sets in every domain, namely the union of what both had, although replies are read through rewritten arrays |
| Exchanges.CrossedExchangesConverge | client/peer_client.go:608-652 | The same when the second exchange is started by the other node |
| Exchanges.OneExchangeEnough | server/peer_server.go:55-58 | One exchange is certain to equalise two well-typed records if and only if in each family one list contains the other |
| Exchanges.OneExchangeCanMiss | proxy/dns_pool.go:498-501 | For any two records that fail that condition, iteration orders exist under which the requester misses an address |
| Exchanges.IdleExchangeMeansEqual | server/peer_server.go:44-76 | However addresses are filed, an exchange that changes neither node's candidates of a domain both know finds them equal |
| Exchanges.ExchangesEventuallyEqual | server/peer_server.go:44-76 | However addresses are filed, two nodes whose candidates of a domain both know stay within a finite set of n addresses have held the same candidates by the end of 4n + 1 complete exchanges |
| Exchanges.ExchangeAt | server/peer_server.go:44-76 | After one exchange the responder holds exactly the union, the requester something between its own and the union, and the union where it had nothing new to offer |
| Exchanges.ExchangeKeepsTyped | proxy/dns_pool.go:485-518 | Exchanges between nodes with well-typed lists and the record invariant keep both |
| Exchanges.CompletesAt | server/peer_server.go:44-76 | A complete exchange of two pools is, for every domain both know and the requester has addresses for, exactly the exchange of the two records that the results about one exchange speak of |
| Exchanges.ExchangeDomains | client/peer_client.go:608-652 | The responder ends knowing its domains and those the requester has an address for, the requester its own and all of the responder's; what happens to a domain only one of them knew |
| Exchanges.ReplyAt | server/peer_server.go:55-58 | The answer covers exactly the domains known before the merge, with lists as long as the old ones, of merged addresses only: the first ones of the merged list, if the domain was asked for, and the old lists if not |
| Slices.Append | proxy/dns_pool.go:500-501 | Go's append: writes in place while capacity lasts, otherwise moves to a fresh array; the old header then keeps reading the old array |
| Slices.RebuildInPlace | proxy/dns_pool.go:491-518 | Cutting a list to length 0 and refilling it yields the wanted set, each address once, the folded ones last; a header taken before reads the first part of the new list, or the new list followed by the old rest |
| Allocation.AllocationIsOneWalk | proxy/dns_pool.go:844-849 | While every step leaves a domain's lists and blacklist and the host flags as they were, and saves of the domain do not move the rotation, all addresses taken by any mix of calls form one uninterrupted walk around the candidate ring from the stored index, and the index stays where the walk ends. Reports, latency samples, merges and saves in between are allowed |
| Allocation.ReportKeepsCandidatesExactly | proxy/dns_pool.go:997-1029 | A report leaves lists and blacklist as they were if and only if the address is listed in its family, a 403 is for an address already blacklisted, and a 200 for one that is not |
| Allocation.SaveIsSteadyExactly | proxy/dns_pool.go:416-471 | A save that names no index leaves candidates and rotation alone if and only if it names nothing new and the index is inside the IPv4 list or at the start of a turn |
| Allocation.FairAllocation | proxy/dns_pool.go:963-979 | Over such a run, of k addresses taken in total over a ring of n places each address is taken floor(k/n) or ceil(k/n) times for each place it has; so floor(k/n) or ceil(k/n) times in all, if no usable address is filed in both lists |
| Allocation.TurnFairExactly | proxy/dns_pool.go:963-979 | A whole turn is fair to every address if and only if no usable address is filed in both lists |
| Allocation.WindowDistinct | proxy/dns_pool.go:858-984 | Over such a run, consecutive allocations are listed, of an allowed family and not blacklisted, and they are different addresses if and only if they are at most one turn and no address comes up at two of its places among them: any n or fewer, if no usable address is filed in both lists; a whole turn, only then |
| Allocation.BatchRefinesSingles | proxy/dns_pool.go:968-979 | NextIPs(count) returns and leaves exactly what count single picks return and leave, also when nothing can be picked or resolution fails |
| Allocation.BatchesCompose | proxy/dns_pool.go:968-979 | NextIPs(j) then NextIPs(k) equals NextIPs(j + k) |
| Allocation.BatchDistinctExactly | proxy/dns_pool.go:855-857 | A batch names no address twice if and only if it is at most one turn and no address comes up at two of its places in it; asking for no more than are available is enough if no usable address is filed in both lists, and for a whole turn only then |
| Filing.FiledOnceExactly | proxy/dns_pool.go:785-832 | The candidate ring names no address twice if and only if no address that is not blacklisted is in both lists while both families are allowed |
| Filing.StretchDistinctExactly | proxy/dns_pool.go:968-973 | Addresses taken in a row from a ring position on are distinct if and only if they are at most one turn and no address has two places within that many steps |
| Filing.RunFilesOnce | proxy/dns_pool.go:496-517 | In every run in which resolvers, saves and peers file by family, no record has an address in both lists, whatever is reported |
| Filing.PeerCanFileTwice | proxy/dns_pool.go:496-517 | A peer that files an IPv4 address under IPv6 gets it into both lists of an empty record, and a batch of two then answers it twice |
| Rotation.FairShare | proxy/dns_pool.go:844-847 | Any k consecutive entries of a duplicate-free ring of n contain each entry floor(k/n) or ceil(k/n) times |
| PoolSpec.AvailableExact | proxy/dns_pool.go:785-832 | The candidate list holds exactly the listed, allowed, not blacklisted addresses, each from one place |
| Selection.RotationOrder | proxy/dns_pool.go:785-832 | Of two entries of the candidate list the earlier is of the family in front (IPv6, if allowed and preferred or alone), or both are of one family and the earlier is listed earlier |
| Selection.BatchAnswersExactly | proxy/dns_pool.go:858-984 | For any pool: a batch is answered if and only if its size is positive and the record, stored or just resolved, has a listed or whitelisted address of an allowed family that is not blacklisted; it then has that size and only such addresses, and the record holds exactly what it offered |
| Selection.SingleAnswersExactly | proxy/dns_pool.go:734-852 | The same for a single pick |
| Selection.FirstBatch | proxy/dns_pool.go:408-414 | A first contact stores the domain if and only if the resolver found an address of either family, with the lists as found and no verdicts, and is answered if and only if a family that was found is allowed, from the first candidate on |
| Selection.FirstSingle | proxy/dns_pool.go:408-414 | The same for a single pick |
| PoolSpec.BatchMovesIndexOnly | proxy/dns_pool.go:884-909 | On records that satisfy the invariant a batch changes only the index (or adds the resolved record); one that finds nothing changes nothing |
| PoolSpec.StepKeepsInv | proxy/dns_pool.go:416-1080 | Every operation keeps, for every domain: duplicate-free lists, blacklist within the lists, each whitelisted V4 or V6 address in its own family's list |
| PoolSpec.RunKeepsInv | proxy/dns_pool.go:416-1080 | The invariant holds in every state of every run that starts with it |
| Records.SaveKeepsOldAddsNew | proxy/dns_pool.go:416-471 | Both old lists stay prefixes, the new sets are the unions, both indices end below max(1, length), verdicts stay, the invariant is kept |
| Records.AppendsInOrder | proxy/dns_pool.go:427-449 | What a save appends are the addresses the list lacks, each at its first place in the list found, in that order |
| Records.SaveFrame | proxy/dns_pool.go:424-468 | A save takes over time and preference, copies the list of a family it had nothing of, sets each index from the one given or keeps or resets it, and leaves all latencies alone |
| Refresh.SaveKeepsNextPickExactly | proxy/dns_pool.go:453-459 | After any save that names no index, the next address picked is the one that was next before if and only if the index kept (the old one if inside the IPv4 list, else zero) points at a place of that address in the new candidate list; its place is the old one, moved back by the new candidates of the front family if it belongs to the other, and the only one unless it is filed in both lists |
| Refresh.SaveAfterSelection | proxy/dns_pool.go:453-459 | For an index inside the candidate list, as selections leave it: if the index is zero or inside the IPv4 list, and belongs to the front family unless that family gained nothing, the next address is kept; and only then, if no usable address is filed in both lists |
| Refresh.RefreshKeepsNextPickExactly | proxy/dns_pool.go:453-459 | For a save that finds nothing new, the next address is kept if and only if the index is inside the IPv4 list or the address is also the one a turn starts with, that is, with no address filed in both lists, the index is at the start of a turn |
| Refresh.SaveCanServeAgain | proxy/dns_pool.go:455-456 | With IPv6 in front, a new IPv6 address makes the rotation step back to the address just served, although the stored index is kept |
| Records.SaveCanRestartRotation | proxy/dns_pool.go:455-459 | An IPv6-only record in mid-rotation is sent back to the start by a save that finds nothing new |
| Records.FoldIsNoop | proxy/dns_pool.go:768-783 | Folding the whitelist into a record that satisfies the invariant changes nothing, so a selection that finds nothing leaves nothing unsaved |
| Records.FoldNormalises | proxy/dns_pool.go:124-133 | Folding keeps both lists as prefixes, adds exactly the typed whitelist addresses and establishes the whitelist half of the invariant |
| Records.FoldTwiceIsOnce | proxy/dns_pool.go:124-133 | Folding twice is folding once |
| Records.ReportKeepsInv | proxy/dns_pool.go:997-1029 | After a report of any status the address is a candidate of its family, old lists are prefixes, the invariant holds |
| Records.ReportFrame | proxy/dns_pool.go:997-1029 | A report appends at most its own address, to its own family's list, and changes nothing else but that address's verdicts, and those only for 200 and 403 |
| Records.TimedStaysBetween | proxy/dns_pool.go:1062-1077 | A latency sample moves only its own address's and family's average, strictly off the old value unless equal and never past the sample; the first sample is taken as is |
| Latency.AddressAverageByHistory | proxy/dns_pool.go:1062-1071 | In every run of a new pool, an address has an average if and only if a positive sample was reported for it, and it is those samples averaged, each new one with weight 0.3 |
| Latency.FamilyAverageByHistory | proxy/dns_pool.go:1072-1077 | Each family's average is that of the samples for its addresses, unparsable ones counting as IPv4, and 0 before the first |
| Latency.EqualSamplesConverge | proxy/dns_pool.go:1047-1071 | k equal samples bring an average to within 0.7^k of its distance from them |
| Records.MergeIsJoin | proxy/dns_pool.go:485-522 | On candidate and whitelist sets one merge is the join with the addresses named, typed whitelist addresses folded in |
| Records.MergeRunIsJoin | proxy/dns_pool.go:485-522 | Any run of merges is one join with everything its messages name |
| Records.MergeOrderIrrelevant | proxy/dns_pool.go:485-522 | Two runs that merge the same messages in any order, with any repetition, end in the same candidate and whitelist sets |
| Records.MergeGroups | proxy/dns_pool.go:485-522 | Merging two messages one after the other equals merging their concatenation |
| Records.MergeRunFrame | proxy/dns_pool.go:485-522 | Merges leave the blacklist, both indices, the preference and all latencies as they were |
| Records.MergeInflates | proxy/dns_pool.go:494-504 | A merge removes nothing, takes in everything named and whitelists exactly what is named |
| Records.MergeKeepsInv | proxy/dns_pool.go:485-522 | A merge establishes the record invariant, given only that the blacklist is within the lists |
| Records.MergeIgnoresListsExactly | proxy/dns_pool.go:502-504 | A merge never changes the blacklist, and leaves the whitelist as it was if and only if every address named is whitelisted already |
| Records.MergeKeepsDisjointExactly | proxy/dns_pool.go:502-504 | After a merge no address is both white and black if and only if none was before and none of those named is blacklisted |
| Records.MergeMayWhitelistBlacklisted | proxy/dns_pool.go:502-504 | A record and a message for which that fails |
| Verdicts.LatestReportDecides | proxy/dns_pool.go:1024-1029 | From an empty pool, an address is blacklisted for a domain if and only if a 403 report was not followed by a 200 report |
| Verdicts.VouchedSinceLastBan | proxy/dns_pool.go:502-504 | It is whitelisted if and only if a 200 report or a merge naming it was not followed by a 403 report |
| Verdicts.StepVerdict | proxy/dns_pool.go:987-1042 | No other operation changes either membership |
| Reservations.RunKeepsQueue | proxy/dns_pool.go:681-702 | In every run, what is queued for a domain is the unspent tail of the last batch cut for it, under that batch's one time stamp |
| Reservations.QueueExpiresWhole | proxy/dns_pool.go:685-691 | Expiry keeps the whole queue or none of it |
| Reservations.ReservedHandout | proxy/dns_pool.go:692-698 | The h-th reserved handout since a cut is entry h of that batch; the batch is under 500 ms old, and the address was listed, allowed and not blacklisted when it was cut |
| Reservations.FreshPick | proxy/dns_pool.go:714-849 | Every other answer of NextIP is listed, allowed and not blacklisted as the call ends |
| Reservations.BatchHeadRepeatsExactly | proxy/dns_pool.go:717-726 | After a call that cut a batch, with any other calls in between that leave the domain's candidates alone, the domain's next NextIP call answers the same address again if and only if it comes before the batch expires, or the ring holds that address as many steps on as addresses were allocated since, the batch included: with no address filed in both lists, after whole turns |
| Reservations.BatchHeadRepeatsAlone | proxy/dns_pool.go:717-726 | With no other allocation for the domain in between, the address repeats if and only if the call comes before expiry or the ring holds it eight steps on: with no address filed in both lists, when the ring's size divides eight |
| Reservations.CutsExactly | proxy/dns_pool.go:704-727 | On a known domain with candidates a call cuts a batch if and only if nothing live is queued and it is the domain's first call or under 200 ms after another |
| NextHistory.LastRequestExactly | proxy/dns_pool.go:704-732 | In every run of a new pool, a domain's request time is recorded if and only if some call was not served from the queue, and is the time of the latest such call |
| NextHistory.QueueExactly | proxy/dns_pool.go:681-726 | The queue of a domain is exactly the batch of the latest call not served from it, without what was handed out since, or empty if that call cut none |
| NextHistory.NextByHistory | proxy/dns_pool.go:675-732 | A call is served from the queue if and only if the latest call not served from it cut a batch under 500 ms ago of which fewer than eight were handed out since; else it cuts a batch if and only if it is the domain's first or follows that call within 200 ms, and there is something to pick |
| NextHistory.NextAnswersExactly | proxy/dns_pool.go:675-853 | A call is answered if and only if the queue, the batch it may cut, or the single pick it falls back to has an address |
| Reservations.CutIsPossible | proxy/dns_pool.go:704-727 | In every such state that call exists and answers the batch's first address |
| Reservations.FirstOfBatchHandedOutTwice | proxy/dns_pool.go:717-726 | In any state whatever, the next call is served from the queue if and only if it comes before the batch expires, and then repeats the address |
| DnsPools.LoadRoundTrip | proxy/dns_pool.go:111-143 | Loading what was written gives the same records, if they satisfied the invariant |
| DnsPools.LoadNormalises | proxy/dns_pool.go:111-143 | Any file loads to a form that appends exactly the missing typed whitelist addresses to the lists and changes nothing else, and loading that again changes nothing |
| DnsPools.AppendMissing | proxy/dns_pool.go:427-434 | The append loop of save |
| DnsPools.FoldWhitelist | proxy/dns_pool.go:768-783 | The fold loop appends each missing typed whitelist address once, in any order |
| DnsPools.CollectAvailable | proxy/dns_pool.go:785-832 | The collection loops build the candidate list of the specification, in its order |
| DnsPools.MergeRecord | proxy/dns_pool.go:487-519 | One domain's merge, with what a header taken before it reads afterwards |
| DnsPools.MergeLoop | proxy/dns_pool.go:485-522 | Merging domain by domain in any order merges exactly the named domains and no other |
| DnsPools.DnsPool.constructor | proxy/dns_pool.go:58-95 | A new pool is what its file loads to, or empty; with an invariant-satisfying file it starts in sync with the disk |
| DnsPools.DnsPool.LoadFromDisk | proxy/dns_pool.go:111-143 | Replaces memory by the file with each whitelist folded in |
| DnsPools.DnsPool.PersistNow | proxy/dns_pool.go:175-270 | Writes exactly memory, or nothing for an empty pool; either way the file then agrees with memory, provided an empty memory hid nothing before |
| DnsPools.DnsPool.TimerFires | proxy/dns_pool.go:163-165 | The timer's write leaves file and memory in agreement |
| DnsPools.DnsPool.Close | proxy/dns_pool.go:97-109 | Stops the timer and leaves file and memory in agreement |
| DnsPools.DnsPool.Save | proxy/dns_pool.go:416-471 | Is the save transition on its domain and no other, and arms the timer |
| DnsPools.DnsPool.MergeFromPeer | proxy/dns_pool.go:476-531 | Is the merge transition, stamps every merged record with the time, arms the timer unless there was nothing to merge, and says what earlier list headers now read |
| DnsPools.DnsPool.NextIPs | proxy/dns_pool.go:858-984 | Is the batch transition with its error cases; never leaves an unsaved change without a timer |
| DnsPools.DnsPool.PickOne | proxy/dns_pool.go:734-852 | Is the single-pick transition with its error cases |
| DnsPools.DnsPool.TakeReserved | proxy/dns_pool.go:681-702 | Serves the first live entry of the domain's queue or clears the queue |
| DnsPools.DnsPool.NextIP | proxy/dns_pool.go:675-853 | Is the NextIP transition: reserve, cut a batch, or fall back to a single pick |
| DnsPools.DnsPool.ReportResult | proxy/dns_pool.go:987-1042 | Is the report transition; ignores empty names |
| DnsPools.DnsPool.ReportLatency | proxy/dns_pool.go:1045-1080 | Is the latency transition; ignores empty names and non-positive samples |
| Persistence.ArmedOrSaved | proxy/dns_pool.go:153-182 | With callers, timer and writers interleaved, and a write starting beside one of an outdated snapshot only while a caller is on its way to persist() or, for PersistNow, the timer is armed: whenever no caller is between its change and its persist() and no write is under way, a difference between file and memory implies an armed timer |
| Persistence.StepKeepsNothingLost | proxy/dns_pool.go:175-182 | What the file lacks is always with a caller, behind the timer or in every write under way; an empty memory hides nothing |
| Persistence.CloseSavesExactly | proxy/dns_pool.go:97-109 | From every reachable state, Close leaves the file equal to memory, in whatever order the writes finish, if and only if no write of an outdated snapshot is under way when it is called |
| Persistence.OverlapLosesUpdate | proxy/dns_pool.go:163-165 | A run from a fresh start in which two overlapping writes leave the file outdated for good |
| Persistence.SettlesSavedExactly | proxy/dns_pool.go:241-252 | With writes under way, every order of finishing ends with memory in the file if and only if all of them are of the present memory |
| Persistence.StartSettlesExactly | proxy/dns_pool.go:163-182 | After the timer, PersistNow or Close starts a write, every order of finishing ends with memory in the file if and only if no outdated write was under way |
| Persistence.SafeExactly | proxy/dns_pool.go:153-182 | The start of a write can lead to an outdated file with nothing left to correct it if and only if it violates the condition of ArmedOrSaved |
| Persistence.PersistNowBesideOutdated | client/peer_client.go:637-645 | A run within that condition in which PersistNow follows a merge while an older snapshot is being written |
| PeerServers.PeerServer.ExchangeDNS | server/peer_server.go:44-76 | Merges the request and answers exactly the domains known before, each list as long as it was and read through the rewritten array: for a domain asked for, the first entries of the merged list; no pool, empty answer |
| PeerServers.PeerServer.AddKnownPeer | server/peer_server.go:30-41 | Adds a non-empty address to the known peers |
| PeerServers.PeerServer.ReportNode | server/peer_server.go:104-126 | Accepts exactly non-empty addresses, tells new from known, and the address is then known |
| PeerServers.PeerServer.GetPeers | server/peer_server.go:79-101 | Answers own address, seeds and known peers, each once and none empty; exactly these are then known |
| PeerServers.ExchangeWith | client/peer_client.go:608-652 | Requester and responder objects together perform one complete exchange when the reply arrives, and only the push when it does not; a merged reply is on disk at the end |
| PeerSync.News | client/peer_client.go:590-600 | The addresses to spawn are the peer list minus the known peers and the peer itself, each once |
| PeerSync.PeerSyncManager.TryEnter | client/peer_client.go:471-478 | Enters exactly when the peer is not being synced |
| PeerSync.PeerSyncManager.RecordTimeout | client/peer_client.go:550-561 | The critical section after a timeout is the TimedOut transition |
| PeerSync.PeerSyncManager.Learn | client/peer_client.go:590-600 | The discovery loop spawns exactly the news and makes them known |
| PeerSync.PeerSyncManager.SyncTargets | client/peer_client.go:426-454 | A round starts one sync for the centre, or one for each seed, and one for every known peer |
| PeerSync.MutualExclusion | client/peer_client.go:471-483 | In every interleaving at most one activation per peer is past the guard, and the syncing marks are exactly those peers |
| PeerSync.ClientsNeverOverwritten | client/peer_client.go:485-538 | No cached client is ever replaced or dropped, although lookup and insertion are separate critical sections |
| PeerSync.DiscoverySpawnsOnce | client/peer_client.go:590-600 | Discovery starts each address at most once, so at most as many syncs as there are unknown addresses to hear of |
| PeerHistory.StartedExactly | client/peer_client.go:590-600 | In every reachable state the activations are one for each start from outside and one for each address discovery spawned, and no other |
| PeerHistory.KnownExactly | client/peer_client.go:590-600 | An address is known if and only if it was at the start or some answer taken in named it other than as the answering peer, and was spawned if and only if it is then new |
| PeerHistory.RunsEnd | client/peer_client.go:590-600 | If all peer lists stay within a finite set, every run is finite: at most 10 n + 9 m actions for n starts from outside and m unknown addresses |
| PeerHistory.StepsInOrder | client/peer_client.go:457-658 | Every activation goes through check, guard, look-up, dial and store unless cached, ask, and, if answered, tell and exchange, in this order and with the values handed on, and leaves at the end whatever happened |
| PeerHistory.NeverStuck | client/peer_client.go:457-658 | Until it is gone an activation has a step of its own |
| PeerHistory.CheckExactly | client/peer_client.go:459-470 | A check passes if and only if the peer is not this node and the last thing that set or cleared its retry time left none later than now |
| PeerHistory.GuardExactly | client/peer_client.go:471-478 | The guard lets an activation in if and only if none for its peer is inside |
| PeerHistory.CachedExactly | client/peer_client.go:534-537 | The cache holds exactly the client last stored for each peer |
| PeerHistory.DialsExactly | client/peer_client.go:485-490 | An activation dials if and only if no client was stored for its peer before |
| PeerHistory.FailsExactly | client/peer_client.go:550-576 | A peer's failure count is the timeouts since its last answer, on top of a hundred if it was found unusable since |
| PeerSync.BackoffIsCappedDoubling | client/peer_client.go:550-561 | In every interleaving, after n timeouts since a peer's last success its backoff is min(300, 2^(n-1)) seconds, and 0 for n = 0 |
| PeerSync.RetryDelayBounds | client/peer_client.go:556-560 | The jittered wait lies in (0.9 b, 1.1 b] seconds and the jitter's modulus is never zero |
| PeerSync.RetryDelayReaches | client/peer_client.go:559-560 | Every wait in that interval comes up at some reading of the clock |
| PeerSync.EntersInBackoffExactly | client/peer_client.go:462-483 | In every interleaving, an activation that reaches the guard at a time not before its check finds its peer in backoff if and only if, since the check, some activation of the peer timed out or found it unusable with a retry time past that moment, and no later one set the retry time anew or cleared it |
| PeerSync.BackoffCheckCanBeStale | client/peer_client.go:462-483 | From any state where one activation asks a peer and another has passed the check for it, a timeout of the first lets the second past the guard inside the new backoff |
| PeerSync.StalePairIsReached | client/peer_client.go:462-483 | A run from a fresh manager reaches such a state |
| ServerBatch.BoundedInFlight | server/server.go:225-247 | In every interleaving at most maxConcurrent fetches are in flight |
| ServerBatch.HeldBackExactly | server/server.go:241-247 | A goroutine is held back if and only if as many as the limit hold the semaphore |
| ServerBatch.ReturnsEveryOutcome | server/server.go:284-315 | When BatchFetch returns, slot i holds request i's outcome, for all i |
| ServerBatch.SomeStepEnabled | server/server.go:235-315 | No deadlock: with a positive limit, every reachable state short of the return has an enabled step |
| ServerBatch.MeasureDecreases | server/server.go:235-315 | Every step decreases one measure, so every interleaving ends |
| ServerBatch.Reachable | server/server.go:235-315 | The semaphore holds exactly the fetching and not yet released goroutines, the wait group those started and not done, the slots exactly the stored outcomes |
| ClientBatch.BoundedInFlight | client/client.go:184-196 | In every interleaving at most maxConcurrent fetches are in flight |
| ClientBatch.HeldBackExactly | client/client.go:187-188 | The next goroutine is held back if and only if as many as the limit hold the semaphore |
| ClientBatch.ResponsesAreOutcomes | client/client.go:198-200 | The responses returned are the outcomes, each once, in some order |
| ClientBatch.SendNeverBlocks | client/client.go:186-194 | The result channel always has room for a finished fetch |
| ClientBatch.SomeStepEnabled | client/client.go:184-200 | No deadlock: with a positive limit, every reachable state short of the last response has an enabled step |
| ClientBatch.MeasureDecreases | client/client.go:184-200 | Every step decreases one measure |
| ClientBatch.Reachable | client/client.go:184-200 | Every sent outcome is in the channel or among the responses exactly once; nothing is collected before all are spawned |
| ConnectionPools.LastReadyIsHighest | client/connection_pool.go:77-84 | The reused connection is the highest ready one |
| ConnectionPools.KeptExactly | client/connection_pool.go:77-92 | A scanned connection is kept if and only if it was seen idle, connecting or ready, and closed if and only if it was seen in transient failure or shut down |
| ConnectionPools.SurvivorsKeepOrder | client/connection_pool.go:77-92 | Of two kept connections the one earlier in the pool stays earlier |
| ConnectionPools.SurvivorsExact | client/connection_pool.go:77-92 | Kept and closed connections together are exactly those scanned, and none is both |
| ConnectionPools.ConnectionPool.constructor | client/connection_pool.go:44-64 | An empty pool; a non-positive limit means ten |
| ConnectionPools.ConnectionPool.CreateConnection | client/connection_pool.go:120-142 | A failed dial adds nothing, a successful one is appended and counted |
| ConnectionPools.ConnectionPool.Scan | client/connection_pool.go:77-92 | The in-place backward scan stops at the highest ready connection; everything broken above it is closed and gone, the rest keeps its order |
| ConnectionPools.ConnectionPool.GetConnection | client/connection_pool.go:72-109 | Counter equals length within the limit; a ready connection is reused without dialling; otherwise one dial, or the first survivor of a full pool; the last branch is unreachable |
| ConnectionPools.ConnectionPool.Close | client/connection_pool.go:148-171 | Every connection is closed and the pool empty |
| ConnectionPools.ConnectionPool.Size | client/connection_pool.go:177-184 | The counter is the list's length |
| Ipv6Pools.HealthyExact | proxy/ipv6_pool.go:113-135 | The filter keeps exactly the listed healthy addresses, each once |
| Ipv6Pools.TotalsBalance | proxy/ipv6_pool.go:154-231 | In every run each entry's total is the sum of its four counters, and addresses stay distinct |
| Ipv6Pools.SelectionsWalk | proxy/ipv6_pool.go:103-151 | While the ring of healthy addresses stays the same, selections are one uninterrupted walk around it, with any outcomes recorded in between, and any refreshes if the index is inside the ring at the start, as every selection leaves it |
| Ipv6Pools.HealthyShareAlike | proxy/ipv6_pool.go:103-151 | Over such a run, k selections visit each of m healthy addresses floor(k/m) or ceil(k/m) times |
| Ipv6Pools.BansNeverFade | proxy/ipv6_pool.go:64-99 | The count of 403s never falls while every refresh still finds the address |
| Ipv6Pools.StatsByHistory | proxy/ipv6_pool.go:154-231 | Each of the five counters of an address is what it was plus the outcomes of its kind recorded for it, or just those recorded since a refresh did not find it |
| Ipv6Pools.HealthyByHistory | proxy/ipv6_pool.go:121-135 | From a new pool: an address is healthy if and only if at most four 403s were recorded for it, and, of 21 or more outcomes, at most three in ten were failures, since a refresh last did not find it |
| Ipv6Pools.ListedByHistory | proxy/ipv6_pool.go:64-99 | The addresses listed are those the latest refresh found |
| Ipv6Pools.RingExactly | proxy/ipv6_pool.go:113-141 | The ring rotated over holds the healthy listed addresses, or all listed ones if none is healthy |
| Ipv6Pools.HealthyInOrder | proxy/ipv6_pool.go:113-135 | The filter keeps the order of the list |
| Ipv6Pools.FirstSeenInOrder | proxy/ipv6_pool.go:75-90 | A refresh lists each address found at its first place |
| Ipv6Pools.SelectsExactly | proxy/ipv6_pool.go:103-151 | A selection answers if and only if an address is listed, with a listed one, and with a healthy one if there is any |
| Ipv6Pools.BannedIsSkipped | proxy/ipv6_pool.go:121-124 | After five recorded 403s an address is not selected while a healthy one exists, until a refresh drops it |
| Ipv6Pools.Ipv6Pool.Refresh | proxy/ipv6_pool.go:64-99 | The found addresses once each in order of first occurrence; statistics kept for them and dropped for all others |
| Ipv6Pools.Ipv6Pool.GetHealthyNext | proxy/ipv6_pool.go:103-151 | Takes the next address of the healthy ring, or of all when none is healthy |
| Ipv6Pools.Ipv6Pool.Record | proxy/ipv6_pool.go:154-231 | Counts one outcome for one address; nil is ignored |
| Ipv6Pools.Ipv6Pool.GetHealthyCount | proxy/ipv6_pool.go:248-277 | Equals the number of addresses GetHealthyNext filters |
| LogBuffers.LogBuffer.constructor | logger/logger.go:322-331 | An empty buffer with an empty history, for any size that can be allocated |
| LogBuffers.LogBuffer.AddEntry | logger/logger.go:335-352 | The buffer is the last min(added, maxSize) entries since the last Clear |
| LogBuffers.LogBuffer.GetEntries | logger/logger.go:355-372 | The last maxLines matching entries of the buffer, oldest first |
| LogBuffers.MatchingExactly | logger/logger.go:361-369 | The matching entries are all those of the level asked for, or all entries if none is given, in the order of the buffer |
| LogBuffers.LastExactly | logger/logger.go:355-372 | The last n entries end the list, and there are n of them, or all |
| LogBuffers.LogBuffer.Clear | logger/logger.go:375-380 | Starts the history over |
| LogBuffers.LogBuffer.Size | logger/logger.go:383-387 | min(entries added, maxSize) |
| Retry.Execute | client/retry.go:90-126 | At most MaxRetries + 1 calls; the loop goes on exactly while a call fails retryably with attempts left and no cancellation; it succeeds with the last call's value, gives up on a failure that is not retryable, is exhausted after the last attempt with its failure, or is cancelled in a wait; each wait is the loop delay |
| Retry.CheckRetryable | client/retry.go:136-159 | True exactly for gRPC errors whose code is listed |
| Retry.BackoffIsTruncated | client/retry.go:198-211 | CalculateBackoff is the exact product without its fraction, unless that is over the cap |
| Retry.WholeMultiplier | client/retry.go:115-119 | With a whole multiplier the loop's wait after attempt k > 0 is min(initial * m^k, cap), for k > 1 provided the cap is not negative, m is at most one, or the first product is within the cap |
| Retry.LoopIsClosedForm | client/retry.go:198-211 | With a whole multiplier, and any delays, the wait after attempt k is CalculateBackoff(k) if and only if, for k = 0, the initial delay is within the cap and, for k > 1, that proviso holds: always, for k > 0 and a cap that is not negative |
| Retry.LoopNeverLonger | client/retry.go:198-211 | With any non-negative multiplier and initial delay, and any cap, the loop never waits longer than CalculateBackoff says |
| Retry.NegativeCanBeLonger | client/retry.go:115-119 | From a negative initial delay it can |
| Retry.LoopAgreesExactly | client/retry.go:115-119 | With any multiplier and delays that are not negative, the waits after attempts 1 to k all are CalculateBackoff if and only if no loss of the closed form to truncation and cap, times the multiplier, exceeds its next loss |
| Retry.UnroundedIsClosedForm | client/retry.go:115-119 | In particular the wait after attempt k is CalculateBackoff(k) when no product in between loses anything to truncation before the cap is reached for good |
| Retry.FractionalCanBeShorter | client/retry.go:115-119 | Otherwise it can be less, because the loop truncates at every step |

## Left out

- Address parsing: an address carries its parse result (V4, V6 or unparsable) as a tag instead of calling net.ParseIP.
- Records: blacklist and whitelist are the sets of keys mapped to true; a hand-edited file with explicit false entries, null records or negative indices is not modelled. Integer overflow of counters is not modelled, and latencies are exact reals.
- Slices: records are values inside the map; shared backing arrays are modelled for one merge, from header to end of merge. A reply that is marshalled while later merges rewrite the arrays again is not modelled.
- Exchanges.TwoExchangesConverge: needs well-typed lists and the record invariant; Exchanges.ExchangesEventuallyEqual does without types. A peer's lists are not type-checked, and the node that learns a wrongly filed address folds it into its own family as well, while the node that has it may not.
- Nil entries in a peer's record map are skipped by the program and absent from the model's maps.
- DnsPools.DnsPool.PersistNow: one atomic step there; the file is a value, so JSON text, torn or failed writes, reading errors and the hot reload of external edits are not modelled. Persistence splits the write into snapshot and rename.
- Persistence.ArmedOrSaved: assumes its condition on starts of writes, because without that it is false, as Persistence.SafeExactly and Persistence.OverlapLosesUpdate show.
- Persistence.SafeExactly: each writer renames its own snapshot. The program's writers share one temporary file name, so overlapping ones can also mix up or tear what they write, or fail to rename; that is not modelled.
- Allocation.AllocationIsOneWalk: a merge rebuilds the lists in map-iteration order; one that changes their order ends a steady run.
- DnsPools.DnsPool.NextIP: each method is one atomic step on memory; concurrent NextIP calls that interleave between the program's locks are not modelled, so the reservation results are about sequential runs.
- DnsPools.DnsPool.ReportResult: the prewarming of a newly seen address is network plumbing.
- PeerSync: dialling, TLS, the self-address test, last-seen times, saving peers to the configuration file and the self report are inputs or absent; Stop is not modelled, because sync goroutines are not in its wait group. One clock reading serves a whole update.
- PeerServers.PeerServer.ExchangeDNS: logging and protobuf encoding are absent; the known-peer set is updated without locks in the program, and the model takes each call as one step.
- ServerBatch.ReturnsEveryOutcome: a request's outcome, with errors already turned into responses, is an input; the choice of user agent and TLS fingerprint and the statistics are absent. The limit is positive since the program replaces a non-positive one.
- ClientBatch.ResponsesAreOutcomes: a failed fetch yields whatever response value it came with, as in the program; the nil-request checks are absent.
- ConnectionPools.ConnectionPool.GetConnection: connections are opaque handles with their observed states as input; a new dial yields a handle not yet in the pool; closing errors are not modelled.
- LogBuffers.LogBuffer.AddEntry: needs a positive size; with size zero, which the constructor accepts, the program panics. A negative size already fails at construction.
- Retry.LoopAgreesExactly: about delays that are not negative.
- Ipv6Pools.Healthy: the failure-rate test is 10 * failures > 3 * total over integers; time stamps are absent.
- Retry.Execute: durations are unbounded integers and the multiplier is an exact real; the function's outcomes and the cancellations are input sequences.
- Deep DNS probing, address listing for prewarming, the TLS and QUIC clients, request routing, statistics, administration, configuration and command-line tools: plumbing or simple members that the results above do not need.
