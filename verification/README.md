# Verification of the Mainline DHT node and the Laurelia decoder

This project models two parts of the repository in Dafny and proves what they are for.

**The DHT node** (`rust/mainline/src`). Ids with their XOR metric, k-buckets and the routing table,
the sorted list of closest nodes, the socket's table of requests in flight, lookups, puts, the
server with its tokens and stores, the wire format, the node's own tick, and the actor loop that
answers callers. The clock is a parameter, and the network may lose, repeat and reorder anything.
Where the program walks a hash map, the model picks an arbitrary element.

**The decoder** (`rust/src/laurelia`). Grouped-query attention with rotary positions, residual
blocks, a stack of any number of layers, the pass over key-value caches, generation, and the
sampler. Tensors are sequences of reals; norms, projections and the feed-forward network are
arbitrary functions of one position. `exp` is an arbitrary positive function; what only an increasing
one, or a true exponential, gives is stated for that (`Softmax.LargerScoreWeighsMore`,
`Softmax.SoftmaxIsPlain`).

How it is put together:

- An object whose methods update it is a class. Its methods are proved equal to functions of the old
  state, and lemmas about those functions carry the results over whole runs.
- `Rpcs.Rpc` and `Actors.Actor` hold queries by value, as the program owns them; what each query does
  is proved once on its own class (`IterativeQuery`, `PutQuery`) and on the function that specifies it.
- `RpcCore.Healthy` is the invariant behind response routing: while fewer than 2^32 requests were
  issued, the transaction-id lists of all queries are pairwise disjoint, and no put counts more
  answers than it sent requests.
- `Callers.Conserved` is the invariant of the actor: each caller was answered once or waits in the
  list of its own target, and not both. `Channels.Fed` says what its lookup has sent it.
- `Phases` is a machine with three phases for the put of one target (idle, unsent, sent at a time),
  moved by accepted puts and by ticks; the actor refines it (`Phases.Refined`).
- The lemmas that carry `{:induction false}` are proved by their bodies alone.

Main results: lookups end whenever ticks come (`IterativeQueries.LookupTerminates`,
`LookupEndsInTime`) and end only when they should (`DoneMeansVisitedAndAnswered`); no update is lost
among writers who name the version they read and raise its seq (`Servers.NoLostUpdates`), which is
what it takes (`FirstIsLostIff`); put callers are conserved over every schedule
(`Actors.Actor.Run`), and a put that is not left behind is answered in bounded time
(`Actors.Actor.RunToAnswer`, for lookups `RunToReport`), one that is left behind never while its
target is left alone (`Actors.Actor.Run`, with a run from the start in
`Abandonment.LeaveACallerBehind`); a reply reaches exactly its own query (`Rpcs.Rpc.HandleReply`),
and the nodes it names are kept and asked (`Learning.ReplyTeaches`, `Learning.NamedIsAsked`); whatever
the server acknowledges its readers get back (`Servers.ReadsBackWhatWasPut`,
`ReadBack.ImmutableReadsBack`, `ReadBack.PeerReadsBack`), and a token is accepted for its interval
and refused after two rotations (`ServerTokens.TokenInReplyIsAccepted`, `ServerTokens.OldTokenInReplyIsRefused`);
the table invariant and its consequences for one IP (`KBuckets.RunKeepsTableInv`,
`AtMostEightPlusOne`); a node that keeps answering is dropped all the same
(`Refreshing.AnswerUntilPurged`); exactly when the closest nodes are the least ones
(`RoutingTables.ClosestIsLeastIff`); a majority verdict is right exactly up to 509 nodes
(`PutQueries.MajorityVerdictExactlyUpTo509`, and for the puts of a running node
`RpcSteps.EarlyVerdictIsRight`); a signature covers one triple (`Mutable.SignableInjective`);
messages survive the wire (`Messages.MessageRoundTrip`); decoding over caches equals the full pass
(`Decoder.OneTokenRefinesFullPass`, `Decoder.Generate`), and feeding rows onto a cache is right
exactly for a first chunk or single rows (`Attention.CacheAgreesIff`).

Where the code and its own documentation differ, the model follows the code:

- `tokens.rs:49` speaks of ten minutes, but rotation is lazy and a token may be accepted at any age
  (`Tokens.NoUpperBoundOnAge`).
- `put_query.rs:219-224` documents an error that carries the commonest response, but codes other than
  301 and 302 end in a timeout (`PutQueries.FinalVerdict`).
- `node.rs:104` tests for a valid token by age alone, so an accepted put can start at cached nodes
  without tokens and send nothing; a put that finds a find_node lookup of its target active waits for
  a value lookup that nobody opens (`Actors.Actor.ReceivePut`). Its callers get no answer until someone
  puts to the target again or looks up its value (`Actors.Actor.Run`, `Abandonment.LeaveACallerBehind`).
- `put_query.rs:87-90` counts acknowledgements in a byte, so a put that 256 nodes stored is reported as
  failed (`PutQueries.StoredAt256NodesButFailed`).
- `closest_nodes.rs:144` says that the distance is rounded up; it is truncated
  (`Closest.U128DistanceIsTruncated`). `closest_nodes.rs:155` says that the first node is ignored; it
  is counted.
- `routing_table.rs:182-183` says that buckets drop no responsive node, and `routing_table.rs:207-212` that
  a node seen again is refreshed; but `routing_table.rs:48-54` screens a known node of the same IP out
  first (`Refreshing.KnownIdAddedIff`). So a node that keeps answering from its own IP is dropped by the
  first purge more than 15 minutes after it was first seen (`Refreshing.AnswerUntilPurged`, with a run in
  `Refreshing.DropAnAnsweringNode`).
- `routing_table.rs:70-71` promises the closest nodes with secure ones first; an insecure node that comes
  first in bucket order keeps a secure one of its IP out (`RoutingTables.ClosestIsLeastIff`,
  `Shadowing.SecureNodeIsHidden`).
- `peers.rs:72` reads overlapping windows of the random bytes; the results hold for any bytes.

## Model

| member | source | states |
|---|---|---|
| `Ids.ComputeXor` | rust/mainline/src/common/id.rs:67-75 | the loop writes, byte by byte, the XOR of the two ids |
| `Ids.ComputeLeadingZeros` | rust/mainline/src/common/id.rs:55-64 | the loop with its early return counts the leading zero bits |
| `Ids.DistanceIsBitLength` | rust/mainline/src/common/id.rs:50-75 | the distance is the binary length of the XOR, so bucket `d` holds the XOR values from `2^(d-1)` up to `2^d` |
| `Ids.DistanceZeroIff` | rust/mainline/src/common/id.rs:50-52 | an id is at distance zero from itself and from no other id |
| `Ids.DistanceSymmetric` | rust/mainline/src/common/id.rs:50-52 | the distance is symmetric |
| `Ids.DistanceUltrametric` | rust/mainline/src/common/id.rs:50-75 | a way through a third id is never shorter than the longer of its two legs |
| `Ids.XorOrderRefinesDistance` | rust/mainline/src/common/id.rs:50-75 | the lexicographic XOR order that lookups sort by never contradicts the bucket distance |
| `Ids.BucketMatesAreCloser` | rust/mainline/src/common/routing_table.rs:40-58 | two nodes of bucket `d` are at a distance strictly below `d` from each other |
| `Ids.BucketsAreSeparated` | rust/mainline/src/common/routing_table.rs:40-58 | nodes of two buckets are as far apart as the farther bucket |
| `Ids.GeneratedIdIsValid` | rust/mainline/src/common/id.rs:98-139 | an id generated for an IP passes the check for that IP and keeps the random bits that are not the prefix |
| `Ids.EightSecurePrefixes` | rust/mainline/src/common/id.rs:106-154 | a public IP has at most eight secure prefixes, because three bits of `r` reach the hash (BEP 42) |
| `Ids.PrefixExample` | rust/mainline/src/common/id.rs:106-139 | the first example of BEP 42: the prefix is the first three bytes of the checksum of the masked IP with `r` on top |
| `Ids.LocalRanges` | rust/mainline/src/common/id.rs:106-112 | exactly the private, link-local and loopback ranges are exempt |
| `KBuckets.BucketAddKeeps` | rust/mainline/src/common/routing_table.rs:201-235 | a bucket keeps its ids unique and holds at most 20 nodes; an add touches only the same id or one stale node |
| `KBuckets.BucketAddKeepsOrder` | rust/mainline/src/common/routing_table.rs:201-235 | one add of a node seen last keeps a bucket ordered by least recently seen |
| `KBuckets.NewIdRefusedIff` | rust/mainline/src/common/routing_table.rs:219-235 | in an ordered bucket a new id is refused exactly when the bucket is full and no node in it is stale |
| `KBuckets.TableAddContents` | rust/mainline/src/common/routing_table.rs:40-58 | what one add does to the whole table: what it may lose, gain and keep |
| `KBuckets.RemoveKeepsTableInv` | rust/mainline/src/common/routing_table.rs:62-68 | a remove takes out exactly the nodes with this id and keeps the invariant |
| `KBuckets.RunKeepsTableInv` | rust/mainline/src/common/routing_table.rs:40-68 | after any run of adds and removes: each node is in the bucket of its distance, from 1 to 160; buckets hold at most 20 nodes with unique ids; no two different nodes block each other |
| `KBuckets.RunKeepsOrder` | rust/mainline/src/common/routing_table.rs:40-68 | after any run of adds with non-decreasing times and removes anywhere, every bucket is ordered by least recently seen |
| `KBuckets.RefusedInReachableTable` | rust/mainline/src/common/routing_table.rs:40-58 | so in every table that such a run reaches a new node that nothing blocks is refused exactly when its bucket is full and holds no stale node |
| `KBuckets.IdsUnique` | rust/mainline/src/common/routing_table.rs:40-68 | ids are unique over the whole table |
| `KBuckets.SameIpNodesDiffer` | rust/mainline/src/common/node.rs:135-141 | two nodes of one IP differ in their first 21 bits, and not both are insecure |
| `KBuckets.AtMostEightPlusOne` | rust/mainline/src/common/node.rs:135-141 | a public IP holds at most eight secure nodes and at most one insecure node |
| `RoutingTables.KBucket.Add` | rust/mainline/src/common/routing_table.rs:201-235 | the bucket as an object: the new list and the result are those of the bucket function |
| `RoutingTables.RoutingTable.Add` | rust/mainline/src/common/routing_table.rs:40-58 | the table as an object: admission over all buckets, then the add; the invariant is kept |
| `RoutingTables.RoutingTable.Remove` | rust/mainline/src/common/routing_table.rs:62-68 | the table as an object: only the bucket of the id changes; the invariant is kept |
| `RoutingTables.RoutingTableIterator.Next` | rust/mainline/src/common/routing_table.rs:160-179 | the two-index cursor yields the next node of the remaining list, and nothing exactly when that list is empty |
| `RoutingTables.NodesOfContents` | rust/mainline/src/common/routing_table.rs:115-179 | the iterator yields each node of the table exactly once and nothing else |
| `RoutingTables.RoutingTable.ClosestTo` | rust/mainline/src/common/routing_table.rs:72-82 | the result is the first 20 of all nodes added in bucket order |
| `RoutingTables.RoutingTable.ClosestSecure` | rust/mainline/src/common/routing_table.rs:85-100 | the result is the same list, cut where the secure walk first may stop |
| `RoutingTables.NothingDroppedIff` | rust/mainline/src/common/routing_table.rs:72-82 | no node is lost on the way exactly when no insecure node comes before another node of its IP |
| `RoutingTables.ClosestIsLeast` | rust/mainline/src/common/routing_table.rs:72-82 | then `closest` is exactly the least min(20, n) nodes of the table |
| `RoutingTables.DroppedIff` | rust/mainline/src/common/routing_table.rs:72-82 | the walk loses exactly the nodes before which an insecure node of their IP comes in bucket order |
| `RoutingTables.ClosestIsLeastIff` | rust/mainline/src/common/routing_table.rs:72-82 | for every table: `closest` is the least nodes exactly when no node of the table has both an earlier insecure node of its IP in bucket order and fewer than 20 nodes of the table nearer to the target |
| `Shadowing.SecureNodeIsHidden` | rust/mainline/src/common/routing_table.rs:40-82 | a table that two adds build, a secure node and then an insecure one of its IP in a nearer bucket: `closest` lacks the nearest node of every target |
| `Shadowing.HiddenAtEveryPublicIp` | rust/mainline/src/common/routing_table.rs:40-82 | whatever the checksum, every public IP has two such nodes for some owner of the table |
| `RoutingTables.ClosestIsPrefixOfSecure` | rust/mainline/src/common/routing_table.rs:72-100 | `closest` is a prefix of `closest_secure`, whatever the estimates |
| `Maintenance.PurgeAndPingCandidates` | rust/mainline/src/rpc.rs:804-817 | one walk over the iterator collects the stale ids and the quiet addresses in order |
| `Maintenance.PurgeAndPing` | rust/mainline/src/rpc.rs:784-831 | exactly the stale nodes leave the table, and exactly the quiet ones among the others are to be pinged |
| `Refreshing.KnownIdAddedIff` | rust/mainline/src/common/routing_table.rs:40-58 | a node whose id is known is added again exactly when it comes from another IP, is secure there and no node of that IP keeps it out; from its own IP the table is unchanged |
| `Refreshing.NeverRefreshesItsOwnIp` | rust/mainline/src/common/routing_table.rs:201-218 | so the branch of a bucket that refreshes an insecure node from its own IP is never taken |
| `Refreshing.FirstSightingStays` | rust/mainline/src/common/routing_table.rs:40-68 | after any run in which an id is only seen at its own IP, not removed, and not stale at any add, the table holds the node as it first was |
| `Refreshing.AnswerUntilPurged` | rust/mainline/src/rpc.rs:784-831 | then the first purge more than 15 minutes after it was first seen drops it, however often it answered since |
| `Refreshing.DropAnAnsweringNode` | rust/mainline/src/common/routing_table.rs:40-68 | a run from an empty table that drops a node five minutes after its last answer |
| `Closest.ComparatorIsKeyOrder` | rust/mainline/src/rpc/closest_nodes.rs:55-65 | the four-way comparator is one total order: secure before insecure, then XOR distance |
| `Closest.ClosestNodes.Search` | rust/mainline/src/rpc/closest_nodes.rs:55-67 | the binary search finds the key or the only place where it keeps the order |
| `Closest.ClosestNodes.Add` | rust/mainline/src/rpc/closest_nodes.rs:48-68 | the vector stays strictly sorted; the new vector is insertion in order, after the admission rule |
| `SortedList.AddKeepsSorted` | rust/mainline/src/rpc/closest_nodes.rs:48-68 | a node is kept exactly when no kept node blocks it or has its key; nothing else is lost or invented |
| `SortedList.AddAllSorted` | rust/mainline/src/rpc/closest_nodes.rs:48-68 | the vector is strictly sorted after any adds |
| `SortedList.AllKeptIffCompatible` | rust/mainline/src/rpc/closest_nodes.rs:48-68 | all of a list is kept exactly when no earlier node blocks or equals a later one |
| `SortedList.PrefixIsLeast` | rust/mainline/src/common/routing_table.rs:72-82 | the first `k` kept nodes are the `k` least of those added |
| `Closest.ClosestNodes.TakeUntilSecure` | rust/mainline/src/rpc/closest_nodes.rs:79-106 | the result ends at the first node that is far and diverse enough, but has at least 20 nodes when there are that many |
| `RoutingTables.CutTooLongIff` | rust/mainline/src/rpc/closest_nodes.rs:79-106 | the walk hands over more than 255 responders, at which a put panics, exactly when there are that many and it may stop at none of the first 256 |
| `Closest.LowEstimateTakesAll` | rust/mainline/src/rpc/closest_nodes.rs:79-106 | with an estimate below 20 the walk stops at no node nearer than the largest 128-bit distance |
| `Closest.ClosestNodes.SubnetsCount` | rust/mainline/src/rpc/closest_nodes.rs:109-121 | the number of 6-bit subnets among the first 20 nodes, 20 when there is none, and always from 1 to 20 |
| `Closest.U128DistanceIsTruncated` | rust/mainline/src/rpc/closest_nodes.rs:141-146 | the 128-bit distance is the XOR distance without its last 32 bits |
| `Closest.ExpectedDkIsTwentieth` | rust/mainline/src/rpc/closest_nodes.rs:83-90 | the expected distance is that of the twentieth of the estimated number of evenly spread nodes, at most the largest one |
| `Closest.SubnetIsSixBits` | rust/mainline/src/rpc/closest_nodes.rs:137-139 | two nodes are of one subnet exactly when the first six bits of their IPs agree |
| `Closest.SubnetCountIs` | rust/mainline/src/rpc/closest_nodes.rs:109-121 | 20 for no node, 1 when the first twenty share a subnet, their number when they share none |
| `Closest.StopIs` | rust/mainline/src/rpc/closest_nodes.rs:79-106 | where a walk stops is far and diverse enough, and nowhere before |
| `SizeEstimate.DhtSizeEstimate` | rust/mainline/src/rpc/closest_nodes.rs:148-169 | the loop computes the size that the best slope means, or infinity when all distances are zero |
| `SizeEstimate.SumOfSquaresClosedForm` | rust/mainline/src/rpc/closest_nodes.rs:166 | the closed form is the sum of the first `n` squares |
| `SizeEstimate.BestSlopeIsLeastSquares` | rust/mainline/src/rpc/closest_nodes.rs:148-169 | the slope used is the only one through the origin with the least total squared error |
| `SizeEstimate.EquallySpacedIsExact` | rust/mainline/src/rpc/closest_nodes.rs:148-169 | equally spaced nodes give exactly their gap |
| `Socket.CleanupInvisible` | rust/mainline/src/rpc/socket/inflight_requests.rs:79-85 | dropping the expired requests changes no live request at any later time |
| `Socket.SameTablesBehaveAlike` | rust/mainline/src/rpc/socket/inflight_requests.rs:41-85 | tables with the same live requests answer `contains` and `remove` alike, and still do after any add or remove |
| `Socket.LiveRemove` | rust/mainline/src/rpc/socket/inflight_requests.rs:61-76 | a removal succeeds exactly for a live request from the asked address, and takes that one request |
| `Socket.AskedGetsThrough` | rust/mainline/src/rpc/socket/inflight_requests.rs:41-76 | the reply of the address asked is taken at any time before the timeout and not after, and that of another address never |
| `Socket.InflightRequests.Remove` | rust/mainline/src/rpc/socket/inflight_requests.rs:61-76 | the table as an object: the removal, and that no other live request changes |
| `Socket.InflightRequests.Cleanup` | rust/mainline/src/rpc/socket/inflight_requests.rs:79-85 | the table as an object: the cleanup cannot be observed later |
| `Socket.KrpcSocket.Tid` | rust/mainline/src/rpc/socket.rs:240-247 | ids count up and wrap around after 32 bits |
| `Socket.KrpcSocket.RecvFrom` | rust/mainline/src/rpc/socket.rs:139-236 | a reply passes exactly when its request is live and was sent to its sender, and then only once; the lazy cleanup does not matter |
| `Socket.AskAndHear` | rust/mainline/src/rpc/socket.rs:102-236 | the reply of whom was asked passes the socket the first time and not the second |
| `Socket.SendAllSpec` | rust/mainline/src/rpc/socket.rs:102-112 | until 2^32 requests were issued, requests get consecutive ids and disturb no other entry |
| `IterativeQueries.IterativeQuery.Visit` | rust/mainline/src/rpc/iterative_query.rs:132-146 | a visit sends two requests, remembers both ids and marks the address |
| `IterativeQueries.IterativeQuery.VisitClosest` | rust/mainline/src/rpc/iterative_query.rs:191-204 | the unvisited addresses among the 20 closest are visited in order |
| `IterativeQueries.IterativeQuery.Tick` | rust/mainline/src/rpc/iterative_query.rs:170-186 | the object ticks as the function does: the new lists, the socket and the result |
| `IterativeQueries.DoneMeansVisitedAndAnswered` | rust/mainline/src/rpc/iterative_query.rs:170-204 | after a tick the 20 closest were all visited, and the tick is the last exactly when every request the query ever sent was answered or has expired |
| `IterativeQueries.TickProgress` | rust/mainline/src/rpc/iterative_query.rs:170-204 | every tick, however soon, shrinks the unvisited addresses by those it asks, and one that asks nobody a timeout after the last request ends the query |
| `IterativeQueries.LookupTerminates` | rust/mainline/src/rpc/iterative_query.rs:170-204 | over a finite set of addresses, with ticks at any times, a lookup ends once more timeouts have passed between ticks than there are unvisited addresses, under any loss, answers and candidates |
| `IterativeQueries.LookupEndsInTime` | rust/mainline/src/rpc/iterative_query.rs:170-204 | so with ticks at most `gap` apart it ends within (unvisited addresses + 1) times (timeout + gap) |
| `IterativeQueries.MostVoted` | rust/mainline/src/rpc/iterative_query.rs:95-107 | in whatever order the votes are walked, the result has the most votes, and is absent exactly when nobody voted |
| `IterativeQueries.IterativeQuery.BestAddress` | rust/mainline/src/rpc/iterative_query.rs:95-107 | the best address of a query has the most of its votes, and is absent exactly when nobody voted |
| `IterativeQueries.IterativeQuery.AddAddressVote` | rust/mainline/src/rpc/iterative_query.rs:123-128 | one more vote for this address, all others as before |
| `PutQueries.PutQuery.StartAt` | rust/mainline/src/rpc/put_query.rs:38-77 | a request goes to each node with a token, in order; without any node the start fails and nothing is sent |
| `PutQueries.PutQuery.RecordError` | rust/mainline/src/rpc/put_query.rs:92-113 | the in-place count and swaps compute the tally function |
| `PutQueries.PutQuery.Answered` | rust/mainline/src/rpc.rs:570-585 | a reply is counted as an acknowledgement, an error, or not at all |
| `PutQueries.PutQuery.Tick` | rust/mainline/src/rpc/put_query.rs:116-196 | the early returns compute the verdict function |
| `PutQueries.TallyErrorKeeps` | rust/mainline/src/rpc/put_query.rs:92-113 | one more error keeps codes unique, counts true and the list ordered by count, as long as its count is below 255 |
| `PutQueries.TallyAllRepresents` | rust/mainline/src/rpc/put_query.rs:92-113 | the list is the exact tally of the errors, most frequent first, as long as no count passes 255 |
| `PutQueries.MajorityVerdictExactlyUpTo509` | rust/mainline/src/rpc/put_query.rs:167-195 | over all logs of answers in which no earlier tick had rejected: an early rejection means that strictly more than half of the asked nodes sent that code, and the converse, exactly when at most 509 nodes were asked; for every larger number a bad log is reachable, because half of it is cut to a byte |
| `PutQueries.FinalVerdict` | rust/mainline/src/rpc/put_query.rs:116-141 | over all answers of a put whose requests are answered or expired: stored exactly when the number of acknowledgements is not a multiple of 256, and otherwise, while no error count passes 255, the error that is commonest |
| `PutQueries.StoredByAll` | rust/mainline/src/rpc/put_query.rs:87-141 | a put that every asked node stored is reported as failed exactly when their number is a multiple of 256 |
| `PutQueries.StoredAt256NodesButFailed` | rust/mainline/src/rpc/put_query.rs:38-141 | the smallest case: 255 closest nodes and one extra node all store it, and the put times out |
| `PutQueries.AnswersAre` | rust/mainline/src/rpc/put_query.rs:87-113 | after any answers the counter is the number of acknowledgements modulo 256 and the list is the tally of the errors |
| `PutQueries.FirstIsCommonest` | rust/mainline/src/rpc/put_query.rs:92-113 | while no count passes 255 no code came more often than the first of the list |
| `PutQueries.StartedIffSomeToken` | rust/mainline/src/rpc/put_query.rs:38-81 | a start leaves the query unstarted exactly when no node has a token |
| `Tids.OneAddressee` | rust/mainline/src/rpc.rs:570-595 | with disjoint lists a transaction id has one owner |
| `Tids.TakeNewTids` | rust/mainline/src/rpc/socket.rs:240-247 | ids issued later may join a list: the lists stay disjoint |
| `Tids.VisitAllTids` | rust/mainline/src/rpc/iterative_query.rs:132-146 | a lookup that visits gets only new consecutive ids, and no older request changes |
| `Tids.AnswerOneRequest` | rust/mainline/src/rpc/put_query.rs:87-113 | an accepted answer closes one request, so answers never outnumber the requests sent |
| `RpcCore.StartKeepsHealthy` | rust/mainline/src/rpc.rs:316-324 | starting a put keeps all id lists disjoint, all answers bounded by the requests sent, and each open request of a put one to a node it asked when it started |
| `RpcCore.VisitsKeepHealthy` | rust/mainline/src/rpc.rs:398-440 | visits of one lookup keep the same for all queries, and each open request of a lookup one to an address it visited |
| `RpcCore.AnswerKeepsHealthy` | rust/mainline/src/rpc.rs:570-585 | an answer that comes after a tick keeps the same, and what the put counts is what it was answered |
| `RpcCore.AnswerKeepsLogged` | rust/mainline/src/rpc/put_query.rs:87-113 | counter and list stay those of all answers, none of whose proper prefixes was rejected |
| `RpcCore.ReplyHasOneAddressee` | rust/mainline/src/rpc.rs:570-595 | while fewer than 2^32 requests were issued, at most one query of either kind waits for a reply |
| `Rpcs.Rpc.Get` | rust/mainline/src/rpc.rs:361-448 | a second lookup of a target changes nothing and is given the responses so far and the put in flight; otherwise exactly the bootstrap, extra and closest nodes are asked, cached nodes being candidates too |
| `Opening.ExplicitIff` | rust/mainline/src/rpc.rs:402-410 | the bootstrapping nodes are asked exactly when the table gives fewer nodes than they are |
| `Opening.CandidatesAre` | rust/mainline/src/rpc.rs:422-436 | candidates are the nodes of the table and of the last lookup of the target, none forgotten, none invented, nearest first |
| `Opening.LookedAsks` | rust/mainline/src/rpc.rs:361-448 | a new lookup has asked exactly the bootstrapping nodes that are due, the extra addresses and its 20 closest candidates, and asks nobody only when it knows of nobody |
| `Opening.GivenIs` | rust/mainline/src/rpc.rs:373-390 | a caller is given the responses so far and the item of a signed put in flight for the target, as it was put |
| `RpcSteps.OpenLookupVisits` | rust/mainline/src/rpc.rs:398-440 | a new lookup has asked every explicit address and its 20 closest candidates |
| `RpcSteps.OpenLookupKeeps` | rust/mainline/src/rpc.rs:398-440 | a new lookup leaves every other query as it was and the ids disjoint |
| `Rpcs.Rpc.Enrol` | rust/mainline/src/rpc.rs:314-344 | the whole new state: a put starts at usable cached nodes, or waits unsent while its target has a lookup |
| `Rpcs.Rpc.Put` | rust/mainline/src/rpc.rs:276-344 | the conflict rules for mutable puts, case by case; a put that is turned down or already in flight changes nothing; no other put changes |
| `Opening.ConflictsAgreeWithServer` | rust/mainline/src/rpc.rs:283-312 | beside a server that has stored the put in flight: a put that the node lets through is one the server accepts, each refusal has the code the server would send, and a put without cas that the server would accept is refused as a risk |
| `Opening.OthersNeverConflict` | rust/mainline/src/rpc.rs:283-312 | plain puts never conflict, and the same signature again is no conflict |
| `Opening.RefusalsComeBack` | rust/mainline/src/rpc/server.rs:313-376 | a well-formed put is refused by a server only with the codes 301 and 302, which stand for a failed cas and an older seq at its caller |
| `RpcSteps.StartsSafely` | rust/mainline/src/rpc/put_query.rs:38-77 | a put is only started when it has not started, at one or more nodes, and one request goes out for each token |
| `Rpcs.Rpc.TickPuts` | rust/mainline/src/rpc.rs:956-971 | each ended put is reported once with its verdict, and no other |
| `Rpcs.Rpc.TickGets` | rust/mainline/src/rpc.rs:974-1010 | every lookup asks its closest nodes; while ids have not wrapped around, exactly those with nothing in flight are reported, once, with their closest nodes or what the walk over their responders takes with the averages kept so far |
| `RpcSteps.OthersStayExpired` | rust/mainline/src/rpc.rs:974-1010 | requests of one lookup do not revive another |
| `Rpcs.Rpc.UpdateAddressVotes` | rust/mainline/src/rpc.rs:861-882 | a new best address is pinged and counts as firewalled; a known one changes nothing |
| `Rpcs.Rpc.FinishGet` | rust/mainline/src/rpc.rs:1019-1045 | one finished lookup: its best address is taken over and firewalled if new, the cache, and the start or failure of the put that waits for it |
| `Rpcs.Rpc.CleanupDone` | rust/mainline/src/rpc.rs:1013-1050 | finished lookups and ended puts leave; each unstarted put of a finished value lookup starts at exactly the nodes found and the extra nodes, at this time, or fails when there are none; no other put changes; cache and own address follow from the lookups in turn |
| `RpcSteps.FailuresFacts` | rust/mainline/src/rpc.rs:1042-1044 | puts that fail for lack of nodes are unstarted, and a value lookup of theirs found nobody, each failing once |
| `RpcSteps.AllEndings` | rust/mainline/src/rpc.rs:1013-1050 | a put is in the report exactly when its answers, or their absence, decide it or it was unsent and its value lookup found nobody; it is there once, with that result |
| `RpcSteps.StartedEnds` | rust/mainline/src/rpc/put_query.rs:116-141 | a put that was sent has a verdict as soon as a timeout has passed since its start |
| `RpcSteps.SomeTooManyIff` | rust/mainline/src/rpc.rs:974-1045 | a tick starts a put at more than 255 nodes, at which it panics, exactly when a put waits for a value lookup that ended with more responders than that and may stop at none of the first 256 |
| `RpcSteps.LeftAreSettled` | rust/mainline/src/rpc.rs:230-250 | of the puts that a tick leaves none is already rejected, so that every answer meets a put that was not |
| `RpcSteps.EarlyVerdictIsRight` | rust/mainline/src/rpc/put_query.rs:116-196 | a put of the node with at most 509 requests, some of them open, is ended exactly when a majority of its nodes sent one of the two codes, and with that code |
| `RpcSteps.LateVerdictIs` | rust/mainline/src/rpc/put_query.rs:116-141 | when none is open the verdict follows in the same way from all its answers |
| `Outcomes.AnswerIsCounted` | rust/mainline/src/rpc/put_query.rs:87-113 | an answer joins the log of its put, and counter and list are again those of the whole log, with no request closed or opened |
| `Outcomes.PutIsAnswered` | rust/mainline/src/rpc.rs:570-585 | a delivered reply is counted by the put that waits for it |
| `Outcomes.AcknowledgedIsStored` | rust/mainline/src/rpc/put_query.rs:116-141 | below 256, one acknowledgement makes the put stored once nothing is open |
| `Outcomes.OpenPutGoesOn` | rust/mainline/src/rpc/put_query.rs:116-196 | while a request is open a put is neither stored nor timed out, and goes on unless errors reject a mutable one |
| `Outcomes.ReportedSuccessIff` | rust/mainline/src/rpc.rs:1013-1050 | a caller hears of success exactly for a put that was sent and whose acknowledgements are no multiple of 256 |
| `Outcomes.OpenLookupGoesOn` | rust/mainline/src/rpc.rs:974-1010 | before ids wrap around no lookup with an open request is reported as finished |
| `RpcSteps.DeliverToPut` | rust/mainline/src/rpc.rs:570-585 | an accepted answer to a put changes that put alone |
| `RpcSteps.DeliverToGet` | rust/mainline/src/rpc.rs:587-693 | an accepted answer to a lookup changes that lookup alone, which stays sorted with tokens for all responders and gains the value in the answer exactly when it passes its check |
| `Learning.AllAreAccounted` | rust/mainline/src/rpc/closest_nodes.rs:48-68 | adding nodes to a sorted list loses none of the old, takes each new one unless a node in the list blocks it or shares its key, and invents none |
| `Learning.ReplyTeaches` | rust/mainline/src/rpc.rs:596-612 | after a reply every old candidate and responder is still there, each named node is a candidate or kept out by one, and the sender with its token is a responder or kept out by one; nobody else joins |
| `Learning.ReplyVotes` | rust/mainline/src/rpc.rs:610-612 | the address that the reply saw us at gains one vote and no other gains any |
| `Learning.ReplyBrings` | rust/mainline/src/rpc.rs:616-676 | the value that the reply claims joins the responses exactly when it passes the check of its kind for the target |
| `Learning.NamedIsAsked` | rust/mainline/src/rpc.rs:230-250 | a node that a reply names is asked by the next tick when it is among the 20 closest |
| `RpcSteps.AcceptedWasAsked` | rust/mainline/src/rpc/socket/inflight_requests.rs:61-76 | an accepted reply comes from an address that the put asked or the lookup visited |
| `RpcSteps.AcceptsIff` | rust/mainline/src/rpc/socket/inflight_requests.rs:12-76 | a reply is accepted exactly while its request is open and from an address that matches the one asked |
| `Rpcs.Rpc.HandleReply` | rust/mainline/src/rpc.rs:563-720 | an accepted reply closes its request and reaches exactly the query that waits for it; other or read-only replies reach none; the value returned is the response that one lookup gained |
| `Rpcs.Rpc.HandleRequest` | rust/mainline/src/rpc.rs:511-536 | only a ping from the own public address ends the firewalled state; then the id fits that address, and if it had to change, its lookup is opened |
| `Rpcs.Rpc.Maintain` | rust/mainline/src/rpc.rs:744-851 | the whole new state: refresh, pings and the switch to server mode happen on schedule; only a node that is not firewalled switches |
| `Rpcs.Rpc.Tick` | rust/mainline/src/rpc.rs:230-250 | a whole tick, stage by stage: exactly the puts that end are reported, once each, and removed; lookups stay unless reported, with what the kept averages let them take; waiting puts start at what their lookup found; exactly when it panics; upkeep opens only find_node lookups; a packet is heard by the query it is for and no other; all invariants hold again |
| `Statistics.QueryStatistics.CacheIterativeQuery` | rust/mainline/src/rpc.rs:884-923 | after caching, replacing, evicting or the offline return the sums stand for exactly the cached entries beside 1000000 and 20 |
| `Statistics.QueryStatistics.Decrement` | rust/mainline/src/rpc.rs:934-951 | an entry that left is taken out of the sums, and nothing goes below zero |
| `Statistics.PutSums` | rust/mainline/src/rpc.rs:902-922 | with room in the cache, a put adds its entry and loses exactly the one it replaces |
| `Statistics.TouchKeepsSums` | rust/mainline/src/rpc.rs:427-430 | reading a cached entry changes no sum |
| `Statistics.QueryStatistics.CountCoversEntries` | rust/mainline/src/rpc.rs:922 | the responder count is at least the number of cached entries |
| `Outcomes.CachedAfterIs` | rust/mainline/src/rpc.rs:884-923 | a lookup that met somebody is cached under its target with its own nodes and sizes; other entries stay as they were, all of them below a thousand |
| `Statistics.QueryStatistics.AverageSubnets` | rust/mainline/src/rpc.rs:930-932 | the quotient of sum and number rounded down, bounded from both sides, never a division by zero, and 20 for an empty cache |
| `Statistics.QueryStatistics.EstimateIsMean` | rust/mainline/src/rpc.rs:925-928 | the estimate that ends walks is the mean of those kept, rounded down |
| `Tokens.TokenLifetime` | rust/mainline/src/rpc/server/tokens.rs:45-70 | a token is accepted for its IP by every request within the rotation interval, under any schedule of requests |
| `ServerTokens.SecretsAlong` | rust/mainline/src/rpc/server.rs:145-158 | the secrets after a run of the server are those after the requests that pass its filter |
| `ServerTokens.TokenInReplyIsAccepted` | rust/mainline/src/rpc/server.rs:145-312 | over any run: the token in a reply lets its IP write to any store for the whole rotation interval, filtered requests included |
| `Tokens.AcceptedIffAtMostOneRotation` | rust/mainline/src/rpc/server/tokens.rs:50-65 | when new secrets give new tokens, a token is accepted exactly until the second rotation |
| `Tokens.RotatesTwice` | rust/mainline/src/rpc/server/tokens.rs:45-65 | a request more than the interval after the last rotation and another more than the interval after it leave the secrets rotated twice, whatever comes between |
| `Tokens.OldTokenIsRefused` | rust/mainline/src/rpc/server/tokens.rs:45-70 | then the token is refused, if the new secrets give others |
| `Tokens.ValidTokenIsAccepted` | rust/mainline/src/common/node.rs:104-106 | as long as a node passes for having a valid token, the token it gave when it was seen is accepted by its server |
| `ServerTokens.OldTokenInReplyIsRefused` | rust/mainline/src/rpc/server.rs:155-312 | over any run: after two such requests a write with the token of an earlier reply gets error 203 |
| `Tokens.AtMostOneRotation` | rust/mainline/src/rpc/server/tokens.rs:45-65 | at most one rotation falls into a rotation interval |
| `Tokens.NoUpperBoundOnAge` | rust/mainline/src/rpc/server.rs:155-158 | rotation is lazy: after any quiet time the next request still accepts the token |
| `Tokens.Tokens.RotateIfDue` | rust/mainline/src/rpc/server.rs:155-158 | the object rotates exactly when the interval has passed |
| `Peers.SamplePicks` | rust/mainline/src/rpc/server/peers.rs:58-83 | a sample is a subsequence of the stored peers |
| `Peers.SampleLength` | rust/mainline/src/rpc/server/peers.rs:58-83 | a sample has all its slots filled unless some draw is the largest number |
| `Peers.AnswerSpec` | rust/mainline/src/rpc/server/peers.rs:41-87 | at most ten peers in their order, all when fewer than ten, and of more exactly ten unless a draw is the largest number where every remaining peer is needed; every window lies in the random bytes |
| `Peers.SampleShortIff` | rust/mainline/src/rpc/server/peers.rs:74-81 | a sample misses a slot exactly when at some index as many slots are open as peers remain and the draw there is the largest number |
| `Peers.ChanceIsQuotient` | rust/mainline/src/rpc/server/peers.rs:66-76 | below certainty the chance of a peer is the exact share of open slots among the remaining peers, in 2^32ths rounded down |
| `Peers.DrawIsLittleEndian` | rust/mainline/src/rpc/server/peers.rs:66-76 | a draw is the number that four random bytes write, least significant first |
| `Peers.LargestDrawsSelectNobody` | rust/mainline/src/rpc/server/peers.rs:74-81 | when every draw is the largest number nobody is selected |
| `Peers.SampleLoop` | rust/mainline/src/rpc/server/peers.rs:63-81 | the loop with its early stop computes the sample |
| `Peers.PeersStore.AddPeer` | rust/mainline/src/rpc/server/peers.rs:30-38 | the nested cache after an announcement |
| `Peers.PeersStore.GetRandomPeers` | rust/mainline/src/rpc/server/peers.rs:41-87 | the answer, and the promotion of the info hash |
| `Lru.LeavesOnlyWhenOutnumbered` | rust/mainline/src/rpc/server.rs:282-362 | an entry that is not used again leaves only after as many different keys as the capacity were used |
| `Lru.PutKeeps` | rust/mainline/src/rpc/server.rs:362 | a put stores its value; another key keeps its own unless it was the oldest of a full cache |
| `Servers.HandleKeepsSound` | rust/mainline/src/rpc/server.rs:145-380 | every request keeps: each stored value passed its size check and its hash or signature check |
| `Servers.RunKeepsSound` | rust/mainline/src/rpc/server.rs:145-380 | so does every run of requests |
| `Servers.PutMutableOutcome` | rust/mainline/src/rpc/server.rs:313-376 | a mutable put is acknowledged exactly when signature, seq and cas allow it; then it is stored, otherwise no item changes |
| `Servers.SeqNeverDecreases` | rust/mainline/src/rpc/server.rs:327-376 | while a target stays cached its stored seq never decreases |
| `Servers.NoLostUpdates` | rust/mainline/src/rpc/server.rs:327-376 | when every writer names the version it read in cas and sends a larger seq, the accepted writes form one chain with rising seq, each over exactly the version its cas names, ending in the stored item |
| `Servers.SecondReplacesIff` | rust/mainline/src/rpc/server.rs:327-376 | after an accepted write a second one with a good signature is accepted exactly when its seq is not smaller and its cas is absent or names the seq of the first |
| `Servers.FirstIsLostIff` | rust/mainline/src/rpc/server.rs:327-376 | of two writers that read one version and name it in cas, the second replaces the first exactly when the first sent a seq equal to its cas: a larger seq is what the discipline needs |
| `Servers.RunIsUses` | rust/mainline/src/rpc/server.rs:189-376 | a run uses the store of mutable items exactly as its reads and writes say |
| `Servers.ItemLeavesOnlyWhenOutnumbered` | rust/mainline/src/rpc/server.rs:189-376 | an item leaves its store only after as many distinct other targets as the capacity were read or written |
| `Servers.ReadsBackWhatWasPut` | rust/mainline/src/rpc/server.rs:360-420 | right after an accepted write a reader gets exactly what was written |
| `ReadBack.ImmutableReadsBack` | rust/mainline/src/rpc/server.rs:189-284 | an acknowledged immutable value is what the next reader of its target gets |
| `ReadBack.ImmutableAcknowledgedIff` | rust/mainline/src/rpc/server.rs:238-290 | it is acknowledged exactly with a valid token, at most 1000 bytes and the right hash, and otherwise refused with 203 or 205 and not stored |
| `ReadBack.OtherImmutablesStay` | rust/mainline/src/rpc/server.rs:189-290 | a request about another target changes no immutable value that stays cached |
| `ReadBack.NewerItemIsSent` | rust/mainline/src/rpc/server.rs:383-420 | a reader who names a seq gets exactly a newer item, else the stored seq, and no value when none is stored |
| `ReadBack.ReaderCanVerify` | rust/mainline/src/rpc/server.rs:189-204 | whatever was written, a value in a reply passes the hash or signature check of its reader |
| `ReadBack.MutableRefusals` | rust/mainline/src/rpc/server.rs:313-376 | each refusal code of a mutable put means exactly its own reason, the first in the order of the checks |
| `ReadBack.WellFormedIff` | rust/mainline/src/rpc/server.rs:313-376 | where nothing is stored exactly the puts of the right sizes with a good signature are accepted |
| `ReadBack.PeerReadsBack` | rust/mainline/src/rpc/server.rs:205-237 | an acknowledged peer is stored under its id at its own address or at the port it names, and every reader gets it while there are fewer than ten |
| `ReadBack.ReadsAreAnswered` | rust/mainline/src/rpc/server.rs:145-204 | a filtered request has no effect and no reply, and every other read is answered with the nodes known and a token |
| `Servers.WritesNeedAToken` | rust/mainline/src/rpc/server.rs:205-312 | without a valid token for its IP a writer changes no store and gets error 203 |
| `Servers.Server.HandleRequest` | rust/mainline/src/rpc/server.rs:145-158 | the object handles a request as the function does |
| `Servers.Server.HandlePutMutable` | rust/mainline/src/rpc/server.rs:313-376 | the checks in order and the store |
| `Servers.Server.HandleGetMutable` | rust/mainline/src/rpc/server.rs:383-420 | the reply and the promotion of the item |
| `Mutable.EncodeSignable` | rust/mainline/src/common/mutable.rs:140-152 | the buffer that is built piece by piece |
| `Mutable.SignableVectors` | rust/mainline/src/common/mutable.rs:140-152 | the test vectors of BEP 44, with and without a salt |
| `Mutable.DecimalReadsBack` | rust/mainline/src/common/mutable.rs:140-152 | numbers are printed in decimal without leading zeros: they read back |
| `Mutable.SignableInjective` | rust/mainline/src/common/mutable.rs:140-152 | equal buffers come from equal seq, value and salt, for all values and negative seq too |
| `Mutable.HashableInjective` | rust/mainline/src/common/immutable.rs:8-22 | equal hashed buffers come from equal values |
| `Mutable.ItemRequestRoundTrip` | rust/mainline/src/common/mutable.rs:170-196 | an item and the request to put it convert into each other without loss |
| `Messages.EncodeNodes` | rust/mainline/src/common/messages.rs:700-709 | the loop writes the compact form of the nodes |
| `Messages.DecodeNodes` | rust/mainline/src/common/messages.rs:711-729 | the loop reads the compact form, or rejects the length |
| `Messages.NodesRoundTrip` | rust/mainline/src/common/messages.rs:700-729 | decoding what was encoded gives the same ids and addresses |
| `Messages.DecodesIffEncoded` | rust/mainline/src/common/messages.rs:700-729 | a byte string decodes exactly when it is an encoding, then of the decoded nodes; every other one is InvalidNodes4 |
| `Messages.AddrRoundTrip` | rust/mainline/src/common/messages.rs:669-696 | an address comes back from its six bytes |
| `Messages.BytesOfAddr` | rust/mainline/src/common/messages.rs:669-696 | six bytes come back from their address |
| `Messages.PeersRoundTrip` | rust/mainline/src/common/messages.rs:731-743 | a list of peers comes back |
| `Messages.ResponseRoundTrip` | rust/mainline/src/common/messages.rs:313-391 | each kind of response is told apart by its fields and comes back |
| `Messages.MessageRoundTrip` | rust/mainline/src/common/messages.rs:215-584 | every message comes back, up to token and age of nodes, the salt of a get, and implied_port as Some(was_some) |
| `Messages.LosslessIff` | rust/mainline/src/common/messages.rs:215-584 | a message comes back unchanged exactly when it holds none of what the wire loses |
| `Messages.NetworkOrder` | rust/mainline/src/common/messages.rs:669-696 | addresses are written in network byte order |
| `Messages.AddrDecodesIff` | rust/mainline/src/common/messages.rs:669-696 | an address decodes exactly from six bytes, and 18 bytes are told apart as IPv6 |
| `Messages.PeersDecodeIff` | rust/mainline/src/common/messages.rs:731-743 | a list of peers decodes exactly when each does, to peers that encode to it, else the first bad one decides |
| `Messages.ReadOnlyUnlessSaid` | rust/mainline/src/common/messages.rs:399-584 | a message without the flag, or with a flag that is not positive, is not read-only, and is otherwise unchanged |
| `Messages.BadPartsFail` | rust/mainline/src/common/messages.rs:399-584 | a bad requester address fails a message with its own error, and a bad body otherwise |
| `Messages.PanicsIff` | rust/mainline/src/common/messages.rs:399-584 | decoding aborts exactly on a put with a key and without its seq or signature |
| `Messages.ImpliedPortArrives` | rust/mainline/src/common/messages.rs:399-584 | the flag of an announcement arrives as absent, zero or set |
| `Messages.UntaggedKeeps` | rust/mainline/src/common/messages.rs:313-391 | reading a response invents no field and loses no token |
| `Callers.EnlistConserves` | rust/mainline/src/dht.rs:521-546 | a new caller waits in the list of its own target |
| `Callers.RefuseConserves` | rust/mainline/src/dht.rs:530-532 | a caller that is turned down is answered at once |
| `Callers.TellConserves` | rust/mainline/src/dht.rs:592-604 | everyone who waits for a reported target is answered and waits no more |
| `Callers.TellAll` | rust/mainline/src/dht.rs:580-604 | a whole report keeps it: each caller is answered or waits, never both, never twice |
| `Callers.CallersAreTold` | rust/mainline/src/dht.rs:592-604 | whoever waits for a reported target is told that target's own result |
| `Actors.Actor.ReceivePut` | rust/mainline/src/dht.rs:521-534 | a put is answered at once exactly when the conflict rules turn it down, and waits otherwise; a new put is left behind exactly when no value lookup of its target is active and the cached nodes pass the age test without a token, or a find_node lookup takes the place of the value lookup |
| `Actors.Actor.ReceiveGet` | rust/mainline/src/dht.rs:535-547 | a get is enlisted for its target and sent at once what is known, as far as its channel carries it; it frees a put that was left behind exactly when it opens a value lookup |
| `Actors.Actor.Tick` | rust/mainline/src/dht.rs:568-604 | exactly the callers of reported targets are answered; every caller of a lookup was sent all it found; no put stays overdue; a tick neither leaves a put behind nor helps one that was |
| `Channels.JoinFeeds` | rust/mainline/src/dht.rs:535-546 | a caller who joins a lookup late misses no response and gets none twice |
| `Channels.FittingIs` | rust/mainline/src/dht.rs:615-630 | a channel carries exactly the values of its kind |
| `Channels.Forward` | rust/mainline/src/dht.rs:570-577 | the loop sends the new response to exactly those who wait for its target |
| `Channels.ForwardFeeds` | rust/mainline/src/dht.rs:570-589 | so the channel of a caller holds all values of its lookup that fit, each once and in order, until the lookup ends and when it does |
| `Channels.ValuesAreGenuine` | rust/mainline/src/rpc.rs:616-693 | what a caller is sent passed its hash or signature check for the target, or is the put in flight when it joined |
| `Phases.AcceptRefines` | rust/mainline/src/rpc.rs:276-344 | an accepted put moves the phase of its target as the phase machine says, and no other |
| `Phases.UnsentAfter` | rust/mainline/src/rpc.rs:1030-1044 | the tick that reports a value lookup of an unsent put starts it or ends it, and nothing else does |
| `Phases.SentAfter` | rust/mainline/src/rpc.rs:956-971 | a put that was sent keeps its start time and leaves exactly when its answers, or their absence, decide it |
| `Phases.TickRefines` | rust/mainline/src/rpc.rs:230-250 | a tick moves the phase of every target as the phase machine says |
| `Phases.TickEndsOverdue` | rust/mainline/src/rpc/put_query.rs:116-141 | while ids have not wrapped around, the first tick a timeout after its start ends a put |
| `Phases.TickKeepsStuck` | rust/mainline/src/rpc.rs:1019-1045 | a tick leaves no put behind and helps none that was |
| `Phases.LookupFrees` | rust/mainline/src/rpc.rs:361-400 | a get frees a put that was left behind exactly when it is a value lookup and no lookup of the target is active |
| `Phases.EnrolledStuckIff` | rust/mainline/src/rpc.rs:316-341 | a new put is left behind exactly under a condition that can be checked before the call |
| `Progress.StillSentBy` | rust/mainline/src/rpc/socket.rs:240-247 | while ids have not wrapped around, requests of other queries do not make those of a lookup any younger |
| `Progress.HearingKeeps` | rust/mainline/src/rpc.rs:587-620 | a packet changes no request of a lookup and adds only candidates it names |
| `Progress.LookupProgresses` | rust/mainline/src/rpc.rs:974-1010 | in a whole tick of the node an active lookup is reported, or waits for an answer younger than a timeout, or asks someone it never asked |
| `Progress.TickKeepsAsking` | rust/mainline/src/rpc.rs:230-250 | so every tick that comes in time reports a lookup or keeps it within its deadline |
| `Progress.TickKeepsTrack` | rust/mainline/src/rpc.rs:230-250 | so every tick keeps a put that waits for a value lookup, or was sent, within its deadline |
| `Actors.Actor.Run` | rust/mainline/src/dht.rs:512-605 | after any schedule every caller was answered once or still waits for its own target; no put is overdue; a put that was left behind stays so, with its callers, unless someone puts to its target or looks up its value; only an accepted put message leaves one behind |
| `Actors.Actor.CallerHasNoAnswerIff` | rust/mainline/src/dht.rs:521-604 | a caller of a put has no answer exactly while it is among the callers in the phase of its target |
| `Actors.Actor.UnansweredIffUnsent` | rust/mainline/src/dht.rs:521-604 | when the put was not sent within the last timeout, its caller has no answer exactly because the put is unsent since it asked |
| `Actors.Actor.RunToAnswer` | rust/mainline/src/dht.rs:512-605 | a put that is not left behind ends, and all its callers are answered, within (addresses + 2) times (timeout + longest time between ticks), under any loss and whatever other callers do, unless someone puts to its target again or ids wrap around |
| `Actors.Actor.RunToReport` | rust/mainline/src/dht.rs:512-605 | every caller of a lookup is told its end within (addresses + 1) times (timeout + longest time between ticks), under any loss and whatever other callers do, unless ids wrap around |
| `Abandonment.LeaveACallerBehind` | rust/mainline/src/rpc.rs:316-324 | a run from the start of a node, for every target: a find_node lookup caches a node without token, the put is accepted, and its caller has no answer after any schedule that leaves the target alone |
| `Attention.CacheSliceRows` | rust/src/laurelia/rope.rs:57-69 | rebuilding the table does not show: row `i` is the angle row of position `offset + i` |
| `Attention.RotateIsByPosition` | rust/src/laurelia/rope.rs:71-94 | every row is rotated by its absolute position |
| `Attention.ScoresAreRelative` | rust/src/laurelia/rope.rs:71-94 | for cosine and sine, the score of a rotated query and a rotated key depends on the distance of their positions only |
| `Attention.RowsAreRelative` | rust/src/laurelia/rope.rs:71-94 | so it is for each head and group of rows rotated at their positions |
| `Attention.GroupOfHead` | rust/src/laurelia/attention.rs:15-24 | a head sees the key-value group in whose block of heads it is |
| `Attention.HeadIsWeighedMean` | rust/src/laurelia/attention.rs:70-107 | for an exponential, the output of a head is the mean of the visible values, weighed by the exponentials of the scaled dot products of their keys with the query |
| `Attention.CausalMask` | rust/src/laurelia/attention.rs:93-107 | the nested loops fill in minus infinity exactly beyond each query's own position |
| `Attention.MaskHidesTheRest` | rust/src/laurelia/attention.rs:70-107 | adding the mask leaves exactly the visible scores |
| `Softmax.MaskedRowIsPlainRow` | rust/src/laurelia/attention.rs:70-91 | the masked softmax over all keys mixes what the plain softmax over the visible keys mixes |
| `Softmax.WeightsAreADistribution` | rust/src/laurelia/attention.rs:70-91 | the weights of a causal row add up to one and are positive exactly at visible positions |
| `Softmax.MaxIsLargest` | rust/src/laurelia/attention.rs:70-91 | what is subtracted from the scores of a row is the largest of them |
| `Softmax.SoftmaxIsPlain` | rust/src/laurelia/attention.rs:70-91 | for an exponential each weight is the exponential of its own score divided by the sum of all |
| `Softmax.LargerScoreWeighsMore` | rust/src/laurelia/attention.rs:70-91 | a larger score has a larger weight, for every increasing positive function |
| `Attention.ForwardIsCausal` | rust/src/laurelia/attention.rs:109-131 | row `i` of the full pass depends on the rows up to `i` only |
| `Attention.ForwardOfPrefix` | rust/src/laurelia/attention.rs:109-131 | the full pass over a prefix is a prefix of the full pass |
| `Attention.OneRowWithCache` | rust/src/laurelia/attention.rs:133-169 | one row over the cache of all rows before it is the last row of the full pass, and the cache then holds it too |
| `Attention.PrefillWithCache` | rust/src/laurelia/attention.rs:133-169 | any number of rows without a cache is the full pass |
| `Attention.ChunkSeesTheFuture` | rust/src/laurelia/attention.rs:164 | a concrete model on which several rows fed onto a cache differ from the full pass |
| `Attention.CacheAgreesIff` | rust/src/laurelia/attention.rs:133-169 | feeding rows with a cache agrees with the full pass for every model exactly for a first chunk or for single rows |
| `Decoder.BlockIsLawful` | rust/src/laurelia/block.rs:48-66 | a residual block is causal and its cache stands for the rows before it |
| `Decoder.ResidualParts` | rust/src/laurelia/block.rs:48-66 | a part of a block that puts out zeros passes its input on, and both parts add their outputs |
| `Decoder.BlockParts` | rust/src/laurelia/block.rs:48-66 | each row of a block is its input with the output of its attention and of its network added, with and without a cache |
| `LayerStack.FullOfPrefix` | rust/src/laurelia/model.rs:77-84 | a stack of any number of such layers is causal |
| `LayerStack.OneRow` | rust/src/laurelia/model.rs:90-105 | one row through the stack over its caches is the last row of the full pass |
| `LayerStack.Prefill` | rust/src/laurelia/model.rs:90-105 | any number of rows over empty caches is the full pass |
| `Decoder.FullPassOfPrefix` | rust/src/laurelia/model.rs:77-84 | earlier logits do not depend on later tokens |
| `Decoder.OneTokenRefinesFullPass` | rust/src/laurelia/model.rs:90-105 | one token fed at the offset of its index gives the last logits of the full pass, for any number of layers and tokens |
| `Decoder.PrefillRefinesFullPass` | rust/src/laurelia/model.rs:90-105 | a prompt fed at once onto empty caches gives the logits of the full pass |
| `Decoder.CacheLengthIsOffset` | rust/src/laurelia/model.rs:90-105 | each layer's cache is as long as the offset at which the next token is fed |
| `Decoder.StepWithCache` | rust/src/laurelia/model.rs:90-105 | the loop overwrites each cache in place and computes the pass over caches |
| `Decoder.FeedPrompt` | rust/src/laurelia/model.rs:234-238 | the prompt fed token by token leaves caches and logits of the full pass |
| `Decoder.Generate` | rust/src/laurelia/model.rs:221-256 | generation over caches gives what generation by repeated full passes gives |
| `Decoder.GeneratedShape` | rust/src/laurelia/model.rs:241-254 | the prompt is kept, at most the asked tokens are added, the end token never, and a shorter result means that it was drawn |
| `Decoder.GeneratedTokens` | rust/src/laurelia/model.rs:241-254 | each token added is the one drawn from the logits of all tokens before it |
| `Decoder.NextLogitsAre` | rust/src/laurelia/model.rs:234-251 | one full pass holds the next logits of every prefix, and before any token they are zeros |
| `Decoder.LayersCompose` | rust/src/laurelia/model.rs:77-84 | a layer added on top acts on what those below put out, between the embedding and the norm and head |
| `Sampling.Penalize` | rust/src/laurelia/model.rs:133-147 | every token that occurred is penalised exactly once |
| `Sampling.PenaltyLowers` | rust/src/laurelia/model.rs:133-147 | a penalty above one moves every logit but zero down and keeps the order of logits |
| `Sampling.TemperatureDivides` | rust/src/laurelia/model.rs:115-147 | the temperature divides every logit before the penalty |
| `Sampling.TopKIsTop` | rust/src/laurelia/model.rs:149-164 | top-k keeps the right number of different tokens, none below one that goes |
| `Sampling.ProbabilitiesOfKept` | rust/src/laurelia/model.rs:166-181 | the softmax is a distribution that is positive exactly on the tokens that stay |
| `Sampling.ProbabilityIs` | rust/src/laurelia/model.rs:166-181 | for an exponential, a probability is the exponential of the adjusted logit divided by the sum over the tokens that stay |
| `Sampling.FindNucleus` | rust/src/laurelia/model.rs:183-193 | the loop finds the shortest prefix with enough mass |
| `Sampling.NucleusIsShortest` | rust/src/laurelia/model.rs:183-193 | the nucleus has the mass asked for unless it is everything, and no shorter one has |
| `Sampling.CandidatesAre` | rust/src/laurelia/model.rs:149-199 | candidates are among the top k, carry all remaining weight, and none is less likely than a token cut off |
| `Sampling.Draw` | rust/src/laurelia/model.rs:201-217 | the token whose slot the random number hits, or the first most likely one beyond all weight |
| `Sampling.Sample` | rust/src/laurelia/model.rs:109-218 | a draw is always a candidate, with the slot of its weight; weight that the nucleus cut off falls to the most likely token |
| `Sampling.LargerLogitLargerSlot` | rust/src/laurelia/model.rs:109-218 | of two candidates the one with the larger adjusted logit has the larger slot |
| `Sampling.FallbackOnlyBeyondNucleus` | rust/src/laurelia/model.rs:210-217 | without a nucleus the fallback is never taken |

## Left out

- Input and output: UDP, threads, channels, logging, bencode bytes, the clock and random bytes; times, packets and random bytes are parameters.
- SHA-1, CRC32C and ed25519: arbitrary functions that are passed in.
- Floating point: sums, estimates, weights and logits are reals, chances are exact quotients with the source's saturating casts; rounding, infinities and not-a-number are not modelled, except that an estimate may be infinite.
- Integer widths that cannot matter: lengths, seq numbers (i64) and vote counts (u16) are unbounded; transaction ids (u32) and the byte counters of a put wrap around as in a release build.
- Rpcs.Rpc.Tick: candidates from the routing table and the size estimates of finished lookups are inputs; the table and the estimate are proved in `RoutingTables` and `SizeEstimate`. It says exactly when the program panics, and the model then goes on where the program stops; the results about longer runs are about those without a panic.
- Rpcs.Rpc.Get: which nodes of the routing table become candidates is an input.
- Rpcs.Rpc.HandleReply: leaves out the lazy cleanup of expired requests, which `Socket.KrpcSocket.RecvFrom` proves invisible, and the responder's entry in the routing table.
- Rpcs.Rpc.HandleRequest: the reply of the server is in `Servers`, and the table entry that a bootstrapping node takes from a request, and the new table after a change of id, are not modelled.
- Rpcs.Rpc.Put: queries, buckets and cache entries are values here, because Rust owns them; aliasing between them cannot occur.
- RoutingTables.RoutingTable.ClosestTo: walks the table with the iterator instead of two nested loops, in the same order.
- Actors.Actor.Tick: records the closest nodes for every caller of a lookup that ended; the source sends them to the callers that want nodes and closes the channels of the others.
- Servers.Server.HandleRequest: the nodes that go into replies are a parameter of the call.
- Messages.MessageRoundTrip: stops at the fields of the dictionaries; their bencode encoding belongs to a library.
- Decoder.Generate: the sampler is an arbitrary function of the logits and the tokens so far; `Sampling` proves what the real one draws. Batches have size one.
- Attention.ForwardWithCache: a cache of the wrong shape, which no pass produces, would be an error of the tensor library and is excluded.
- Sampling.Sample: a temperature or penalty of zero, which makes infinities in floating point, is excluded.
- Statistics.QueryStatistics.AverageSubnets: the standard deviation of the estimate is not modelled.
- Loading weights, the tokenizer, the Flutter application, the simulations, and the wrappers around other libraries.
