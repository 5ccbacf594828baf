# Coordination of a threshold-signing committee

This project models how the nodes of a threshold-signing committee coordinate, and proves properties of that
model with Dafny 4.11. The cryptography lives in outside libraries and is not modelled; what the repository
itself decides is who leads, who signs, in which order the parties are listed, and how messages and
configuration get where they belong.

Run `dafny verify dfyconfig.toml` to check everything.

## How it is laid out

| files | content |
|---|---|
| `Options.dfy`, `Transitions.dfy` | missing values; runs of a transition system |
| `Sorting.dfy`, `Text.dfy` | facts about sorting, permutations, splitting and decimal printing |
| `Ranking.dfy` | the per-session hash order, the static leader, exclusion and intersection of peer lists |
| `BullyElector.dfy` | one node's bully elector as a class |
| `BullyProtocol.dfy`, `BullyConvergence.dfy`, `BullyStorm.dfy` | all electors of a session as a transition system: invariant, convergence, work bounds |
| `Signing.dfy`, `Coordinator.dfy` | the signing process and the two loops of a round |
| `Round.dfy`, `RoundCompletion.dfy` | the first round across all nodes: agreement, and that it can complete |
| `Resharing.dfy` | party lists with shared, mutated index fields, and the checks on start parameters |
| `EnvTree.dfy`, `EnvLoader.dfy` | the configuration tree, as values and as nested maps extended in place |
| `SubscriptionId.dfy`, `Subscriptions.dfy`, `Streams.dfy`, `Framing.dfy` | subscription ids, the subscription and stream managers, newline framing |

## How to read the model

- A peer is its printable (base58) name, so comparing raw ids and comparing printed ids are the same thing. The
  first eight bytes of a Keccak-256 digest are an arbitrary function of the hashed string; "distinct ranks" says
  that no two of the peers at hand collide in the session. `sort.Sort` is used only through what it promises: a
  permutation without inversions. Go's order on raw ids (`slices.Sort`) is any linear order.
- Bully election: the peers outside `live` are dead from the start, live nodes start in any order, a message to a
  node that is not running is lost or arrives after it has started, all others are delivered in any order.
  Timers are steps that may happen whenever a node waits. Every single send is a step of its own. Subscribing
  and starting an elector are one step.
- First round: the network is the set of everything sent, so messages may be late, repeated, reordered or lost.
- Panics appear as a result: an index past the end in `sortParties`, a missing `=` in `loadENVToJsonStructure`.
- Party ids are strings of single non-zero bytes, which base58 names are. Reading a printed id back is a function
  that may refuse a string; of ids printed from peers it is only used that it gives the peer back.
- A write to a stream is answered by an outcome: everything was taken, or the write failed after some characters.

## Where the code and its own description differ

- The filter for Alive messages (`tss_util/comm/elector/bully.go:92-93`) is described as accepting higher peers but
  compares the other way round. As the code stands no Alive message is ever accepted and every election ends with
  the node naming itself; with the described comparison an election can bow out exactly at the live peers that
  have a live peer above them (`WhoCanBowOut`). Convergence and the bounds are proved for both readings.
- `Ready` of a signing compares the number of ready holders with `==`. It behaves like `>=` for every stream of
  ready messages exactly when the threshold is positive, or the host holds no share, or no other holder is usable
  (`EqualityIsAtLeast`); otherwise `OvershotStart` gives the stream after which it never starts.
- `sortParties` stays inside its array exactly when nobody joins, or the old peers are different members of the
  peerstore (`FitsIffNested`). The checks on start parameters guarantee that at a node that holds a key
  (`AcceptedBuilds`); a node without a key checks the thresholds only, and accepts subsets that make the index run
  past the array: `KeylessOverrun` says exactly which, and `KeylessOverrunExample` is the smallest one.
- A subscription of a session whose id contains a dash can never be unsubscribed, and all its subscriptions of a
  type share one slot (`UnsubscribeUndoes`, `DashedSessionsCollide`). Signing sessions are of this kind: they are
  named `sid-sign-` followed by a hash (`service/event_handlers/sign_handler.go:86-88`), which has two dashes.
- A Select from a peer that is not in the sorted list replaces the coordinator unless that is the top peer
  (`UnlistedSelect`).

## Model

| member | source | states |
|---|---|---|
| Sorting.SortCanonical | tss_util/tss/util/util.go:21 | without ties every sorted arrangement of a list is the same one, whatever order the list came in, so an unstable sort is as good as a stable one |
| Sorting.SortInPlace | tss_util/tss/util/util.go:21 | the guarantee of the library sort: a permutation with no inversion |
| Sorting.Swap | tss_util/tss/util/sort.go:25-27 | exchanges two elements in place and nothing else |
| Ranking.SortPeersForSession | tss_util/tss/util/util.go:12-23 | the result holds exactly the given peers tagged with the session, no later one outranks an earlier one, and with distinct digests it is the session order |
| Ranking.GetPeerIDs | tss_util/tss/util/sort.go:36-42 | the ids of the sorted slice in its order |
| Ranking.IsParticipant | tss_util/tss/util/util.go:25-33 | true exactly for listed peers |
| Ranking.Coordinator | tss_util/comm/elector/static.go:21-27 | the static leader is a listed peer of maximal digest, the head of the session order, and no peer for an empty list |
| Ranking.ExcludePeers | tss_util/tss/ecdsa/common/utils.go:58-68 | keeps exactly the peers that are not excluded, in order and with multiplicity |
| Ranking.PeersIntersection | tss_util/tss/ecdsa/common/utils.go:70-80 | keeps exactly the old peers that are also new, in order and with multiplicity |
| Ranking.RankingIndependent | tss_util/tss/util/util.go:12-23 | nodes that hold the same peers in different list orders compute the same ranking and the same leader |
| Ranking.SessionOrderUniqueIff | tss_util/tss/util/sort.go:29-34 | the ranking is independent of the sorting algorithm if and only if no two peers collide |
| Ranking.ExclusionCommutesWithRanking | tss_util/tss/coordinator.go:215-223 | ranking after an exclusion equals excluding from the ranking |
| Ranking.RetryLeader | tss_util/tss/coordinator.go:215-223 | the top peer after an exclusion is the first peer of the static order that is not excluded, and none if all are |
| BullyElector.ScanIndexIsPosition | tss_util/comm/elector/bully.go:148-159 | the index the comparison loop finds is the peer's position, and 0 for a peer that is not listed |
| BullyElector.HigherIsPositionOrder | tss_util/comm/elector/bully.go:148-159 | on members of a duplicate-free list the comparison is the strict order of positions |
| BullyElector.HigherStrictOrder | tss_util/comm/elector/bully.go:148-159 | of two different members one is higher, and no member is higher than itself |
| BullyElector.UnlistedSelect | tss_util/comm/elector/bully.go:161-168 | an unlisted peer is taken as coordinator exactly when the current one is listed and not the top peer |
| BullyElector.Elector.constructor | tss_util/comm/elector/bully.go:34-51 | a new elector names its own host |
| BullyElector.Elector.RankPeers | tss_util/comm/elector/bully.go:62 | the list the elector works with is the session order of the given peers |
| BullyElector.Elector.IsPeerIDHigher | tss_util/comm/elector/bully.go:148-159 | the scanning loop computes the comparison of positions |
| BullyElector.Elector.SetCoordinator | tss_util/comm/elector/bully.go:161-168 | the coordinator changes exactly for a higher peer or the host itself |
| BullyElector.Elector.ChallengeHigher | tss_util/comm/elector/bully.go:119-124 | sends one Election to each higher peer, in list order, and to nobody else |
| BullyElector.Elector.Elect | tss_util/comm/elector/bully.go:119-134 | challenges every higher peer; on a timeout names the host and announces it to all others, otherwise uses up the pending Alive |
| BullyElector.Elector.Receive | tss_util/comm/elector/bully.go:136-146 | a challenge from a peer that is not higher is answered with Alive and an election; a Select may change the coordinator; anything else changes nothing |
| BullyElector.Elector.ListenAlive | tss_util/comm/elector/bully.go:91-101 | the pending slot fills exactly when the filter lets the sender pass |
| BullyProtocol.InvStep | tss_util/comm/elector/bully.go:85-168 | every step of every node keeps the invariant on coordinators, phases, pending slots and messages in flight |
| BullyProtocol.CoordinatorIsSelfOrLiveAbove | tss_util/comm/elector/bully.go:161-168 | in every reachable state a node's coordinator is itself or a live peer ranked above it |
| BullyProtocol.CoordinatorOnlyMovesUp | tss_util/comm/elector/bully.go:136-168 | over any stretch of a run in which a node does not elect itself, its coordinator only moves up |
| BullyProtocol.NobodyBowsOutAsWritten | tss_util/comm/elector/bully.go:91-101 | with the filter as written no reachable state lets an election bow out |
| BullyProtocol.WhoCanBowOut | tss_util/comm/elector/bully.go:91-101 | some reachable state lets an election bow out at a node if and only if the filter compares as its comment describes, the node is live and a live peer ranks above it |
| BullyProtocol.UninterruptedElection | tss_util/comm/elector/bully.go:119-134 | the small steps of a node that is left alone send what the election method sends, in the same order, and end as it does, by claiming the lead or by bowing out |
| BullyProtocol.UninterruptedTurn | tss_util/comm/elector/bully.go:136-146 | delivering an Election or a Select to an idle node, with the steps of the election it may cause, is one turn of the receive loop |
| BullyConvergence.ConvergingStep | tss_util/comm/elector/bully.go:119-168 | every step keeps: a started node follows the highest live peer and is idle, or an announcement to it is still owed |
| BullyConvergence.QuiescentMeansAgreed | tss_util/comm/elector/bully.go:119-168 | when all live nodes have started and nothing is in flight or running, every live node's coordinator is the highest live peer |
| BullyConvergence.NeverStuck | tss_util/comm/elector/bully.go:85-146 | in every reachable state that is not quiescent some step is possible |
| BullyConvergence.ElectionElectsTheHighest | tss_util/comm/elector/bully.go:55-74 | every run that cannot be continued is quiescent, and unless everybody is dead there is a highest live peer and every live node has it as coordinator |
| BullyConvergence.RetryElectsFirstUsablePeer | tss_util/tss/coordinator.go:215-223 | the election of a retry ends with the first peer of the static order that is neither excluded nor dead |
| BullyStorm.PayStep | tss_util/comm/elector/bully.go:119-146 | whatever the prices of runs, Election messages and steps, no step spends more than it takes off the weight of nodes and messages |
| BullyStorm.PayRun | tss_util/comm/elector/bully.go:119-146 | along a whole run, what was spent plus what is left never exceeds the initial weight |
| BullyStorm.CountsFollowTheRun | tss_util/comm/elector/bully.go:119-146 | the counts that are bounded are what they say: one more step counts exactly when it makes the peer at that rank begin an election, or puts an Election message on the net |
| BullyStorm.StormBound | tss_util/comm/elector/bully.go:119-146 | of n peers the one at rank r runs at most 2^(n-1-r) elections, all together at most 2^n - 1, with at most 2^n - n - 1 Election messages |
| BullyStorm.WeightFalls | tss_util/comm/elector/bully.go:119-146 | every step from a reachable state strictly lowers the weight |
| BullyStorm.EveryElectionTerminates | tss_util/comm/elector/bully.go:119-146 | no run of n peers is longer than (3n+1)(2^n - 1) - n steps |
| Signing.Signing.constructor | tss_util/tss/ecdsa/signing/signing.go:59-72 | a new signing process starts with the peers of its key |
| Signing.Signing.ReadyParticipants | tss_util/tss/ecdsa/signing/signing.go:215-227 | keeps exactly the ready peers that hold a share |
| Signing.Signing.Ready | tss_util/tss/ecdsa/signing/signing.go:147-150 | true exactly when threshold + 1 of the ready peers hold a share |
| Signing.Signing.StartParams | tss_util/tss/ecdsa/signing/signing.go:160-176 | announces ready holders only, as many as the committee has, and with distinct digests the committee itself |
| Signing.Signing.FirstPeers | tss_util/tss/ecdsa/signing/signing.go:166-172 | the selection loop keeps the first threshold + 1 peers, or all when there are fewer |
| Signing.Signing.Run | tss_util/tss/ecdsa/signing/signing.go:77-96 | a node enters exactly when it is in the announced subset, which becomes its peer list; otherwise it reports itself in a subset error and keeps its list |
| Signing.CommitteeIsTopRanked | tss_util/tss/ecdsa/signing/signing.go:157-176 | the committee is the min(threshold+1, k) highest-ranked of the k ready holders, in session order; a negative threshold takes all k |
| Signing.CommitteeIgnoresListOrder | tss_util/tss/ecdsa/signing/signing.go:157-176 | it depends neither on the order in which peers became ready nor on the order of the key's list |
| Signing.StartTakesEveryReadyHolder | tss_util/tss/coordinator.go:256-264 | at the moment of starting every ready holder is in the committee, in particular a coordinator that holds a share |
| Coordinator.Initiate | tss_util/tss/coordinator.go:236-290 | the collecting loop starts, fails or keeps collecting exactly as the readiness test decides on the peers collected so far |
| Coordinator.ReadyPeersShape | tss_util/tss/coordinator.go:237-255 | the collected list stays duplicate-free with the host first and holds exactly the senders that are not excluded |
| Coordinator.CollectedIsAddAll | tss_util/tss/coordinator.go:249-262 | a collection starts at the first message after which the test holds |
| Coordinator.EqualityIsAtLeast | tss_util/tss/ecdsa/signing/signing.go:147-150 | comparing with == starts like >= on every stream exactly when the threshold is positive, the host holds no share, or every other holder is excluded |
| Coordinator.OvershotStart | tss_util/tss/ecdsa/signing/signing.go:147-150 | with threshold 0, a holding host and a first message from another usable holder the round never starts |
| Coordinator.SigningStartsOnTime | tss_util/tss/coordinator.go:249-264 | a signing starts at the very message with which the holder count first reaches threshold + 1 |
| Coordinator.SigningWaitsOnlyForHolders | tss_util/tss/coordinator.go:249-264 | a signing that has not started has not collected threshold + 1 holders |
| Coordinator.KeygenStartsWithEveryone | tss_util/tss/ecdsa/keygen/keygen.go:117-123 | a started key generation has collected the whole peerstore if and only if all collected peers belong to it; with exclusions it fails at the first message |
| Coordinator.StartsOnceEveryoneIsReady | tss_util/tss/ecdsa/resharing/resharing.go:145-148 | with messages from the peerstore a resharing, or a key generation without exclusions, never fails and starts at the very message with which the last missing peer becomes ready |
| Coordinator.OnlyKeygenFails | tss_util/tss/ecdsa/keygen/keygen.go:117-123 | collecting fails exactly for a key generation with exclusions that gets a message |
| Coordinator.WaitForStart | tss_util/tss/coordinator.go:294-363 | the waiting loop passes over initiate messages and the start messages of strangers and ends with the first other event: the coordinator's error on the timer, nothing on cancellation, a decoding error or entry on a start; before that every initiate message of the coordinator, or of anyone when there is none, got one ready message, and nobody else did |
| Coordinator.AnsweredInOrder | tss_util/tss/coordinator.go:314-328 | ready messages follow the order of the initiate messages |
| Round.OneLeader | tss_util/tss/coordinator.go:99-100 | every node computes the same static coordinator, which holds a share |
| Round.InvStep | tss_util/tss/coordinator.go:205-363 | every step of every node keeps the round's invariant |
| Round.CommitteeAgreement | tss_util/tss/coordinator.go:205-363 | all nodes that enter Run have the same committee of exactly threshold + 1 distinct holders, the coordinator among them, every other member having sent it a ready message |
| Round.OnlyTheLeaderCollects | tss_util/tss/coordinator.go:205-211 | only the static coordinator collects ready messages |
| Round.OnlyTheLeaderStarts | tss_util/tss/coordinator.go:264-276 | every start message comes from the static coordinator and carries the committee it entered with |
| Round.EveryoneIsInvited | tss_util/tss/coordinator.go:226-247 | on beginning and on every tick the leader has an initiate message out to every peer it knows |
| Round.StrangersAreIgnored | tss_util/tss/coordinator.go:314-337 | what anybody but its coordinator sends to a waiting node changes nothing |
| Round.LeavingIsFinal | tss_util/tss/coordinator.go:351-363 | a node that gives up in a round takes no further part in it, and one that has entered keeps its committee |
| RoundCompletion.RoundCanComplete | tss_util/tss/coordinator.go:236-363 | any threshold holders the leader can reach complete the round with it in some run |
| Resharing.PartyKeyInjective | tss_util/tss/ecdsa/common/utils.go:14-17 | different printable ids have different party keys |
| Resharing.PartyOrderIsByLengthThenBytes | tss_util/tss/ecdsa/common/utils.go:14-17 | the key order of printable ids is the order by length and then by the first byte that differs |
| Resharing.PartiesFromPeers | tss_util/tss/ecdsa/common/utils.go:33-41 | fresh parties in key order, each carrying its position |
| Resharing.PeersFromParties | tss_util/tss/ecdsa/common/utils.go:19-31 | the decoded ids of the parties in order, or an error exactly when one of them cannot be decoded; for printed ids the ids themselves |
| Resharing.PlaceJoining | tss_util/tss/ecdsa/resharing/resharing.go:240-247 | the placing loop puts the joining parties behind the old ones, tells each its position, leaves the index of old parties alone, and runs past the array exactly when they do not fit |
| Resharing.SortParties | tss_util/tss/ecdsa/resharing/resharing.go:234-249 | stays in bounds exactly when the joining parties fit; slot by slot the list holds the old objects, then the joining ones, then nothing, and when they fill it each joining one carries its own index |
| Resharing.ReshareParties | tss_util/tss/ecdsa/resharing/resharing.go:93-97 | for a duplicate-free subset of the peerstore the list covers all parties in resharing order with every index equal to its position |
| Resharing.FitsIffNested | tss_util/tss/ecdsa/resharing/resharing.go:234-249 | for a duplicate-free new list and any old list the index stays in bounds exactly when nobody joins or the old peers are different members of the new list |
| Resharing.ResharingOrderPermutes | tss_util/tss/ecdsa/resharing/resharing.go:232-249 | the party list is a permutation of the new peers with the sorted old ones as its prefix, and the joining ones behind them are in key order too |
| Resharing.ResharingOrderIndependent | tss_util/tss/ecdsa/resharing/resharing.go:93-97 | it does not depend on the order of either peer list |
| Resharing.ValidateStartParams | tss_util/tss/ecdsa/resharing/resharing.go:192-209 | accepts exactly when the threshold is positive and covered by the subset and the node has no key or the subset equals its key peers in the peerstore as a multiset; sorts both lists in place only after the threshold checks |
| Resharing.VerdictExactly | tss_util/tss/ecdsa/resharing/resharing.go:192-209 | each verdict in terms of the peers: accepted by a node with a key is exactly a subset that holds each key peer of the peerstore as often as the key does, and nobody else |
| Resharing.AcceptedNamesExactly | tss_util/tss/ecdsa/resharing/resharing.go:202-206 | with a duplicate-free key, leaving out a key peer of the peerstore is as invalid as naming a stranger or a peer twice |
| Resharing.StartParams | tss_util/tss/ecdsa/resharing/resharing.go:167-175 | announces the threshold of the key and the key peers in the peerstore |
| Resharing.HonestLeaderAccepted | tss_util/tss/ecdsa/resharing/resharing.go:167-209 | a node with the same key peers and peerstore in any order, or without a key, judges an honest leader by the thresholds alone |
| Resharing.AcceptedBuilds | tss_util/tss/ecdsa/resharing/resharing.go:93-97 | whatever a node with a key accepts names different members of its peerstore, so the party list built from it stays in bounds |
| Resharing.KeylessOverrun | tss_util/tss/ecdsa/resharing/resharing.go:93-97 | a node without a key accepts parameters that overrun the party list exactly when the thresholds fit, somebody joins, and the subset repeats a peer or names an unknown one |
| Resharing.KeylessOverrunExample | tss_util/tss/ecdsa/resharing/resharing.go:234-249 | one unknown peer in the subset is enough for the overrun |
| Resharing.ValidCoordinators | tss_util/tss/ecdsa/resharing/resharing.go:152-164 | the nested loops keep exactly the peerstore peers that hold a share |
| Resharing.OneReshareLeader | tss_util/tss/ecdsa/resharing/resharing.go:152-164 | nodes with the same key peers and peerstore as sets agree on who leads a resharing |
| EnvTree.FindAfterMount | tss_util/tss_config/env.go:64-77 | a mount changes exactly the values at and below its path, and nothing when a leaf is in the way |
| EnvTree.BlockedByLeaf | tss_util/tss_config/env.go:69-72 | a mount is given up exactly when a proper prefix of its path is a leaf |
| EnvTree.TreeHoldsWinners | tss_util/tss_config/env.go:52-77 | the leaves are exactly the variables whose path has no proper prefix among the paths, each with its own value, and no inner map is empty |
| EnvTree.SameLeavesSameTree | tss_util/tss_config/env.go:64-77 | a tree without empty inner maps is determined by its leaves |
| EnvTree.MountOrderIrrelevant | tss_util/tss_config/env.go:52-77 | mounting distinct paths gives the same tree in every order |
| EnvLoader.MapNode.MountMap | tss_util/tss_config/env.go:64-77 | the in-place recursion over shared-nothing nested maps does to the contents what the tree function says |
| EnvLoader.LoadEnv | tss_util/tss_config/env.go:52-62 | the loader gets through exactly when every relevant entry has an equals sign, and then holds the tree of all variables |
| EnvLoader.LoadsExactly | tss_util/tss_config/env.go:55-58 | the loader panics exactly on an entry that mentions SYG and has no equals sign |
| EnvLoader.EntryVariable | tss_util/tss_config/env.go:56-58 | an entry is cut at its first equals sign: the name split at underscores is the path, everything behind it the value |
| EnvLoader.LoadedValues | tss_util/tss_config/env.go:52-62 | the loaded tree has a value at the path of a name if and only if the environment sets the name to it and sets no name that spells a proper prefix of the path |
| EnvLoader.OthersAreIgnored | tss_util/tss_config/env.go:55 | an entry in which SYG does not occur contributes nothing |
| Text.SplitOfJoin | tss_util/tss_config/env.go:57 | splitting at a separator undoes joining parts that do not contain it |
| Text.JoinOfSplit | tss_util/tss_config/env.go:57 | every string is its split parts joined, none of which contains the separator |
| EnvLoader.DistinctNamesDistinctPaths | tss_util/tss_config/env.go:56-58 | different variable names split into different paths |
| EnvLoader.LoadOrderIrrelevant | tss_util/tss_config/env.go:52-62 | the loaded structure does not depend on the order in which the environment lists its variables |
| SubscriptionId.UnwrapPrinted | tss_util/comm/subID.go:18-62 | unwrapping a printed id returns its three parts when the session has no dash and the type is defined, and an error otherwise |
| SubscriptionId.UnwrapOfParts | tss_util/comm/subID.go:46-62 | three dash-free parts joined by dashes are taken apart exactly when the middle one reads as an 8-bit number up to 13 |
| SubscriptionId.OnlyPartsUnwrap | tss_util/comm/subID.go:46-50 | no other string is taken apart |
| SubscriptionId.ParseDecimal | tss_util/comm/subID.go:52-55 | a printed type is read back when it fits 8 signed bits |
| SubscriptionId.ParseSigned | tss_util/comm/subID.go:52-55 | a number with a sign in front is read with its sign, from -128 to 127 |
| SubscriptionId.SameIdentifierIff | tss_util/comm/subID.go:19 | two clock readings give the same identifier if and only if their last 32 bits agree |
| SubscriptionId.PrintedIdsDiffer | tss_util/comm/subID.go:18-20 | two printed ids are equal if and only if session, type and the last 32 bits of the clock are, for all sessions, with dashes or without |
| SubscriptionId.PrintedForm | tss_util/comm/subID.go:18-20 | the printed form written out |
| Subscriptions.SessionSubscriptionManager.SubscribeTo | tss_util/comm/p2p/subscription.go:44-65 | adds one entry to the flat table and returns the printed id |
| Subscriptions.SessionSubscriptionManager.UnSubscribeFrom | tss_util/comm/p2p/subscription.go:67-84 | removes exactly the entry the id stands for, if any |
| Subscriptions.SessionSubscriptionManager.GetSubscribers | tss_util/comm/p2p/subscription.go:27-42 | returns each subscribed channel of the type as often as it is subscribed, and nothing else |
| Subscriptions.KeyForExactly | tss_util/comm/p2p/subscription.go:62-63 | a subscription is stored under its session, its type and the last 32 bits of its clock reading, or under an empty identifier when its id cannot be read back |
| Subscriptions.SubscriptionsCoexist | tss_util/comm/p2p/subscription.go:44-84 | subscriptions of a dash-free session at clock readings that differ in their last 32 bits sit side by side, and unsubscribing one leaves the other |
| Subscriptions.UnsubscribeUndoes | tss_util/comm/p2p/subscription.go:44-84 | with a fresh identifier, unsubscribing restores the table if and only if the session has no dash and the type is defined |
| Subscriptions.DashedSessionsCollide | tss_util/comm/p2p/subscription.go:62-75 | a later subscription of a session with a dash replaces the earlier one of its type and cannot be cancelled |
| Subscriptions.TableHoldsTheLive | tss_util/comm/p2p/subscription.go:27-84 | after any history the table holds exactly the subscriptions that were neither cancelled nor replaced |
| Streams.StreamManager.AddStream | tss_util/comm/p2p/manager.go:52-67 | stores any stream in a free slot and leaves a taken slot alone; a table of open streams in one slot each stays one when the stream is open and new |
| Streams.StreamManager.Fetch | tss_util/comm/p2p/manager.go:70-80 | returns the stored stream or none; in a table of open streams it is open |
| Streams.StreamManager.ReleaseStreams | tss_util/comm/p2p/manager.go:32-49 | closes every stream once for each slot of the session it sits in, forgets the session, and touches no other; streams in one slot each are closed once and what stays is open |
| Streams.LifeCycle | tss_util/comm/p2p/manager.go:32-80 | over any history with fresh streams a slot holds a stream exactly from being stored to the release of its session, which closes it once and is the only thing that does |
| Streams.FetchedIsOpen | tss_util/comm/p2p/manager.go:70-80 | no fetch returns a closed stream |
| Streams.FirstStreamStays | tss_util/comm/p2p/manager.go:52-67 | the first stream stored for a session and peer stays until that session is released |
| Framing.StreamWriter.WriteStream | tss_util/comm/p2p/util.go:28-39 | sends what was buffered, then the message and a newline, or a part of it with an error; a writer that has failed sends nothing more |
| Framing.SendMessage | tss_util/comm/p2p/libp2p.go:192-196 | a message goes out as a line, or as the part of it the stream took before it failed |
| Framing.StreamReader.ReadString | tss_util/comm/p2p/util.go:14 | reads through the next newline, or consumes everything when there is none |
| Framing.StreamReader.ReadStream | tss_util/comm/p2p/util.go:13-25 | returns the next complete line without its newline, or an error when none is left |
| Framing.ReadMessages | tss_util/comm/p2p/libp2p.go:137-144 | reading until the end returns all complete lines in order |
| Framing.RoundTrip | tss_util/comm/p2p/util.go:13-39 | what is read back equals the messages that were sent, empty ones included, if and only if none contains a newline and each was taken to its end |
| Framing.SendAndReceive | tss_util/comm/p2p/libp2p.go:137-200 | sending messages one after another over a fresh stream and reading them back gives them unchanged under the same condition |

## Left out

- The threshold-signature libraries, key material and everything behind `Party.Start`: foreign code.
- Network hosts, DNS, opening of streams, JSON, HTTP routes, logging, metrics and file stores: plumbing. From the transport only two facts are used, that the sender of a message is its true sender and that a broadcast skips the sender.
- Real time: tickers and timeouts are steps or events that may happen at any moment.
- Locks: the methods of the two managers and the coordinator field are taken as atomic, which their mutexes provide.
- The elector's ping messages, which nothing sends, and the Leave message, which is ignored.
- The rounds after a failed first one, beyond the election that precedes them: after a subset error a node accepts a start message from anyone.
- `Execute`, its pending-process table and error handling: the pending check is made outside the lock.
- The FROST processes: their readiness and start parameters follow the same rules as those of ECDSA signing.
- Validation of the merged relayer and domain configuration: flat checks around a foreign library.
- Resharing.PartiesFromPeers: sorting created parties is modelled as creating them from sorted ids, so the identity of a party object before the sort is not visible.
- Sorting.SortInPlace: stands for the library sort on all lengths through its contract; the body is the loop the library uses on short slices.
