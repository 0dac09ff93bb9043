# Replicated key-value store: model and proofs

A Dafny model of a small multi-master key-value store, and proofs about whole runs of it. Every node has a
hybrid logical clock, a last-write-wins map with tombstones and, in causal mode, a buffer that holds incoming
writes until their read dependencies are present. Writes are fanned out asynchronously (eventual and causal
mode) or must be acknowledged by a majority before the origin stores them (strong mode).

## Layout

| file | contents |
|---|---|
| `Results.dfy` | error and option types |
| `Hlc.dfy` | hybrid logical clock: order, `Send`, `Receive`, the clock object |
| `KvStore.dfy` | the map with tombstones: versions, merging, the store object |
| `CausalBuffer.dfy` | readiness, sweeps, drains; the buffer object with in-place compaction |
| `BufferTheory.dfy` | last-write-wins folds are maxima; sweeps and drains lose and double nothing |
| `Confluence.dfy`, `ArrivalOrder.dfy` | what the buffer applies is a least fixpoint, whatever the order of arrival; when contents depend on that order |
| `Replication.dfy` | wire encoding, handlers, quorum |
| `NodeModel.dfy`, `Server.dfy` | a node as a value, and the node object that carries out those steps |
| `Cluster.dfy`, `ClusterViews.dfy` | the asynchronous cluster as a transition system, and a run as one node sees it |
| `Provenance.dfy`, `NodeInvariants.dfy` | where stored and held writes come from; versions that never fall |
| `Convergence.dfy` | nothing stays held, versions converge |
| `KeyConvergence.dfy` | after stale writes: exactly when a key converges, and what is held for good |
| `HeldWrites.dfy` | exactly what a causal node holds at rest |
| `Contents.dfy` | exactly when contents agree |
| `ClockTheory.dfy`, `OneWriter.dfy` | what clocks guarantee about writes; clusters with one writer |
| `ClockBounds.dfy` | how large counters and wall times can get |
| `CausalClosure.dfy`, `CausalChains.dfy`, `DependencyLog.dfy` | what causal mode guarantees to readers |
| `StrongMode.dfy` | majority durability |
| `Refinement.dfy` | the node object's contracts are steps of the two transition systems |
| `Checker.dfy` | the agreement checker |
| `Counterexamples.dfy` | runs in which a guarantee fails because its condition does |

`dafny verify dfyconfig.toml` checks everything.

## How runs are modelled

A run of the asynchronous cluster is an arbitrary sequence of actions: a client's put, delete or get at any
node, the delivery of any request that is in flight, or its loss. An action that is not enabled changes
nothing, so a statement about all sequences is a statement about all runs. A client request is one atomic step.
Wall-clock readings are inputs of the actions and need not increase. A request in flight is represented by the
write that its receiver decodes; `NodeModel.RequestsCarryTheWrite` shows that this is what the handlers send, and
`Refinement.dfy` that the methods of the node object do what the actions say.

Two phrases recur. A run is *at rest* when nothing is in flight after it; where a theorem is about a run at rest, no
request was lost during it either. A node *keeps versions* during a run when each client write it takes is at or after
the version that the node then has of the key.

The code leaves some intended-looking guarantees conditional. The conditions are these.

* *Writes that keep versions.* When a received timestamp has the clock's own wall time and a larger counter,
  `Receive` only increments its own counter, so the clock stays behind the message (a *tie*). A local write made in
  that state can get a timestamp before the version that the node has of the key, and takes that version back. Nodes
  that meet no tie, and nodes that take no client writes, keep versions; `ClockTheory.FreshExactly` says, as an
  equivalence, when a single write does in terms of the clock before it. Where a theorem asks a node to keep versions
  it asks nothing of the other nodes, and what it says can fail otherwise
  (`Counterexamples.TieBreaksConvergence`, `Counterexamples.StaleWriteOpensClosure`). What exactly is needed is said,
  as equivalences, by `NodeInvariants.VersionsNeverFallExactly` for versions that never fall, by
  `KeyConvergence.KeyConvergesExactly` and `NodeConvergesExactly` for the latest versions at rest, by
  `HeldWrites.HeldExactly` for the writes that are held at rest, and by `CausalClosure.ClosedExactly` for causal
  closure.
* *Equal timestamps and empty values.* Timestamps carry no node id, so two nodes can stamp one key equally, and an
  empty value travels as a deletion. Versions converge all the same. Nodes at the latest versions have equal contents
  exactly when the latest writes to each key leave one value (`Contents.ContentsConvergeExactly`), where an empty
  value counts as different at every node that did not put it (`Contents.ContentsAgreeExactly`); what later writes
  replace does no harm.
  `Counterexamples.EqualTimestampsKeepContentsApart` and `Counterexamples.EmptyValueKeepsContentsApart` are runs
  that end apart.
* *No loss.* Errors of asynchronous calls are dropped and nothing is sent again. A clock overflow loses a request
  too, but only after 2^31 - 1 clock events at one wall time (`ClockBounds.OverflowIsFarAway`).
* *Start at the epoch.* A missing key counts as timestamp (0, 0) in the dependency check, so readiness is
  monotone exactly for writes that are not before the epoch or whose key is present
  (`BufferTheory.ReadinessIsMonotoneExactly`). Only the first reading of each clock matters for this.
  `Counterexamples.EarlyChainIsInverted` shows what happens to a chain that is stamped before the epoch.

Where the code and a comment disagree the model follows the code: the comment at
internal/replication/replication.go:36 says that a handler is called after the local write, and strong mode calls
it before.

## Model

| member | source | states |
|---|---|---|
| Hlc.CompareIsTotalOrder | internal/hlc/hlc.go:17-38 | `Compare` and the predicates built on it form a total order in which equal means identical |
| Hlc.SendCharacterised | internal/hlc/hlc.go:62-80 | `Send` fails, with an overflow, exactly at a full counter that the wall clock has not passed; otherwise it returns the least timestamp after the clock at or past the reading |
| Hlc.ReceiveCharacterised | internal/hlc/hlc.go:82-110 | which error, and exactly when, ends `Receive`; a success passes the clock, passes the message exactly when there is no tie, and goes no further |
| Hlc.ClockNeverGoesBack | internal/hlc/hlc.go:62-110 | over any sequence of calls the clock never decreases, and a successful call strictly increases it |
| Hlc.ReturnedTimestampsIncrease | internal/hlc/hlc.go:62-110 | timestamps returned by one clock strictly increase in call order, errors in between or not |
| Hlc.Max64 | internal/hlc/hlc.go:112-120 | the loop returns an element at or above all others |
| Hlc.Clock.New | internal/hlc/hlc.go:46-49 | a new clock stands at its first reading with counter 0 |
| Hlc.Clock.Now | internal/hlc/hlc.go:55-59 | reports the clock without moving it |
| Hlc.Clock.Send | internal/hlc/hlc.go:62-80 | the object moves to what it returns, stays put on an error, and its counter never leaves 0..2^31-1 |
| Hlc.Clock.Receive | internal/hlc/hlc.go:82-110 | the same for `Receive`, including the rejection of negative counters |
| KvStore.Store.Put | internal/store/store.go:30-34 | replaces the key unconditionally and touches no other |
| KvStore.Store.Apply | internal/store/store.go:38-49 | merges by last write wins; the flag is true exactly when the key was absent or its version strictly rose |
| KvStore.Store.Get | internal/store/store.go:51-59 | finds a key exactly when it is present and not a tombstone |
| KvStore.Store.GetVersion | internal/store/store.go:63-71 | reports tombstones too, and the zero timestamp for a missing key |
| KvStore.Store.Delete | internal/store/store.go:73-77 | leaves a bare tombstone unconditionally |
| KvStore.Store.ApplyDelete | internal/store/store.go:79-91 | merges a tombstone by last write wins, with the same meaning of the flag |
| BufferTheory.FoldIsMaximum | internal/store/store.go:38-49 | after any sequence of replicated writes each key is at the maximum of its start and the writes to it, and holds the value of a write at that maximum |
| BufferTheory.SameWritesSameVersions | internal/store/store.go:38-49 | the version map depends on the set of writes only, not on order or repetition |
| BufferTheory.SameWritesSameContents | internal/store/store.go:38-91 | contents do too, tombstones included, when the latest writes to each key leave one value |
| BufferTheory.ContentsDependOnSetExactly | internal/store/store.go:38-91 | contents depend on the set of writes alone if and only if, for each key, the latest writes that pass the start leave one value |
| BufferTheory.ReadinessIsMonotoneExactly | internal/buffer/buffer.go:40-51 | applying a write keeps every satisfied dependency list satisfied if and only if its key is present or its timestamp is not negative |
| CausalBuffer.Buffer.New | internal/buffer/buffer.go:21-23 | a new buffer holds nothing |
| CausalBuffer.Buffer.Len | internal/buffer/buffer.go:81-85 | counts the held writes |
| CausalBuffer.Buffer.CheckDeps | internal/buffer/buffer.go:40-51 | true exactly when every dependency is at or below the store's version, a missing key counting as zero |
| CausalBuffer.Buffer.ApplyLocked | internal/buffer/buffer.go:53-59 | deletions merge as tombstones, other writes as they are |
| CausalBuffer.Buffer.Keep | internal/buffer/buffer.go:64-71 | writing a kept entry into the shared array changes no entry still to be read |
| CausalBuffer.Buffer.SweepInPlace | internal/buffer/buffer.go:63-73 | one pass over the shared array equals a pass over an untouched copy: the entries not ready at their turn stay, in order |
| CausalBuffer.Buffer.DrainLocked | internal/buffer/buffer.go:61-78 | passes repeat until one applies nothing, and this terminates |
| CausalBuffer.Buffer.Receive | internal/buffer/buffer.go:27-38 | a ready write is applied and the held ones drained, any other is appended; the result says which |
| BufferTheory.SweepAccounts | internal/buffer/buffer.go:63-76 | a pass keeps or applies each entry once, each applied one was ready at its turn, and a pass without progress proves that none is ready |
| BufferTheory.SweepInOrder | internal/buffer/buffer.go:63-73 | a pass takes the entries in order, applies exactly those that are ready at their turn and keeps the others in order |
| BufferTheory.DrainAccounts | internal/buffer/buffer.go:61-78 | a drain keeps or applies each entry once and leaves none that is ready |
| BufferTheory.DrainIsPasses | internal/buffer/buffer.go:61-78 | a drain is a sequence of passes, each over what the one before left, that ends with the first one that applies nothing |
| BufferTheory.ReceiveAccounts | internal/buffer/buffer.go:27-38 | one arrival loses and doubles nothing, and is applied at once exactly when ready |
| BufferTheory.ReceiveInOrder | internal/buffer/buffer.go:31-34 | a ready arrival is applied before the passes over what was held |
| Confluence.ArrivalsConserved | internal/buffer/buffer.go:27-78 | over any run the arrivals are the held writes plus those handed to the store, each once, duplicates and refused ones included, and none held is ready |
| Confluence.AppliedIsLeastFixpoint | internal/buffer/buffer.go:27-78 | the applied writes are the least set of arrivals closed under "dependencies met" |
| Confluence.HeldDetermined | internal/buffer/buffer.go:27-78 | every copy of a write is applied or every copy is held |
| Confluence.OrderOfArrivalIsIrrelevant | internal/buffer/buffer.go:27-78 | all orders of arrival end with the same versions, held writes and applied writes, and with the same contents when the latest of the applied writes to each key leave one value |
| ArrivalOrder.ContentsIgnoreOrderExactly | internal/buffer/buffer.go:27-78 | contents are the same in every order of arrival if and only if, for each key, the latest writes that would be applied even without their competitors leave one value |
| Replication.BuildReplicateRequest | internal/replication/replication.go:135-154 | the loop encodes every dependency in order |
| Replication.FromProtoDeps | internal/server/node.go:176-191 | the loop computes the decoding of which the next three rows say what it keeps and what it drops |
| Replication.IncompleteEntriesVanish | internal/server/node.go:179-181 | an entry that is missing or lacks its timestamp has no effect, wherever it stands |
| Replication.CompleteEntriesRemain | internal/server/node.go:178-190 | nothing is dropped or altered if and only if every entry is complete |
| Replication.DepsRoundTrip | internal/replication/replication.go:144-152 | decoding encoded dependencies gives them back |
| Replication.WireRoundTrip | internal/server/node.go:142-152 | decoding an encoded write gives the same key, timestamp, data and dependencies, and the same write exactly when "deleted" equals "no data" |
| Replication.OnWrite | internal/replication/replication.go:50-133 | one request per peer with dependencies only in causal mode; a strong write fails exactly when it is short of its quorum |
| Replication.CountIsCardinality | internal/replication/replication.go:123-128 | the acknowledgement loop counts the peers that acknowledged |
| Replication.QuorumIsMajority | internal/replication/replication.go:162-164 | with the constructor's quorum a write succeeds if and only if the origin and the acknowledging peers are more than half of all nodes |
| NodeModel.RequestsCarryTheWrite | internal/replication/replication.go:50-112 | what a mode's handler sends decodes, at every peer, to the stamped write as it looks on the wire |
| Server.ReadTracker.Record | internal/server/node.go:25-29 | appends the read |
| Server.ReadTracker.SnapshotAndClear | internal/server/node.go:31-37 | hands out all recorded reads and forgets them |
| Server.Node.New | internal/server/node.go:51-63 | a tracker exists in causal mode only |
| Server.Node.Put | internal/server/node.go:65-92 | a success stores the value given, unaltered and undeleted, under the next timestamp of the clock with all recorded reads, touches no other key and sends the same to every peer; a clock that refuses changes nothing; a strong write short of its quorum is not stored |
| Server.Node.Delete | internal/server/node.go:111-135 | a success leaves a bare tombstone under the next timestamp of the clock and sends a request without data to every peer; it fails as a put does |
| Server.Node.Get | internal/server/node.go:94-109 | answers with the value and timestamp of a key that is present and not deleted, and not found otherwise; in causal mode what was found is recorded, and nothing else changes |
| Server.Node.Replicate | internal/server/node.go:137-166 | a missing timestamp or a refusing clock changes nothing; otherwise the request's value, or a tombstone if it is empty, is buffered, or replaces the key if it was absent or older, and the answer says whether it did |
| Provenance.RunsAreProvenanced | internal/server/node.go:65-166 | in every run all that is stored, held, applied, recorded or in flight comes from issued writes, and the dependencies of a write are versions of earlier writes |
| ClusterViews.LogIsTheRequests | internal/server/node.go:65-135 | in every run and mode each issued write is what a client asked the node for, in the order of the requests: a put's key and data unaltered, or a deletion of the key without data |
| NodeInvariants.NodeStaysCurrent | internal/server/node.go:65-166 | a node that keeps versions is at or above everything it applied or read |
| NodeInvariants.VersionsNeverFallExactly | internal/store/store.go:30-49 | between no two moments of a run does a node lose a key or lower its version, if and only if none of its own writes is before its key's version |
| NodeInvariants.HeldWritesWait | internal/buffer/buffer.go:27-38 | at a node that keeps versions, although local writes wake nothing, every held write always lacks a dependency that the node has never merged and that no own write could have supplied before the held one was issued |
| Convergence.NoWriteDisappears | internal/replication/replication.go:72-83 | without loss each write of another node is in flight, held or merged |
| Convergence.NothingIsStuck | internal/buffer/buffer.go:27-78 | at rest a node that keeps versions holds no write and has applied all writes |
| HeldWrites.HeldExactly | internal/buffer/buffer.go:27-78 | stale writes allowed: counted from any moment after which a node takes no client writes, it holds at rest exactly the writes due then that cannot be released in turn, or all of them if no write that was ready then was still to arrive |
| HeldWrites.NothingHeldExactly | internal/buffer/buffer.go:27-78 | so it holds nothing at rest if and only if a drain was still to start and release everything that was due, or nothing was due |
| Convergence.NodeConverges | internal/server/node.go:65-166 | at rest a node that keeps versions has exactly the keys ever written, each at the greatest timestamp issued for it, whatever the ties at other nodes |
| Convergence.ClusterConverges | internal/server/node.go:65-166 | at rest, when all nodes keep versions, any two have the same version map, in eventual and causal mode |
| KeyConvergence.KeyConvergesExactly | internal/server/node.go:65-166 | stale writes allowed: from any moment after which a node does not write a key itself, it is at the key's latest version at rest if and only if it then holds nothing later for the key and, for each write issued before that moment, its version then or a write still to reach it was as late |
| KeyConvergence.NodeConvergesExactly | internal/server/node.go:65-166 | the same for all keys at once, from any moment after which the node takes no client writes |
| KeyConvergence.UnwrittenKeyConverges | internal/server/node.go:137-166 | at rest a node is at the latest version of a key that it never writes if and only if it holds nothing later for the key |
| KeyConvergence.LoweredKeyStaysBehind | internal/server/node.go:66-92 | when a stale write takes a version back and nothing as late still reaches the node, it is behind on the key at every later moment of every run |
| KeyConvergence.HeldForGood | internal/buffer/buffer.go:40-78 | a held write whose dependency the node is short of, when nothing as late still reaches the node and it does not write that key, stays held at every later moment of every run |
| Contents.IssuersKeepTheirWrites | internal/server/node.go:65-135 | in every run, ties and losses included, a node stores each write it issued, unaltered, or a later version of the key |
| Contents.OthersValuesArePlain | internal/server/node.go:147-152 | in every run a stored value that is empty but not deleted is one of the node's own writes |
| Contents.KeyAgreesExactly | internal/server/node.go:65-166 | in any state of any run, whatever was put: nodes that are all at a key's latest version agree on it if and only if its latest writes look alike and, if they are empty, every node issued one itself; to an observer who sees versions, nodes agree if and only if they are at the latest version and this holds |
| Contents.ContentsAgreeExactly | internal/server/node.go:65-166 | in any state of any run all nodes have equal contents if and only if, for each key, all are at its latest version, its latest writes are alike and, if they are empty, every node issued one itself |
| Contents.ContentsConvergeExactly | internal/server/node.go:65-166 | in any state in which no latest write is an empty put, all nodes have equal contents if and only if they are at the latest versions and the latest writes to each key leave one value |
| Contents.ContentsConverge | internal/server/node.go:65-166 | at rest, when all nodes keep versions, timestamps identify the writes of a key and no empty value was put, all nodes have equal contents |
| ClockTheory.ClockWallIsAhead | internal/hlc/hlc.go:66-77 | in every run, ties included, a node's clock has at least the wall time of all it stores, holds or applied |
| ClockTheory.VersionWallNeverDecreases | internal/store/store.go:30-49 | in every run, from any moment on, no key is ever removed and the wall time of its version never falls |
| ClockTheory.WriteMovesVersionExactly | internal/server/node.go:66-92 | in every run a client write raises its key's version if and only if the clock is not tied with that version, and lowers it if and only if the clock is more than one tick behind it |
| ClockTheory.FreshExactly | internal/server/node.go:66-92 | in every run, read off the clock before the write: a client write is after everything stored or held if and only if the clock is tied with none of it, and keeps its key's version if and only if that version is within one tick |
| ClockTheory.TieFreeClockDominates | internal/hlc/hlc.go:82-110 | a node that meets no tie has its clock at or after all it stores, holds or applied, so its writes come after all it received |
| ClockTheory.UntiedNodeKeepsVersions | internal/server/node.go:65-92 | the writes of a node keep their keys' versions when it meets no tie or takes no client writes |
| ClockTheory.CalmNodeConverges | internal/server/node.go:65-166 | a node holds nothing and is at the latest versions at rest, under conditions on its ties, the length of the run and network loss alone |
| OneWriter.OneWriterKeepsVersions | internal/server/node.go:65-92 | with a single writer no write takes a version back and timestamps identify writes, whatever the clocks do |
| OneWriter.ReplicasMatchTheWriter | internal/server/node.go:65-166 | with a single writer and no empty values, at rest every node holds nothing and answers every read as the writer does |
| OneWriter.PeersStorePlainValues | internal/server/node.go:147-152 | at a node without client writes a stored value is deleted if and only if it has no data |
| OneWriter.ReplicasMatchExactly | internal/server/node.go:147-152 | with a single writer contents agree at rest if and only if the writer is left with no empty value that it did not delete |
| ClockBounds.CountersArePaidFor | internal/hlc/hlc.go:69-107 | in every reachable state a clock or write at (l, c) implies clock events that returned (l, 1), ..., (l, c) |
| ClockBounds.OverflowIsFarAway | internal/hlc/hlc.go:70-101 | a clock refuses only after 2^31 - 1 events at one wall time |
| ClockBounds.ShortRunsAreLossless | internal/replication/replication.go:77-79 | a run of at most 2^31 - 1 actions loses a request only if the network does |
| ClockBounds.WallsComeFromReadings | internal/hlc/hlc.go:66-107 | no clock and no timestamp exceeds the largest wall reading any node has taken |
| CausalClosure.ClosedExactly | internal/buffer/buffer.go:31-51 | each write that a node has applied has all its direct dependencies met there at every moment of a run if and only if each own write is at or after every version of its key that an applied write or the write's own reads ask for |
| CausalClosure.AppliedWritesAreClosed | internal/buffer/buffer.go:31-51 | in particular at a node that keeps versions |
| CausalChains.ChainIsRecorded | internal/server/node.go:75-77 | a write that follows a read of another key carries that version as a dependency |
| CausalChains.CausesArePresent | internal/buffer/buffer.go:31-51 | in every run, ties and losses included, a node has every key that it read or that a write it applied depends on |
| CausalChains.ChainsAreNeverSeenInverted | internal/experiments/experiments.go:131-152 | after put A, get A, put B at one node, any replica that shows B at one moment shows A's value at that and every later moment, for every schedule, all losses and all clocks; A must not be stamped at or before the epoch |
| CausalChains.EpochStartSuffices | internal/hlc/hlc.go:46-80 | clocks created at or after the epoch stamp every write after it |
| DependencyLog.RecordedStep | internal/server/node.go:25-37 | a write takes exactly the recorded reads and leaves none, a successful read adds exactly itself, and nothing else changes them |
| DependencyLog.ReadsAreConserved | internal/server/node.go:75-102 | in every run the dependency lists of a node's writes followed by its recorded reads are all its successful reads, in order |
| StrongMode.EveryRunIsSafe | internal/replication/replication.go:94-133 | stamps stay ordered, acknowledgements are true, and completed writes are at a majority, after every lost call, lost answer and late arrival |
| StrongMode.EachSuccessIsStoredByMajority | internal/server/node.go:79-83 | when a write succeeds at least total/2 + 1 nodes store its value |
| StrongMode.VersionIsValue | internal/store/store.go:38-49 | a node is exactly at a stamped write's version if and only if it stores its value, and at or above it if and only if it stores its value or a later version |
| StrongMode.EveryMajoritySeesCompletedWrites | internal/replication/replication.go:86-133 | in all later states every majority contains a node that stores the value of a completed write or a later version of its key |
| StrongMode.VersionsNeverFall | internal/store/store.go:38-49 | late calls of failed writes lower no version anywhere |
| StrongMode.OriginStoresCompletedWrites | internal/server/node.go:79-83 | the origin's contents are the completed writes in order, and nothing of the failed ones |
| StrongMode.LogIsAsked | internal/server/node.go:65-135 | in every run each stamped write has the key, data and deletion flag of a request |
| StrongMode.OriginStoresWhatWasAsked | internal/server/node.go:79-83 | what the origin stores under a key is the data of a request to put it, or a tombstone that a request asked for |
| Refinement.WriteRefinesStep | internal/server/node.go:65-135 | a put or delete of the node object in eventual or causal mode is the cluster's step; each request it sends decodes to what is put in flight to that peer |
| Refinement.ReplicateRefinesStep | internal/server/node.go:137-166 | serving a request is the delivery of the write it decodes to, and an error is its loss |
| Refinement.StrongWriteRefinesCall | internal/server/node.go:79-83 | a strong write of the object is a start, any traffic, and a finish; the requests it sends decode to the calls that the start puts in flight, and it succeeds exactly when the write counts as completed |
| Refinement.StrongReplicateRefinesServe | internal/server/node.go:137-166 | serving a request in strong mode is the delivery of a call, which the origin counts exactly when it hears a success for the pending write |
| Checker.BytesEqual | internal/checker/checker.go:105-115 | the index loop decides equality |
| Checker.CheckKeys | internal/checker/checker.go:43-82 | the report has one row for each key and node, in order; comparing each answer with the first successful one decides, per key and overall, whether the nodes agree |
| Checker.SeenIsTheAnswer | internal/checker/checker.go:54-63 | a row shows the node's address and what it answered, and a failed read as nothing found |
| Checker.AgreeInFull | internal/checker/checker.go:66-77 | agreement means that no read failed and any two answers have the same flag and bytes |
| Checker.CheckerAgreesExactly | internal/checker/checker.go:43-82 | when all nodes are at a key's latest version, in any state of any run, their answers for it agree if and only if its latest writes show the same and, if they are empty, every node issued one itself |
| Counterexamples.TieBreaksConvergence | internal/hlc/hlc.go:93-98 | a loss-free causal run with one tie that ends with different versions and a write held for good |
| Counterexamples.StaleWriteOpensClosure | internal/server/node.go:85 | a loss-free causal run with one tie after which a node has applied a write whose dependency it has taken back |
| Counterexamples.EqualTimestampsKeepContentsApart | internal/store/store.go:43 | a loss-free run after which two nodes keep different values under one timestamp |
| Counterexamples.EmptyValueKeepsContentsApart | internal/server/node.go:151 | a loss-free run of two actions after which a key is found empty at one node and deleted at the other |
| Counterexamples.EventualModeInvertsChains | internal/replication/replication.go:50-61 | in eventual mode a replica can show the second write of a chain without the first |
| Counterexamples.EarlyChainIsInverted | internal/buffer/buffer.go:42-45 | in causal mode a replica can show the second write of a chain without the first when the first is stamped before the epoch |

## Left out

- gRPC transport, protobuf code, dialing, flags, signals and profiling: only message contents and delivery are modelled.
- Real time: artificial delays, convergence deadlines and polling become arbitrary delivery order.
- Locks and goroutines inside one request: each locked method and each client request is one atomic step, and the strong fan-out is an arbitrary outcome for each peer. Two overlapping requests at one node are not modelled.
- Overlapping strong writes from several origins: the store's unconditional write after the quorum can replace a newer version, so no guarantee is claimed for them.
- Transitive causality and per-client session guarantees: the code does not provide them.
- CausalBuffer.Buffer.AppendHeld: the growth policy of a slice that is full is fixed to doubling; nothing depends on it.
- Replication.OnWrite: a peer list is represented by its length, because the handlers treat all peers alike.
- `CheckKeys` takes the nodes' answers as inputs, so each may date from another moment; `WaitForConvergence` and report formatting are left out.
- Benchmarks, workload generation, statistics and shell scripts.
