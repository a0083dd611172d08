# The QoS sidecar, modelled and proved

The sidecar takes packets from the validator's channels, scores each one by its
source address and signer, keeps the best in a bounded queue, sends them on at a
limited rate, and learns from what the scheduler and the signature check report
back. This project models that program in Dafny and proves what it promises.

- `Recency.dfy` is the simple cache: a list of entries, most recent first, and
  the laws of every run of it. `Lru.dfy` is the cache as written, a doubly
  linked list threaded through an array of slots, proved against that list. Each
  unchecked access of the source is a method that requires an occupied slot.
- `Scores.dfy` says what a score table holds and learns; `Model.dfy`
  performs the tree operations of the model one by one. The root of a tree is a
  field that every change of the tree may set to any member.
- `PriorityQueue.dfy` and `Banking.dfy` are the bounded queue, its draining and
  the rate limit. Heaps are multisets ordered by score alone; ties break anyhow.
- `Tile.dfy` is the whole sidecar as a state machine with one step per message,
  in any order, so that every schedule of the busy loop is covered.
  `TileInvariant.dfy` holds what each step keeps; `TileTheorems.dfy`,
  `TileLedger.dfy`, `TileQueue.dfy` and `TilePackets.dfy` hold what follows over
  whole runs: conservation, rate and recency; stored metadata, counters and
  feedback; what is sent and when; and what each packet is scored, learned and
  punished by. `QosTile.dfy` is the object that the program's loops update; the
  events it has taken are always a run of the state machine, so the laws of runs
  hold of it.
- `SharedStats.dfy` is the handshake on the shared counters as interleaved steps
  of any number of processes. `Fee.dfy`, `PacketHash.dfy` and `Metas.dfy` are
  the fee estimate, the hash preimage and the metadata; `Packets.dfy`,
  `Counters.dfy`, `Basics.dfy` and `Wrappers.dfy` hold the shared types.

Scores and values are reals. Counters are unbounded naturals. Keys are numbers:
an address by its four octets, a 32-byte signer by its big-endian value, which
is the order in which the program's maps list them. The packet hash, the
signature key and the outcome of parsing are inputs about which nothing is
assumed. Capacities and limits are fields of a configuration; `Tile.Deployed`
gives the program's own.

Three points where the source and an obvious expectation differ, each with its
exact condition:

- A packet that fails to parse is fed back under the address read in the other
  byte order. It lowers its own sender's score exactly when the address reads
  the same backwards (`TilePackets.ParseFailureHitsSenderIff`).
- The fee wraps around when the sum exceeds 64 bits although its priority part is
  capped. It is exact if and only if the exact sum fits (`Fee.ExactIffFits`,
  `Fee.WrapsAround`).
- A larger cache stays ahead of a smaller one through every put, pop and contains,
  but a get that only the larger one answers breaks this (`Recency.InclusionStep`).

## Model

| member | source | states |
|---|---|---|
| Recency.ApplyWellFormed | lru/src/lib.rs:91-328 | every operation keeps the keys distinct and within capacity |
| Recency.StaysResident | lru/src/lib.rs:91-228 | from the moment a key is most recent, it stays while it is not popped and fewer than N other keys are touched |
| Recency.LeavesOnlyByPopOrPressure | lru/src/lib.rs:91-328 | in any run, a touched key that is later absent was popped, or N other keys were touched since |
| Recency.HoldsLatestTouched | lru/src/lib.rs:154-228 | without pops the cache lists exactly the N most recently touched distinct keys, in order |
| Recency.PutsTouchEverything | lru/src/lib.rs:154-228 | in a run of puts the touched keys are the put keys, so the cache holds the N most recently put |
| Recency.InclusionStep | lru/src/lib.rs:91-228 | one operation keeps a smaller cache a prefix of a larger one if and only if it is not a get that only the larger answers |
| Recency.Inclusion | lru/src/lib.rs:105-228 | over every run of puts, pops and contains the smaller cache is a prefix of the larger |
| Recency.PutEvictsWhatLeaves | lru/src/lib.rs:154-228 | the evicted pair of a put is exactly the entry that was listed and whose key no longer is |
| Recency.PopReturnsEntry | lru/src/lib.rs:109-147 | a pop removes and returns the entry of the key, the others keep their order |
| Recency.GetReturnsLastPut | lru/src/lib.rs:91-102 | after any run a get answers exactly for resident keys, with the value last put under the key |
| Lru.WalksAgree | lru/src/lib.rs:6-25 | next-links from the head and prev-links from the tail visit the same slots in opposite orders |
| Lru.LRUCache.ContentsWellFormed | lru/src/lib.rs:14-25 | the representation invariant implies distinct keys within capacity |
| Lru.LRUCache.IndexMeansHas | lru/src/lib.rs:92-107 | the index answers exactly for the resident keys and points at their slots |
| Lru.LRUCache.constructor | lru/src/lib.rs:33-49 | a fresh cache is valid and empty, all slots free |
| Lru.LRUCache.Contains | lru/src/lib.rs:105-107 | answers as the simple list, changing nothing |
| Lru.LRUCache.Get | lru/src/lib.rs:91-102 | result and new contents are those of the simple list |
| Lru.LRUCache.Pop | lru/src/lib.rs:109-147 | result and new contents are those of the simple list |
| Lru.LRUCache.Put | lru/src/lib.rs:154-228 | new contents, evicted pair and duplicate flag are those of the simple list |
| Lru.LRUCache.MoveToFront | lru/src/lib.rs:230-298 | moves one entry to the front and keeps the others in order |
| Lru.LRUCache.Evict | lru/src/lib.rs:300-328 | removes and returns the last entry, nothing when empty |
| Lru.LRUCache.InsertFront | lru/src/lib.rs:197-225 | takes a free slot and puts the new entry first |
| Lru.LRUCache.Unlink | lru/src/lib.rs:111-142 | joins the neighbours of a slot, updates the ends and frees the slot |
| Scores.LeastSize | model/src/models/ip_signer.rs:277-285 | as many entrants as there is room for, or all of them |
| Scores.LeastIsSmallest | model/src/models/ip_signer.rs:277-285 | no refused entrant has a smaller key than an admitted one |
| Scores.FrequentKeysAreFew | model/src/models/ip_signer.rs:238-255 | keys with five samples each, counted by position, are at most a fifth of the batch |
| Scores.NoneRefused | model/src/models/ip_signer.rs:277-285 | with room for a fifth of the batch the keys after learning are the residents and every absent key with five samples |
| Scores.AbsentLearns | model/src/models/ip_signer.rs:277-285 | an absent key enters if and only if it has at least five samples and fewer such keys lie below it than there is room; score times count is then the sum of its values |
| Scores.ResidentLearns | model/src/models/ip_signer.rs:257-275 | a resident moves to 0.95 of its score plus 0.05 of its mean with five samples or more, of the root score with four or fewer |
| Scores.UpdateLearns | model/src/models/ip_signer.rs:204-323 | with room to spare, a whole update leaves the residents and the absent keys with five samples, cut to the limit |
| Scores.UpdateMoves | model/src/models/ip_signer.rs:204-323 | the score of every key that a whole update leaves, resident or new |
| Scores.OrderIrrelevant | model/src/models/ip_signer.rs:204-320 | permuting the batch does not change what is learned |
| Scores.HullKept | model/src/models/ip_signer.rs:257-323 | every score after an update lies in the hull of old scores and batch values |
| Scores.EmaContracts | model/src/models/ip_signer.rs:345-350 | one average leaves exactly 95 percent of the gap to the target, so at most that of the distance to any interval holding it |
| Scores.Converges | model/src/models/ip_signer.rs:257-350 | through n updates with targets in an interval the distance to it shrinks by 0.95 to the n |
| Model.InsertKeepsInverse | model/src/models/ip_signer.rs:277-285 | inserting an absent key keeps the inverse exact even when both trees refuse it |
| Model.LoadPaired | model/src/models/ip_signer.rs:70-100 | initial scores with distinct keys load into an exact pair at any capacity |
| Model.LoadPairedIff | model/src/models/ip_signer.rs:70-100 | when all fit, the loaded pair is exact if and only if no key has two different scores |
| Model.ScoreTable.constructor | model/src/models/ip_signer.rs:74-92 | inserts the initial scores into both trees in order |
| Model.ScoreTable.Replace | model/src/models/ip_signer.rs:266-274 | changes one resident score and keeps the inverse exact at every capacity |
| Model.ScoreTable.Feedback | model/src/models/ip_signer.rs:41-54 | scales a known key by 0.01, leaves the table alone for an unknown one, keeps the inverse exact |
| Model.ScoreTable.Add | model/src/models/ip_signer.rs:178-202 | sets the score of a known key, adds an unknown one if there is room, keeps the inverse exact |
| Model.ScoreTable.Prune | model/src/models/ip_signer.rs:149-176 | leaves the limit or fewer entries, unchanged, in both trees |
| Model.GroupTransactions | model/src/models/ip_signer.rs:234-255 | sums and counts of the batch by signer and by address |
| Model.ScoreTable.MoveResidents | model/src/models/ip_signer.rs:257-275 | each resident moves towards its mean or the root score taken before the loop, the inverse exact after each |
| Model.ScoreTable.AdmitEntrants | model/src/models/ip_signer.rs:277-285 | frequent absent keys enter at their means in key order while room remains, the inverse exact after each |
| Model.ScoreTable.Learn | model/src/models/ip_signer.rs:257-285 | both loops together equal the declarative group-by |
| Model.IpSignerModel.IpFeedback | model/src/models/ip_signer.rs:41-54 | feedback on the address table only |
| Model.IpSignerModel.UpdateModel | model/src/models/ip_signer.rs:204-323 | both tables learn the batch and are pruned to their limits, inverses exact |
| PriorityQueue.KeepsBest | minmax/src/lib.rs:17-31 | after any run of pushes from empty the heap keeps the N - 1 best pushed |
| PriorityQueue.SendsBestFresh | qos-core/src/banking.rs:126-144 | an entry that is not recent and not sent exists only if max_send were sent, and outranks none of them |
| PriorityQueue.SendsBestOfAllPushed | qos-core/src/banking.rs:54-144 | no pushed entry that is not recent and was not sent outranks anything sent |
| PriorityQueue.SendsFresh | qos-core/src/banking.rs:126-144 | a drain sends as many entries that are not recent as there are, up to the limit, and loses none of them |
| PriorityQueue.MinMaxHeap.Push | minmax/src/lib.rs:17-31 | adds the value; on reaching capacity removes and returns a minimum |
| PriorityQueue.MinMaxHeap.PopMax | minmax/src/lib.rs:49-54 | removes and returns a maximum, nothing when empty |
| Banking.MaxSendIsTenth | qos-core/src/banking.rs:33-46 | the batch limit is a tenth of the target rate when the product fits, and never more |
| Banking.RateBound | qos-core/src/banking.rs:117-154 | in w milliseconds at most (w / 100 + 1) times a tenth of the target is sent, also counting batches that only overlap the window |
| Banking.TransactionContainer.constructor | qos-core/src/banking.rs:34-46 | an empty queue, the batch limit and the timer |
| Banking.TransactionContainer.Queue | qos-core/src/banking.rs:54-69 | pushes and counts a leak exactly when something was evicted |
| Banking.TransactionContainer.Drain | qos-core/src/banking.rs:126-144 | takes the best entries in descending order, drops recent ones, stops at the limit or at an empty heap |
| Banking.TransactionContainer.MaybeRetrieve | qos-core/src/banking.rs:71-107 | the lazy variant: a caller that takes w entries gets the best w that are not recent, the rest stays queued, and the timer restarts in any case |
| Banking.TransactionContainer.MaybeTransmit | qos-core/src/banking.rs:112-158 | nothing before the interval has passed; otherwise one drain, its counters, and the timer only if something was sent |
| Fee.TotalFee | qos-core/src/lib.rs:154-219 | the first limit and first price among the first eight instructions, and the wrapped fee |
| Fee.PriceRead | qos-core/src/lib.rs:186-195 | the price is the little-endian value, place by place, of the eight bytes after the 3 in the first price instruction among the first eight |
| Fee.LimitRead | qos-core/src/lib.rs:176-185 | the limit is the little-endian value, place by place, of the four bytes after the 2 in the first limit instruction among the first eight |
| Fee.Defaults | qos-core/src/lib.rs:201-212 | without a price instruction the price is 0, without a limit instruction the limit is 200000 |
| Fee.IgnoresLater | qos-core/src/lib.rs:167-168 | instructions after the eighth do not matter |
| Fee.IgnoresOtherPrograms | qos-core/src/lib.rs:170-174 | instructions of other programs do not matter |
| Fee.ProductFits | qos-core/src/lib.rs:209-212 | limit times price stays below 2^96 |
| Fee.ExactIffFits | qos-core/src/lib.rs:201-212 | the fee is exact if and only if the exact sum fits into 64 bits |
| Fee.WrapsAround | qos-core/src/lib.rs:208-212 | the largest price and limit with one signature give a fee of 4999 |
| Fee.MonotoneFee | qos-core/src/lib.rs:201-212 | where it fits, the fee grows with price and limit |
| PacketHash.BuildPreimage | internal-common/src/xxhash.rs:12-83 | every write is in bounds after the size check; the preimage is payload, size, address |
| PacketHash.EncodedBudgetRead | qos-core/src/lib.rs:176-195 | a number written as budget data, 2 and four bytes or 3 and eight, is read back as the limit or price |
| PacketHash.TrailerRoundTrip | internal-common/src/xxhash.rs:73-80 | size and address can be read back from the trailer |
| PacketHash.PreimageInjective | internal-common/src/xxhash.rs:12-49 | equal preimages if and only if equal payload and address |
| Metas.KeysInjective | internal-common/src/partial_meta.rs:25 | no two addresses share a key in either byte order |
| Metas.KeysAgree | qos-core/src/lib.rs:82 | the two byte orders agree exactly on addresses that read the same backwards |
| Metas.CompleteValue | internal-common/src/partial_meta.rs:33-53 | a scheduled transaction is worth ten fees per nanosecond, another its fee per 100 microseconds |
| TileInvariant.TransmitKeeps | qos-core/src/banking.rs:112-158 | a transmission keeps the pacing and moves packets from the heap to the counters, losing none |
| TileInvariant.StepKeeps | qos/src/main.rs:148-213 | every step keeps caches, queue, pacing, batch size, exact inverses and table limits, and the packet balance |
| TileInvariant.FreshModelIsNeutral | model/src/models/ip_signer.rs:125-145 | before anything was learned every address and signer scores one |
| TileInvariant.RunKeeps | qos/src/main.rs:148-213 | the invariant holds in every state of every run |
| TileTheorems.Conservation | qos/src/main.rs:176-197 | over every run with resets, arrived and carried packets are settled or queued |
| TileTheorems.ConservationWithoutReset | qos-core/src/lib.rs:50-145 | without resets, total_packets is the sum of the ten outcome counters and the queue length |
| TileTheorems.RunRate | qos-core/src/banking.rs:117-154 | the rate bound over every run |
| TileTheorems.StaysRecent | qos/src/main.rs:220-231 | a received signature stays recent until as many other keys have arrived as the cache holds |
| TileTheorems.RecentIsLatest | qos/src/main.rs:220-231 | in every state of every run the recent keys are exactly the latest distinct keys that arrived, as many as the cache holds, in order |
| TileTheorems.KeySuppression | qos-core/src/banking.rs:126-144 | while a signature is recent, no step transmits a transaction queued under its key |
| TileTheorems.RunSendsBest | qos-core/src/banking.rs:123-154 | each batch is in descending order, outranks what stays queued and leaves nothing unless it is full |
| TileLedger.PartialLedger | qos-core/src/lib.rs:117-137 | accepted packets are resident, completed or evicted, over every run |
| TileLedger.NeverAcceptedTwice | qos-core/src/lib.rs:117-137 | between two acceptances of one hash it has left the cache |
| TileLedger.LeavesOnlyByResultOrEviction | qos/src/main.rs:249-260 | a hash leaves only by its scheduler result or as the oldest entry of a full cache |
| TileLedger.ResidentIsLastPut | qos-core/src/lib.rs:117-119 | stored metadata is always the one most recently put under its hash, duplicates included |
| TileLedger.CompletesLastPut | qos/src/main.rs:249-260 | a completed entry merges exactly that metadata |
| TileLedger.CountersExact | common/src/shared_stats.rs:45-61 | twelve counters are the number of events of their class, stated on packets, queue and caches; the wire holds what was counted as sent |
| TileLedger.NoInsertRefused | qos/src/main.rs:270-281 | a training step sees exactly 401 entries, and with 80 places to spare no tree insert is refused |
| TileLedger.DefaultsRefuseNothing | qos/src/main.rs:52-59 | with the default limits no insert is ever refused |
| TileLedger.FeedbackScales | qos/src/main.rs:291-315 | between training steps a known address is scaled by exactly 0.01 per feedback under its key, whatever else happens |
| TileLedger.ForwardScales | model/src/models/ip_signer.rs:104-123 | the combined score with any signer, known or not, is scaled by the same factor |
| TileLedger.ScoresBounded | model/src/models/ip_signer.rs:257-323 | over every run all scores stay between zero and the largest completed value |
| TileQueue.RunSends | qos-core/src/banking.rs:112-158 | in every run an accepted packet is pushed; before 100 milliseconds nothing else changes; after that exactly one batch goes out, started then, of as many entries that are not recent as there are or the limit allows, and none when there is none |
| TileQueue.WireGrowsIff | qos-core/src/banking.rs:112-158 | the wire grows in a step if and only if it accepts a packet, the interval has passed, the limit is positive and the queue holds an entry that is not recent |
| TileQueue.OthersSendNothing | qos/src/main.rs:317-358 | a step that accepts no packet leaves queue, wire and timer alone |
| TileQueue.InFlightOrigin | qos-core/src/lib.rs:94-145 | whatever is queued or was sent in any run is the packet of an earlier accepting step, as judged there, under the key of its own first signature |
| TileQueue.Suppression | qos-core/src/banking.rs:126-144 | once a signature has arrived, and while it is recent, no step transmits a transaction whose first signature has its key, queued before or arriving later |
| TilePackets.ValuedIff | qos-core/src/lib.rs:53-115 | a packet is valued if and only if it is IPv4, within 1232 bytes, sanitized, has a static account key, and its first signature is not recent |
| TilePackets.ValuedPacket | qos-core/src/lib.rs:94-152 | a valued packet is keyed by the little-endian octets of its address and its first static account key, costs the exact fee where that fits, and is queued as itself under its first signature |
| TilePackets.TableScores | model/src/models/ip_signer.rs:104-145 | a known key has its own score, an unknown one that of the resident at the root, or one in an empty table |
| TilePackets.PacketScore | qos-core/src/lib.rs:104-115 | in every run a packet scores address score times signer score times fee, over its compute units or 1 |
| TilePackets.HashTellsPackets | internal-common/src/xxhash.rs:12-49 | with a hash without collisions two valued packets share a hash if and only if payload and address agree |
| TilePackets.FeedbackIsPenalty | qos-core/src/lib.rs:80-85 | the events that scale the key of an address are its failed signature checks and failed parses from the address read backwards |
| TilePackets.SenderPenalty | qos/src/main.rs:291-315 | without training between, the score of one packet from a known address is scaled by exactly 0.01 per such event, whatever else happens |
| TilePackets.SigverifyHitsSender | qos/src/main.rs:300-315 | a failed signature check scales packets from its address by 0.01 and those from no other known address |
| TilePackets.ParseFailureHitsSenderIff | qos-core/src/lib.rs:80-85 | a failed parse lowers the score of packets from its own known sender if and only if the address reads the same backwards |
| TilePackets.CompletedFromPacket | qos/src/main.rs:249-268 | a completed entry carries address key, first static account key and fee of the last packet valued under its hash, at ten fees per nanosecond or one per 100 microseconds |
| TilePackets.BatchExact | qos/src/main.rs:249-288 | the batch in hand is what was completed since the last full 401 entries |
| TilePackets.TrainsEvery401 | qos/src/main.rs:270-281 | the model trains if and only if an entry completes while 400 wait |
| TilePackets.TrainsOnLast401 | qos/src/main.rs:270-281 | it trains on exactly the last 401 entries completed |
| TilePackets.AddressTraining | model/src/models/ip_signer.rs:204-323 | in any run, what a training step makes of each address key, with its transactions counted by position, five as threshold and the resident at the root as fallback |
| TilePackets.SignerTraining | model/src/models/ip_signer.rs:204-323 | the same for each signer |
| TilePackets.TrainingSizes | model/src/models/ip_signer.rs:277-323 | with 80 places to spare a training step leaves residents and all absent keys with five samples, cut to the limits |
| QosTile.Launch | qos/src/main.rs:123-138 | the sidecar starts in the initial state |
| QosTile.QosTile.Classify | qos-core/src/lib.rs:53-115 | the verdict on a packet: checks in order, then fee, metadata, score and hash |
| QosTile.QosTile.TryProcessPacket | qos-core/src/lib.rs:33-145 | one packet up to the queue: counter, feedback, stored metadata, result |
| QosTile.QosTile.OnPacket | qos/src/main.rs:331-351 | one packet is exactly one packet step |
| QosTile.QosTile.OnRecentSignature | qos/src/main.rs:225-230 | one received signature is exactly one step |
| QosTile.QosTile.OnSchedulerResult | qos/src/main.rs:249-288 | one scheduler result is exactly one step and reports whether it trained |
| QosTile.QosTile.OnSigverifyFailed | qos/src/main.rs:300-315 | one failed check is exactly one step |
| QosTile.QosTile.OnStatsReset | qos/src/main.rs:184-197 | dropping the counters is exactly one step |
| QosTile.QosTile.ConsumeTransactionPackets | qos/src/main.rs:317-358 | takes the first thousand packets or all, in order, as a run |
| QosTile.QosTile.ConsumeRecentSignatures | qos/src/main.rs:220-231 | takes all received signatures in order |
| QosTile.QosTile.ConsumeRemainingMetas | qos/src/main.rs:233-289 | takes results in order up to and including the first that trains |
| QosTile.QosTile.ConsumeSigverifySignals | qos/src/main.rs:291-298 | takes all failed checks in order |
| SharedStats.StepKeeps | common/src/shared_stats.rs:13-41 | every step of any process keeps exclusion, roles and the freshness of the counters |
| SharedStats.MutualExclusion | common/src/shared_stats.rs:74-100 | no two processes are inside critical sections together |
| SharedStats.ReadIsFresh | common/src/shared_stats.rs:22-28 | a read is never torn and counts nothing from before the last reset |
| SharedStats.ReadAfterReset | common/src/shared_stats.rs:13-28 | no read after a reset counts packets processed before it |
| SharedStats.LocalExact | qos/src/main.rs:185-197 | the tile counts exactly the packets since it last emptied its counters |
| SharedStats.ReadReturnsPublished | common/src/shared_stats.rs:22-40 | a read returns exactly the last published counters, or none after a later reset |
| SharedStats.ResetNeverLost | common/src/shared_stats.rs:30-40 | the first update after a reset reads the request |
| SharedStats.RequestBehindFlag | common/src/shared_stats.rs:30-40 | the tile never serves a request twice: a raised flag was raised since it was last cleared |
| SharedStats.EmptiesBeforeProcessing | qos/src/main.rs:190-195 | having read it, the tile empties its counters before the next packet |

## Left out

- Channels, shared memory, heartbeats, page sizes, privileges, logging, command line and signal handling: channels are input sequences, and the endless loop is any sequence of steps.
- Parsing and sanitizing of transactions, XXH3 and the folding of signatures into keys: their results are inputs.
- Floating-point rounding and NaN: scores are reals.
- 64-bit wrap-around of the counters: they are unbounded naturals.
- The hardware timer: clock readings are inputs that never go back.
- Weak memory: the handshake is proved under sequential consistency, while the source takes its lock with release ordering.
- Shape and balance of the red-black trees and of the heap: only their map, set and multiset behaviour is used, and a full tree refuses a new key.
- Model.ScoreTable.Prune: which entries go is left open, because the root is wherever the tree library keeps it.
- Banking.TransactionContainer.MaybeTransmit: the panic without a transmitter is not modelled, since the program always has one.
- `new_boxed`: allocation in place; the resulting cache is that of `new`.
- `save_ip_scores` and the other model, `ip_signer_stake.rs`: file output, and a copy of the paired tables with one more ratio.
- `mpsc`, the transaction engine, the demos, the packet analysis and the terminal display: traffic generation and display around the sidecar.
