# Redic in Dafny

A model of Redic, a Redis-like server in C, and proofs about it. Redic keeps its data in one
actor (the *septic tank*), which resolves each command into a fact (a SET, DEL or EXPIRE
mutation), applies it, replies, and feeds it to an append-only log written in the background
(the *potty*). On startup the log is replayed.

The main results, each for every input, every run or every reachable state:

- **Crash recovery** (`Server.dfy`): whatever the interleaving of clients, tank, pump, drain
  threads, crashes and restarts, the file holds a prefix of what was applied since the last start
  after what it held then, and replaying it gives a store no client can tell from the live one.
  `ServerHistory.dfy` places the file among everything ever applied.
- **Lazy expiry refines eager expiry** (`EagerExpiry.dfy`), and the live and the replayed
  store stay related (`Recovery.dfy`) although evictions are never logged.
- **Linearizability** of the request/response protocol (`Actor.dfy`), and that **every call returns**
  (`ActorProgress.dfy`, `ServerProgress.dfy`); **conservation** and the
  **flusher handshake** of the log pipeline (`LogPipeline.dfy`) and that nothing fed is ever
  **stranded** (`LogProgress.dfy`), **exactly-once FIFO without lost wakeups** for one channel with
  its mutex and condition variables (`Sewer.dfy`).
- **The hash table** (`HashTable.dfy`, `TableGrowth.dfy`, `TableRuns.dfy`, `HashMap.dfy`): rehash
  preserves meaning; the table is a map exactly as long as no put meets a hole before its key.
- **The tank on that table** (`TableTank.dfy`, `TankRuns.dfy`, `SepticTank.dfy`, `ServerOnTable.dfy`):
  for every run, exactly when it is the abstract tank all the other results speak of, conditions
  a caller can check that make it so, and runs that show what happens otherwise
  (`Resurfacing.dfy`).
- **Codecs**: log records in bytes, round trip and torn tail at every byte (`Aof.dfy`); RESP in
  bytes (`RespLayout.dfy`) and its round trip if and only if no simple string holds CR or LF
  (`Resp.dfy`).
- **SET from a client's words to the stored deadline** (`Args.dfy`, `SetCommand.dfy`,
  `SetRequest.dfy`): which argument lists are accepted and what the tank is then asked for.
- **Counters, deadlines, command promises, allocator, growable array** (`Counters.dfy`,
  `Deadlines.dfy`, `Promises.dfy`, `Arena.dfy`, `Hector.dfy`, `JobQueue.dfy`).

Sequential code that updates things in place is modelled by classes and loops
(`SepticTank.dfy`, `AofIo.dfy`, `HashMap.dfy`, `Ring.dfy`, `RespIo.dfy`, `ArgsIo.dfy`, `Arena.dfy`,
`Hector.dfy`), each proved against a specification function whose properties are the lemmas
below. Concurrent code is modelled as step systems whose runs are all interleavings.

Assumptions carried by the model: clock readings never go backwards (the program reads
CLOCK_REALTIME); memory allocation succeeds, except that a table beyond a given limit is refused;
hosts are little-endian; the hash is an arbitrary function, and growth of the table ends because at
some doubled size the keys have distinct home slots. EXPIRE reads the clock twice; it acts at the
first reading and judges "already past" at the second. A SET deadline of -1 means no deadline,
because the log uses that value for it.

Where the code falls short of a natural claim the exact limit is proved: TTL sees expired
entries (`TtlAgreesExactlyWhen`); the table is not a map after some removals
(`RunOneSlotExactlyWhen`, `RemoveExact`, `ResurfacingTank`), and a restart can make it fail where the
live server did not (`HarmlessLiveHarmfulReplayed`); taking a job off the queue can read beyond its
array as soon as two jobs are queued (`JobQueueSafeExactlyWhen`, `PipelineLeavesBlock`); simple
strings with line breaks do not survive (`RoundTripExactlyWhen`); and after a crash that loses
mutations the log is not a prefix of everything ever applied (`FileAmongEverything`, `LossyRun`).

Check the project with `dafny verify dfyconfig.toml`.

## Model

| member | source | states |
|---|---|---|
| `EagerExpiry.LazyRefinesEager` | src/septic_tank/septic_tank.c:37-95 | for every run with a nondecreasing clock, from stores that look alike: the lazily evicting tank gives the replies (TTL aside) and mutations of a reference store that deletes each entry the moment it expires and never tests for expiry, and ends in a store no client can tell from the reference, then or later |
| `EagerExpiry.StepRefines` | src/septic_tank/septic_tank_set.c:18-89 | the same for one operation of any kind, and the reference store it leaves holds nothing expired |
| `EagerExpiry.ResolveSeesView` | src/septic_tank/septic_tank_operation.h:187-192 | resolving never changes what can be observed; reply and mutation depend only on the unexpired entries; an EXPIRE mutation names a visible key |
| `EagerExpiry.ApplyRespectsView` | src/septic_tank/septic_tank_apply.c:9-33 | applying a resolved mutation to two stores that look alike leaves stores that look alike, although one may hold dead entries the other does not |
| `EagerExpiry.TtlAgreesExactlyWhen` | src/septic_tank/septic_tank_ttl.c:13-31 | TTL gives the reference answer if and only if the key is not an unevicted expired entry (or its age happens to be reported as -2) |
| `EagerExpiry.TtlTellsApart` | src/septic_tank/septic_tank_ttl.c:16-29 | two stores no other command can tell apart get different TTL answers |
| `Promises.GetPromise` | src/septic_tank/septic_tank_get.c:10-37 | GET returns the value of a key present and unexpired, nothing otherwise, and changes nothing observable |
| `Promises.ExistsPromise` | src/septic_tank/septic_tank_exists.c:12-27 | EXISTS counts exactly the visible key and changes nothing observable |
| `Promises.DelPromise` | src/septic_tank/septic_tank_del.c:12-37 | DEL counts and logs exactly a visible key; afterwards the key is gone and no other key changed |
| `Promises.SetPromise` | src/septic_tank/septic_tank_set.c:18-107 | SET is refused exactly when NX sees the key or XX does not; GET reports the value seen before; a refused SET is invisible; an accepted one leaves the value and the deadline the expiration asks for, and no other key changes |
| `Promises.ExpirePromise` | src/septic_tank/septic_tank_expire.c:13-78 | EXPIRE applies exactly to a visible key whose NX/XX/GT/LT condition permits it; a deadline already past at the second clock reading deletes the key and logs a DEL, any other leaves the value with the new deadline |
| `Promises.IncrByRejectsText` | src/septic_tank/septic_tank_incrby.c:25-41 | INCRBY answers "not an integer" exactly for a visible value that is not a decimal int64, and then changes nothing |
| `Promises.OthersUntouched` | src/septic_tank/septic_tank.c:40-79 | no operation changes the entry of any key but its own |
| `Promises.SeenBeforeDeadline` | src/data.c:65-71 | a key is visible exactly while it is present and the clock is before its deadline; at the deadline itself it is gone |
| `Promises.TtlPromise` | src/septic_tank/septic_tank_ttl.c:16-29 | TTL answers -2 for a missing key, -1 without a deadline, otherwise deadline and clock each cut to whole seconds and subtracted, and changes nothing |
| `Counters.RunKeepsNoSentinel` | src/septic_tank/septic_tank_set.c:80-94 | with a nonnegative clock, no entry reachable by any run holds deadline -1 |
| `Deadlines.ServerHoldsNoSentinel` | src/septic_tank/septic_tank_expire.c:45-56 | with a nonnegative clock, no entry the server holds in any reachable state, before or after any number of restarts, has deadline -1 |
| `Deadlines.DeadlineCarried` | src/septic_tank/septic_tank_set.c:64-70 | in every reachable state of the server, KEEPTTL and INCRBY leave a live key with exactly the deadline it had |
| `Deadlines.DeadlineCarriedThroughLog` | src/septic_tank/septic_tank_incrby.c:54-70 | the record they log, encoded, followed by any bytes, read back and applied to any store, sets exactly that deadline |
| `Counters.SetDeadlineStored` | src/septic_tank/septic_tank_set.c:54-94 | an accepted SET stores the requested timestamp exactly if and only if it is not -1 |
| `Counters.OverflowTestExact` | src/septic_tank/septic_tank_incrby.c:43-48 | the overflow test fires exactly when the mathematical sum leaves int64 |
| `Counters.IncrementExact` | src/septic_tank/septic_tank_incrby.c:34-70 | one increment of a live counter: exact sum stored and returned, same deadline, no other key changed; or, exactly when the sum leaves int64, an error and no change at all |
| `Counters.CounterExact` | src/septic_tank/septic_tank_incrby.c:16-72 | over every sequence of increments of a key that stays alive: each reply is the exact partial sum, or "overflow" exactly where that sum leaves int64; the stored text reads back as the exact sum of the deltas that fit; deadline and other keys untouched |
| `Counters.FreshCounter` | src/septic_tank/septic_tank_incrby.c:18-23 | a missing or expired key counts from zero and gets no deadline |
| `Numbers.ParsePrint` | src/data.c:19-28 | parse_int64 of the printed text of any int64 is that int64 |
| `Numbers.ParseInt64Exactly` | src/aids.c:181-201 | parse_int64 accepts exactly the texts of at most 20 bytes made of white space, an optional sign and digits to the end that denote an int64, and returns the number denoted |
| `Numbers.ScanPrinted` | src/resp/parser.c:148-153 | the number scanner started at a printed number that a non-digit follows returns its sign, magnitude and end |
| `Aof.RecordLayout` | src/potty/potty_serializer.h:14-26 | the documented layout in bytes: the tag 0, 1 or 2, each integer as its eight bytes written out, lowest first and negative ones in two's complement, length-prefixed strings, in the documented order; the reader makes of each field the integer written |
| `Aof.NoExpiryBytes` | src/potty/potty_serializer.c:67-68 | the deadline field of a SET record is eight bytes 255 exactly for the deadline -1 |
| `Aof.EncodingSize` | src/potty/potty_serializer.c:8-46 | each encoding is as long as get_mutation_size says |
| `Aof.ReadEncoded` | src/potty/potty_parser.c:55-105 | any file that starts with the encoding of a mutation reads as that mutation and stops at its end |
| `Aof.ReadCut` | src/potty/potty_parser.c:6-42 | a record cut before its tag is EOF; cut anywhere else, UNEXPECTED_EOF |
| `Aof.RoundTrip` | src/potty/potty_serializer.c:83-121 | reading the concatenated encodings of any list of mutations returns that list, then EOF |
| `Aof.TornTail` | src/potty/potty_parser.c:6-105 | for every list and every byte cut, the reader returns exactly the records wholly before the cut, then EOF on a record boundary and UNEXPECTED_EOF otherwise |
| `Aof.WholeIsLargest` | src/potty/potty_parser.c:55-105 | the number of records returned for a cut is the largest whose encodings fit before it |
| `Aof.CleanFileIsEncoding` | src/potty/potty_trainer.c:36-48 | a prefix of a log that reads to a clean EOF is exactly the encoding of the records read |
| `AofIo.AppendFile.SerializeMutation` | src/potty/potty_serializer.c:48-121 | appends the encoding of the mutation, field by field |
| `AofIo.AppendFile.PerformFlush` | src/potty/potty_flusher.c:19-23 | appends the encodings of a batch in batch order |
| `AofIo.PottyParser.FreadString` | src/potty/potty_parser.c:28-42 | reads a length-prefixed string at the position, or reports a short read, as specified, moving the position by what it read |
| `AofIo.PottyParser.ReadMutation` | src/potty/potty_parser.c:55-105 | field-by-field read with early returns equals the specified read of the rest of the file and moves the position to the next record |
| `AofIo.Train` | src/potty/potty_trainer.c:18-60 | the replay loop applies exactly the records of the file, in order, to the real table, counts them, and stops with the result that ended them |
| `AofIo.Restart` | src/main.c:135-144 | from an empty table, unless a SET record meets a hole before its key, the table then holds exactly the store the records describe, one slot per key |
| `LogPipeline.PipelineConservation` | src/potty/potty.c:53-126 | in every reachable state: records written, rest of the job being written, queued jobs, the job the pump holds, the active batch, the message the pump holds and the channel, in that order, are exactly what was fed; the file and the writer's buffer are exactly the encoding of what was there at startup and what was written; the batch never exceeds 500 |
| `LogPipeline.FlusherHandshake` | src/potty/potty.c:84-101 | in every reachable state no two drains write at once, and whenever the mutex is free a nonempty queue implies flusher_running, which holds exactly when one drain has not passed its exit test |
| `LogPipeline.StepInv` | src/potty/potty_flusher.c:39-62 | every step of tank, pump and drains keeps mutual exclusion, the handshake, conservation of records and of bytes, and the bounds |
| `LogPipeline.PumpCarries` | src/potty/potty.c:104-120 | receiving, consuming, batching and turning a batch into a job move messages without losing, repeating or reordering any |
| `LogPipeline.DrainPasses` | src/potty/potty_flusher.c:46-56 | every drain step keeps written records ++ rest of its job ++ everything behind it |
| `LogProgress.WorkShrinks` | src/potty/potty.c:69-101 | a natural-number distance to "everything is in the file and every thread rests" shrinks strictly at every step of pump and drains other than spilling part of a buffer and idling |
| `LogProgress.SpillKeeps` | src/potty/potty_flusher.c:19-35 | spilling moves those bytes to the file and never lengthens the distance |
| `LogProgress.CanWork` | src/potty/potty_flusher.c:42-59 | unless everything is at rest, some thread can take a step that shrinks it |
| `LogProgress.EveryScheduleEnds` | src/potty/potty_flusher.c:39-62 | under every schedule, a run in which nobody feeds and nobody idles takes at most that many working steps, and unless it has come to rest it can go on |
| `LogProgress.NoBatchStranded` | src/potty/potty_flusher.c:42-59 | in every reachable state with a queued batch, a step of pump or drain is enabled that strictly shrinks the distance |
| `LogProgress.EverythingReachesFile` | src/potty/potty.c:84-101 | from every reachable state there is a run of pump and drain steps alone after which the queue is empty, all threads rest, and the file holds what was there at startup and then everything ever fed, in order |
| `ActorSystem.Linearizable` | src/septic_tank/septic_tank_operation.c:38-58 | under every interleaving: each reply received is the answer of that call's own operation in the sequential run over the processing order; no call is processed twice; a call that returned before another began was processed earlier |
| `ActorSystem.StepInv` | src/septic_tank/septic_tank.c:97-107 | every step of clients and tank keeps: sequential answers, one stage per call, recorded answers only, and time stamps in order |
| `ActorProgress.AnswerInOnePlace` | src/septic_tank/septic_tank.c:74-87 | in every reachable state the answer to each digested call is in exactly one of three places, the tank, the call's own channel or the caller, and is there the answer of the sequential run; a call not yet digested has none anywhere |
| `ActorProgress.StepDelivered` | src/septic_tank/septic_tank_operation.c:49-57 | every step keeps that, and that a call not yet digested is sending, queued or with the tank |
| `ActorProgress.SixStepsPerCall` | src/septic_tank/septic_tank.c:97-107 | under every schedule a run takes at most six serving steps per call, and when none can be taken every call has returned |
| `ActorProgress.EveryCallReturns` | src/septic_tank/septic_tank_operation.c:38-58 | from every reachable state, enqueue, take, handle, respond, finish and receive steps alone lead to a state where each call begun has returned with its own operation's sequential answer |
| `ServerProgress.EveryClientAnswered` | src/septic_tank/septic_tank.c:81-94 | the same for the whole running server, whatever crashes came before and however full the log's channel is: a run without a crash answers every call |
| `ServerSystem.CrashRecovery` | src/main.c:135-147 | in every reachable state across any number of crashes and restarts: the complete records in the file are the first n of the lineage in apply order, and replaying them gives a store no client can tell, then or later, from the live store right after the n-th was applied, and from the present store when nothing is in flight |
| `ServerSystem.RestartRestores` | src/potty/potty_trainer.c:18-60 | after a restart the live store is the replay of the file, observably the store the last surviving mutation left |
| `ServerSystem.FileIsPrefixOfEachEra` | src/potty/potty_flusher.c:13-35 | across restarts the file holds a prefix of what each finished era applied, then a prefix of what the current one applied |
| `ServerHistory.FileAmongEverything` | src/potty/potty_flusher.c:13-35 | in every reachable state: the complete records of the file are the mutations at certain positions of everything the server ever applied, all eras and the current one; those are the initial positions if and only if no era that lost a mutation comes before an era with a record in the file |
| `ServerHistory.LossyRun` | src/main.c:135-147 | a run of the server (SET a, crash before the flush, restart, SET b, flush) after which the file holds b alone and what was applied is a, b: the file is not in general a prefix of everything applied |
| `ServerHistory.InitialSegmentExactlyWhen` | src/potty/potty_flusher.c:13-35 | for every history: the positions of the survivors are the initial ones if and only if no era that lost something comes before an era with survivors |
| `ServerHistory.PositionsOfSurvivors` | src/potty/potty_flusher.c:13-35 | the survivors are the mutations at those positions |
| `ServerSystem.FileIsPrefix` | src/potty/potty_flusher.c:11-36 | the bytes of the file are always a prefix of the encoding of the lineage |
| `ServerSystem.StepInv` | src/septic_tank/septic_tank.c:74-94 | every step, crash and restart keeps: what is fed or held is what was applied, live store and replayed lineage related, snapshots observably equal to replayed prefixes |
| `Recovery.RunKeepsLiveReplay` | src/septic_tank/septic_tank_expire.c:61-78 | after every run each key has the same entry in the live and the replayed store, or is missing from the live one and expired in the replayed one; every EXPIRE record finds its key on replay |
| `Recovery.ReplayRebuilds` | src/potty/potty_trainer.c:35-55 | replaying a run's log into an empty store gives a store no client can tell from the live one, now or later |
| `HashTable.PutUpdatesLookup` | src/hashmap.c:288-302 | for every table, a put without rehash changes the lookup of its own key only, to the new value |
| `HashTable.RemoveExact` | src/hashmap.c:371-407 | for every table, removal leaves other keys alone and makes its key missing if and only if no second slot of the window held it |
| `HashTable.PutKeepsOneSlotExactlyWhen` | src/hashmap.c:213-226 | a put without rehash keeps one slot per key if and only if no empty slot precedes the key's slot on its probe path |
| `HashTable.ResurfacingRun` | src/hashmap.c:213-226 | put A, put B, remove A, put B, remove B, get B finds the first B: the condition is needed |
| `HashTable.PutKeepsTight` | src/hashmap.c:213-226 | without removals no empty slot ever lies earlier on a key's probe path |
| `HashTable.TightHasNoHole` | src/hashmap.c:213-226 | and then no put can meet a hole before its key |
| `HashTable.RemoveKeepsOneSlot` | src/hashmap.c:381-402 | removal from a table with one slot per key keeps one slot per key |
| `HashTable.SizeIsKeys` | src/hashmap.c:288-294 | with one slot per key, used slots and distinct keys are equally many |
| `HashTable.HomeProbe` | src/hashmap.c:211-216 | once all keys have distinct homes every probe stops at its home slot, so growth ends |
| `TableGrowth.PutConserves` | src/hashmap.c:272-303 | for every table, duplicates, holes and nested rehashes included: what the table holds after a put and what was freed is what it held before and the new pair, each exactly once |
| `TableGrowth.RehashConserves` | src/hashmap.c:232-267 | the same for a rehash: nothing is lost or freed twice |
| `TableGrowth.PutStores` | src/hashmap.c:272-303 | from one slot per key, unless the put meets a hole before its key: the key-value map changes at the key only, whether or not the table grew any number of times, one slot per key, freed is exactly the overwritten pair, no hole if there was none or if it grew |
| `TableGrowth.RehashKeeps` | src/hashmap.c:232-267 | from one slot per key, nested rehashes included: same key-value map and keys, nothing freed, no empty slot earlier on any key's probe path |
| `TableGrowth.PutOneSlotExactlyWhen` | src/hashmap.c:272-303 | a put, growing or not, keeps one slot per key if and only if it meets no hole before its key |
| `TableGrowth.HoleResurfaces` | src/hashmap.c:371-407 | for every table: a key put past a hole and then removed is found again with its old value |
| `TableGrowth.PutSucceeds` | src/hashmap.c:276-285 | for every table: if at some doubled size the keys have distinct homes and fill less than half, growth ends and the put succeeds |
| `TableRuns.OneSlotExactlyWhen` | src/hashmap.c:200-407 | every run of put, get and remove keeps one slot per key all along if and only if no put of it meets a hole before its key |
| `TableRuns.AnswersAsDictionary` | src/hashmap.c:200-407 | every run in which no put does answers as a dictionary and ends as that dictionary |
| `TableRuns.NoRemovalNoHole` | src/hashmap.c:213-226 | a run without removals never meets a hole |
| `TableRuns.OwnHomesNoHole` | src/hashmap.c:211-216 | nor does any run over keys with distinct home slots that fill less than half the table, whatever is removed |
| `HashMapObject.HashMap.constructor` | src/hashmap.c:34-51 | an empty table of 256 slots, nothing freed |
| `HashMapObject.HashMap.HashIndex` | src/hashmap.c:200-227 | full exactly when half full or when the eight probes neither are empty nor hold the key; otherwise the first probe that stops |
| `HashMapObject.HashMap.Get` | src/hashmap.c:308-338 | for every table, the value at the first of eight probes that holds the key, else missing |
| `HashMapObject.HashMap.Remove` | src/hashmap.c:371-407 | for every table, blanks the first matching slot, frees its pair, decrements size; otherwise changes nothing |
| `HashMapObject.HashMap.StoreAt` | src/hashmap.c:288-302 | at the slot the probe stopped at: overwrites and frees the old pair, or fills the empty slot and counts it |
| `HashMapObject.HashMap.MakeRoom` | src/hashmap.c:279-284 | the growth loop leaves a table with room for the key from which the put comes out as from the table before, or fails exactly when the put must |
| `HashMapObject.HashMap.Put` | src/hashmap.c:272-303 | for every table: slots, freed pairs and success are those of the specification; at most half full; from one slot per key, unless it meets a hole, the key-value map changes at the key only and exactly the overwritten pair is freed |
| `HashMapObject.HashMap.Rehash` | src/hashmap.c:232-267 | for every table, nested rehashes included: slots, freed pairs and success are those of the specification, size recounted; from one slot per key: same map and keys, nothing freed, no empty slot earlier on any probe path |
| `HashMapObject.HashMap.Refill` | src/hashmap.c:252-262 | the rehash loop, slot by slot, is the specified refilling of the new table |
| `HashMapObject.Drive` | src/hashmap.c:200-407 | every run of put, get and remove on a new table object answers as its slots do and leaves it at most half full; unless some put of the run meets a hole before its key it answers as a dictionary, with size the number of distinct keys; without removals none does |
| `TableTank.ApplySound` | src/septic_tank/septic_tank_apply.c:9-33 | for every table, holes and duplicates or not, every mutation leaves each heap entry owned by exactly one slot: none lost, freed twice, or freed and still reachable |
| `TableTank.ApplyOnTable` | src/septic_tank/septic_tank_set.c:91-107 | from one slot per key, a mutation or eviction that meets no hole changes the store the memory stands for as the specification says |
| `TableTank.ReplayOnTable` | src/potty/potty_trainer.c:35-55 | so does a whole replay, unless a SET record of it meets a hole before its key |
| `TankRuns.ResolveLocal` | src/septic_tank/septic_tank_operation.h:187-192 | resolving depends on and evicts the entry of its own key only |
| `TankRuns.EvictedStore` | src/septic_tank/septic_tank_operation.h:187-192 | resolving alone, on a table with one slot per key, keeps one slot per key and leaves the store the specification says |
| `TankRuns.RunOneSlotExactlyWhen` | src/septic_tank/septic_tank.c:97-107 | for every hash and every run of the tank: each key keeps one slot through every write if and only if no SET the run applies meets a hole before its key |
| `TankRuns.DigestOnTable` | src/septic_tank/septic_tank.c:37-79 | one operation that meets no hole: answer, mutation and store are those of the abstract tank |
| `TankRuns.RunsAsAbstract` | src/septic_tank/septic_tank.c:97-107 | every run that meets no hole, from any such table: all answers, mutations and the final store are those of the abstract tank |
| `TankRuns.RunSound` | src/septic_tank/septic_tank.c:97-107 | for every run, holes or not, every heap entry stays owned by exactly one slot |
| `TankRuns.TankSucceeds` | src/hashmap.c:276-285 | if at some doubled size the keys of the run have distinct homes, no growth fails |
| `TankRuns.OwnHomesNeverMeetHole` | src/hashmap.c:211-216 | a run over keys with distinct home slots that fill less than half the table never meets a hole, whatever it deletes or lets expire |
| `TankRuns.LastingNeverMeetHole` | src/septic_tank/septic_tank_del.c:35-37 | nor does a run without DEL, EXPIRE and deadlines |
| `TankRuns.ReplayWithoutDelNeverMeetsHole` | src/potty/potty_trainer.c:35-55 | nor does the replay of a log without DEL records |
| `Resurfacing.HoleShows` | src/hashmap.c:213-226 | for every table: if a SET meets a hole before a live key, then that SET, a DEL and a GET of the key answer the value from before the SET, where the abstract tank answers none |
| `Resurfacing.ResurfacingTank` | src/hashmap.c:213-226 | SET a, SET b, DEL a, SET b, DEL b, GET b from an empty tank, a and b at home in one slot: the tank answers b's first value |
| `Resurfacing.HarmlessLiveHarmfulReplayed` | src/potty/potty_trainer.c:35-55 | a run that meets no hole live and whose log meets one when replayed, because replay keeps the expired entries the live table had evicted: after the restart DEL b, GET b answer an overwritten value of b |
| `TankActor.SepticTank.HandleGet` | src/septic_tank/septic_tank_get.c:4-38 | on the table and heap entries, for every table: the reply is GET's on the store the lookups stand for (GetPromise); the only write is the removal of this key's entry if it has expired |
| `TankActor.SepticTank.HandleSet` | src/septic_tank/septic_tank_set.c:8-89 | the same for SET: NX, XX, GET, the deadline asked for, and the evictions of both branches (SetPromise) |
| `TankActor.SepticTank.HandleDel` | src/septic_tank/septic_tank_del.c:4-33 | the same for DEL (DelPromise) |
| `TankActor.SepticTank.HandleExists` | src/septic_tank/septic_tank_exists.c:4-28 | the same for EXISTS (ExistsPromise) |
| `TankActor.SepticTank.HandleTtl` | src/septic_tank/septic_tank_ttl.c:6-32 | the same for TTL, which writes nothing (TtlAgreesExactlyWhen) |
| `TankActor.SepticTank.HandleExpire` | src/septic_tank/septic_tank_expire.c:5-59 | the same for EXPIRE with both clock readings and the five no-op tests (ExpirePromise) |
| `TankActor.SepticTank.HandleIncrBy` | src/septic_tank/septic_tank_incrby.c:6-73 | the same for INCRBY, which writes nothing (CounterExact) |
| `TankActor.SepticTank.ResolveOp` | src/septic_tank/septic_tank.c:40-72 | the dispatch: the operation's own handler; with one slot per key the store afterwards is the specified one |
| `TankActor.SepticTank.ApplyMutation` | src/septic_tank/septic_tank_apply.c:9-33 | table and heap become the specified ones: a SET allocates an entry and frees the one it overwrites, a DEL frees, an EXPIRE writes the entry where it is or finds none; every entry stays owned |
| `TankActor.SepticTank.Digest` | src/septic_tank/septic_tank.c:37-95 | resolve, apply, reply, log: memory, the reply sent and the mutation fed (only while logging is enabled) are those of the memory specification RunsAsAbstract is about |
| `TankActor.SepticTank.Pump` | src/septic_tank/septic_tank.c:97-107 | the consuming loop, message by message: memory, replies and fed mutations of the whole run |
| `TankActor.RunOnTable` | src/septic_tank/septic_tank.c:97-107 | every run of the tank object from empty answers as its memory does; unless some SET of it meets a hole before its key, replies, fed mutations and final store are those of the abstract tank |
| `ServerOnTable.TableServes` | src/main.c:135-147 | in every reachable state of the server, across crashes and restarts: the startup replay and then everything digested since, run on the real table without meeting a hole, give exactly the answers the server recorded, to each caller that has received its answer the answer to its own operation, and exactly the live store |
| `Ring.RingBuf.Push` | src/ring.c:24-39 | appends to the contents unless full, and says which |
| `Ring.RingBuf.Pop` | src/ring.c:41-53 | removes the oldest element unless empty, and says which |
| `SewerMonitor.BoundedExactlyOnceFifo` | src/sewer.c:31-92 | with any number of senders, spurious wakeups and timeouts: what consume calls returned, then what the call in progress has popped, then the buffer is what was pushed, never more than the capacity; and each sender pushed exactly the messages it was asked to send, in order, bar the one it is sending |
| `SewerMonitor.NullOnlyOnTimeout` | src/sewer.c:62-92 | each consume call returns once, and returns NULL if and only if it gave up, which only a timed call does |
| `SewerMonitor.NoLostWakeup` | src/sewer.c:34-55 | whenever the mutex is free, a sleeping consumer has an empty buffer, and while senders sleep free slots never outnumber senders already woken |
| `SewerMonitor.NeverAllAsleep` | src/sewer.c:31-60 | with a sender inside a call, some thread can take a step of its own, unless the buffer is full and nobody is consuming |
| `SewerMonitor.RefinesQueue` | src/sewer.c:39-55 | every step of the monitor is an enqueue of the sender's message into free space, a dequeue of the oldest item, or invisible, what was returned and is held included |
| `Resp.RoundTripExactlyWhen` | src/resp/parser.c:219-262 | for every value of any nesting and any following bytes: parsing the serialization returns the value and stops at its end if and only if no simple string or error in it holds CR or LF |
| `Resp.PrefixFree` | src/resp/serializer.c:124-160 | serialization of such values is prefix-free, hence injective |
| `Resp.StreamsDecodeUniquely` | src/resp/serializer.c:98-122 | two streams of such values with equal bytes hold equal values |
| `Resp.Misread` | src/resp/parser.c:30-51 | a value with a stray CR or LF at any depth never comes back as itself |
| `RespLayout.WireBytes` | src/resp/serializer.c:13-160 | the bytes of every value, with the markers + - : $ _ * and CR LF as numbers, decimal lengths and the items in order |
| `RespLayout.DecimalText` | src/resp/serializer.c:88 | integers and lengths are decimal ASCII without leading zeros, with a minus sign for negative ones |
| `RespLayout.RequestParses` | src/resp/parser.c:179-217 | any request, written out as `*n` and n bulk strings, followed by any bytes, parses to exactly the array of those strings and ends at its end |
| `RespLayout.Ping` | src/resp/parser.c:235-256 | `*1\r\n$4\r\nPING\r\n`, byte for byte, is the array of the one bulk string PING |
| `RespLayout.MarkerDecides` | src/resp/resp.h:22-29 | the parser reports an unknown marker at a position exactly if the byte there is none of the six, never elsewhere, and a parsed value is of the kind its first byte names |
| `RespIo.RespParser.ParseText` | src/resp/parser.c:20-94 | scan, copy, consume CR LF: the specified line read, position moved past it |
| `RespIo.RespParser.ParseBulk` | src/resp/parser.c:96-137 | length, CR LF, that many bytes, CR LF: the specified bulk read |
| `RespIo.RespParser.ParseElements` | src/resp/parser.c:200-212 | the element loop returns the specified items or the first failure |
| `RespIo.RespParser.ParseValue` | src/resp/parser.c:219-262 | the recursive parser returns the specified result for every input and leaves the position at its end |
| `RespIo.RespSerializer.SerializeValue` | src/resp/serializer.c:124-160 | given room, the serialization is appended at the cursor and nothing before it changes |
| `RespIo.RespSerializer.EmitItems` | src/resp/serializer.c:117-121 | the element loop appends the items' serializations in order |
| `RespIo.Exchange` | src/resp/serializer.c:162-173 | what the serializer writes into a buffer, the parser reads back from that buffer |
| `CommandArgs.SuccessPartitions` | src/command/command_arg.c:344-379 | for every table of definitions and every input, on success each argument is consumed by exactly one definition |
| `CommandArgs.CommandArgumentKeeps` | src/command/command_arg.c:281-342 | flags set as consumed never revert |
| `CommandArgsIo.StrEqCi` | src/aids.c:161-179 | true exactly for texts equal up to ASCII letter case |
| `CommandArgs.SameButForCase` | src/aids.c:166-176 | two words match exactly if they agree byte by byte up to exchanging A..Z (65..90) with a..z (97..122) |
| `CommandArgsIo.InputArgs.PeekIndex` | src/command/command_arg.c:34-48 | the index-th unconsumed argument of the window |
| `CommandArgsIo.InputArgs.Consume` | src/command/command_arg.c:57-66 | sets exactly the flag of the index-th unconsumed argument, if there is one |
| `CommandArgsIo.InputArgs.ShrunkAt` | src/command/command_arg.c:68-93 | a copy of the flags with the window from the next unconsumed argument to the end of its unconsumed run |
| `CommandArgsIo.InputArgs.FindToken` | src/command/command_arg.c:299-327 | finds the first unconsumed argument that is the token in any letter case |
| `CommandArgsIo.InputArgs.ParseArgument` | src/command/command_arg.c:102-279 | code, output and flags are those of the specification, ONEOF tried in order |
| `CommandArgsIo.InputArgs.ParseCommandArgument` | src/command/command_arg.c:281-342 | with index arithmetic, shrunk window and flags copied back: code, output and flags are those of the specification |
| `CommandArgsIo.ParseCommandArguments` | src/command/command_arg.c:344-379 | the definition loop returns the specified code and outputs, TOO_MANY_ARGS when something is left |
| `SetCommand.SetTakesFirstTwo` | src/command/handlers/set.c:11-15 | SET's key and value are the first two arguments whatever their text; fewer is TOO_FEW_ARGS |
| `SetCommand.SetClosedForm` | src/command/handlers/set.c:16-36 | with no EX, PX, EXAT or PXAT among the trailing arguments, the outcome and the options are decided by which option words occur and how many trailing arguments there are |
| `SetCommand.OptionOrderIrrelevant` | src/command/handlers/set.c:16-36 | hence invariant under every permutation of them |
| `SetRequest.ExpiryOption` | src/command/handlers/set.c:40-112 | SET with EX, PX, EXAT or PXAT n, in any letter case and anywhere among the other options: accepted exactly if NX or XX and GET are all else there is, and the tank is asked for that key, value, nx, xx, get and the deadline now + 1000n, now + n, 1000n or n |
| `SetRequest.SetWithoutDeadline` | src/command/handlers/set.c:40-112 | without such an option: accepted exactly if the words NX or XX, GET and KEEPTTL present are all there is, and the tank is asked to keep the old deadline with KEEPTTL and for none without |
| `SetRequest.ValueOption` | src/command/handlers/set.c:24-34 | the same with any text for the value: code and outputs in closed form |
| `SetRequest.RelativeWantsInteger` | src/command/command_arg.c:148-165 | EX and PX are refused as a type mismatch exactly if the value is not an int64 in decimal |
| `SetRequest.AbsoluteTakesAnyText` | src/command/command_arg.c:195-210 | EXAT and PXAT never are: the number is what strtoll reads from the front of the text |
| `SetRequest.MissingValue` | src/command/command_arg.c:148-158 | an option that takes a value as last argument is TOO_FEW_ARGS |
| `SetRequest.ReplyTells` | src/command/handlers/set.c:114-140 | without GET the reply is OK exactly if the value was stored and null otherwise; with GET it is the value the key had, or null |
| `SetRequest.SetThenGet` | src/command/handlers/set.c:88-138 | end to end: SET key value with an expiry option on any store answers OK, and a later GET returns the value before the deadline and nothing from the deadline on |
| `ArenaAllocator.AllocationsDisjoint` | src/arena.c:34-58 | for every sequence of allocations between resets: ranges inside the block behind their page, pairwise disjoint, current <= size <= backing on every page |
| `ArenaAllocator.ResetOk` | src/arena.c:71-76 | reset keeps the pages and their bounds |
| `ArenaAllocator.Arena.Allocate` | src/arena.c:34-58 | the page walk is first fit; the range lies beyond everything handed out before on its page |
| `ArenaAllocator.Arena.ResetAll` | src/arena.c:71-76 | every cursor returns to zero, nothing else changes |
| `HectorArray.SpliceInBoundsExactlyWhen` | src/aids.c:107-119 | a removal stays inside its block if and only if it moves nothing or length + 2 * count <= capacity |
| `HectorArray.Hector.Push` | src/aids.c:80-91 | appends, doubling when full |
| `HectorArray.Hector.TryShrink` | src/aids.c:93-97 | shrinking loses no element and never reaches capacity zero |
| `HectorArray.Hector.Splice` | src/aids.c:107-123 | for every live range: reports exactly when the move leaves the block; otherwise exactly the given range disappears and the capacity shrinks as specified |
| `HectorArray.UseAsQueue` | src/potty/potty_flusher.c:52-53 | every run of pushes and head removals is a FIFO exactly as long as no removal leaves the block |
| `HectorArray.TwoJobsCanLeave` | src/potty/potty.c:20 | a run of the job queue that never holds more than two jobs and leaves the block: four jobs one by one, which shrink the array to one element, then two at once |
| `HectorArray.JobQueueSafeExactlyWhen` | src/potty/potty_flusher.c:52-53 | for every bound b: all runs of the job queue that hold at most b jobs stay inside the block if and only if b <= 1 |
| `JobQueue.QueueFollows` | src/potty/potty.c:84-85 | every run of the pipeline is a feasible use of the array, which is always as long as the pipeline's queue |
| `JobQueue.OneJobStaysInside` | src/potty/potty_flusher.c:46-53 | a run of the pipeline that never queues a second job keeps every removal inside the array |
| `JobQueue.PipelineLeavesBlock` | src/potty/potty_flusher.c:46-53 | a run of the pipeline from startup in which a drain's head removal reads beyond the array |

## Left out

- Sockets, the accept loop, the 4096-byte read buffer, the command line and startup code: I/O plumbing; kept is that replay precedes clients and does not log.
- File system failures, fsync and power loss: the file is an append-only byte sequence that receives the stdio buffer in arbitrary chunks.
- Memory lifetime across threads: messages, results and mutations are values; that the tank reads a result after replying is not covered.
- The job queue of the pipeline is a sequence: it stands for the growable array exactly as long as no removal leaves the array's block, which is sure only while no second job is queued (`JobQueueSafeExactlyWhen`).
- The channels of `Actor.dfy` and `LogPipeline.dfy` are atomic bounded queues: `SewerMonitor.RefinesQueue` is what entitles them to be.
- CRC and mixing constants of the hash, overflow of the table size, and behaviour after a failed allocation.
- The WRONGTYPE errors: strings are the only entry type, so no entry can raise them.
- Big-endian hosts: the log's integers are modelled little-endian only.
- Double arguments, INFO, PING, RESP printing, and the handlers other than SET: printing or plain forwarding.
- SET with two options that take values, or an option word as a value: the window search then no longer pairs each word with the argument after it.
- HashMapObject.HashMap.Put: says nothing of the slots after a refused growth (MAP_OMEM), whose contents the source leaves partly rehashed.
- HashMapObject.HashMap.StoreAt: requires a probe that stopped, as its caller establishes.
- HashMapObject.Drive: requires that at some doubled size the keys of the run have distinct homes, because otherwise the source grows until allocation fails.
- TankActor.RunOnTable: the same requirement.
- TankActor.SepticTank.Digest: requires that the table can grow as far as the operation needs, because the source ignores a failed put.
- TankActor.SepticTank.Pump: the same requirement for the whole run.
- AofIo.Train: the same requirement for the whole file.
- AofIo.Restart: the same requirement.
- ServerOnTable.TableServes: requires that no SET meets a hole before its key, because then the source's table stops being a map (`HoleShows`).
- HectorArray.Hector.Splice: requires a live range, which is all its one caller asks for; a removal that would leave the block is reported and not carried out.
- LogProgress.EverythingReachesFile: says that such a run exists; that every schedule ends so is `LogProgress.EveryScheduleEnds`, for threads that do not idle.
- RespIo.RespSerializer.SerializeValue: requires room in the buffer, which the source leaves to its callers.
- RespIo.Exchange: requires a value without line breaks in simple strings and room in the buffer; `Resp.RoundTripExactlyWhen` says when that is needed.
- SetRequest.ExpiryOption: requires that the deadline fits int64, because the source computes it without an overflow test, and that only one option takes a value.
- SetRequest.SetThenGet: requires a deadline other than -1, which the log and the store read as none (`Counters.SetDeadlineStored`).
- ActorProgress.EveryCallReturns: says that such a run exists; that every schedule ends so is `ActorProgress.SixStepsPerCall`, for threads that do not idle.
- ServerProgress.EveryClientAnswered: the same, for the log's threads too.
- EagerExpiry.LazyRefinesEager: leaves TTL replies aside, because TTL does not treat expired entries as absent.
- Resp.RoundTripExactlyWhen: requires array lengths that fit size_t, as any array in memory has.
- ServerSystem.CrashRecovery: a torn file never restarts, as in the source, which exits on UNEXPECTED_EOF.
