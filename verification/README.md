# Verified models of sner4

A Dafny project that models the parts of sner4 whose correctness is hardest to see from the code, and proves what
they are for. `dafny verify dfyconfig.toml` checks all of it. Nothing here executes the original program.

## What is modelled

**The rate-limiting scheduler** (`Networks`, `Tallies`, `SchedulerState`, `SchedulerIndex`, `SchedulerAccounts`,
`SchedulerSteps`, `SchedulerRuns`, `SchedulerAssignment`, `SchedulerExamples`, `Scheduler`, `Agent`). Five tables:
queues, targets, the index of networks a queue may scan now, the count of targets in flight per network, and jobs.
`SchedulerState` says what each step between two commits does to them; `SchedulerSteps` makes the steps the events of a
machine and proves an invariant: the index equals its definition from scratch, the count of every network is what is in
flight, and every enqueued target is accounted for. A step of an assignment depends on its exclusion rules: a
popped target is taken, dropped or the end of the assignment exactly as the matcher lets it pass, excludes it or raises.
`SchedulerRuns` draws the conclusions for whole runs; `SchedulerAssignment` follows one assignment from its first step
to its end, or to an error in the middle. `Scheduler.Service` is the service as a class over the tables; its ghost
history is a run of the machine, so the conclusions hold for every sequence of calls and at every commit inside them.
`Agent` adds the agent's loops with lost messages, busy replies and interference.

**The QR encoder** (`Bytes`, `JsNumbers`, `GaloisField`, `GaloisTables`, `ReedSolomon`, `QrBlocks`, `QrBitStream`,
`QrInterleaving`, `QrFrame`, `QrMask`), after sections 7.4 to 7.8 of ISO/IEC 18004:2015: the field by doubling and
its tables by logarithms, the generator polynomial, the shift register that divides in place, nibble repacking, block
interleaving and masks.

**The CBOR codec** (`CborValues`, `CborDecoding`, `CborRoundTrip`, `CborForms`, `CborEncoder`, `CborDecoder`), after
section 3 of RFC 8949: reading as functions, the encoder over its doubling buffer, the decoder over its offset, and the
round trip. `CborForms` has what the decoder makes of byte strings that the encoder does not write.

**Parsed items and long-term storage** (`StorageView`, `ParsedItems`, `StorageImport`, `Storage`): keyed upserts, the
tarpit filter, and the import into rows that refer to one another. `StorageView` is the storage by natural keys,
`StorageImport` says what an import does to it, and `Storage.Database` is proved to implement it with rows and joins.

**Networks and enumeration** (`Networks`, `Enumeration`): exclusions, the networks that targets are counted by,
enumeration of networks, and blocks of IPv6 addresses.

## What the code does that its purpose does not ask for

Each of these is a lemma with a concrete input beside one that says for all inputs when it happens.

- A malformed bound of an enumeration target, such as in `sixenum://abc`, makes the network matcher raise in the middle
  of an assignment, after the target was deleted from its queue. That target is lost: no queue, no job and no record
  holds it any more. The targets already in the hands are in no queue and no job either, and their heat stays, so that
  `heatmap_check` reports a mismatch (`SchedulerExamples.LeakExample`, `SchedulerRuns.CheckMeans`).
  - From any state between two operations, an assignment can lose a target if and only if its queue is active, takes at
    least one target at a time and holds one on which the rules raise, in a network that is not hot
    (`SchedulerAssignment.LosableIff`).
  - It can leak heat if and only if its queue takes two targets or more at a time and also holds one that the rules let
    pass, in networks that are not hot and stay so after the first one (`SchedulerAssignment.LeakableIff`).
    `Scheduler.Addressable` says how a call reaches a queue.
  - Over any run, every enqueued target is waiting, in flight, finished, excluded or flushed if and only if none was
    lost; heat leaked if and only if targets were stranded (`SchedulerRuns.ConservedIff`); and both happen only if an
    assignment began in such a state (`SchedulerAssignment.LostOnlyAtSnags`). Without a network among the rules, or
    without a malformed enumeration among the lines handed in, none of it happens (`SchedulerAssignment.NothingLost`,
    `Scheduler.Service.Accounted`, `Scheduler.Service.HeatmapCheck`).
  - The rate limit and the index hold either way.
- After a change of the hot level without a recount, a release can fail on an existing row of the index;
  `SchedulerIndex.CollisionWithoutRecount` says exactly when. `SchedulerExamples.CollisionExample` gets there from empty
  tables.
- A bound order in an enumeration that is the wrong way round is matched by its end points although its range is empty
  (`Networks.BackwardsExcluded`, `Networks.NetworkExcludes`).
- `_modN` equals the remainder modulo 255 for every argument under 2^31, and beyond that exactly when
  `QrFrame.FoldIsExact` holds: when what the first subtraction rounds off and the bits that the operators drop do not
  matter (`QrFrame.ModNDiffers` has an argument for each).
- The encoder's text conversion treats every unit from 0xd800 up as the first of a pair, private-use characters
  included, and the decoder drops entries named `__proto__` (`CborRoundTrip.Lost`). `CborRoundTrip.DecodedUnchanged`
  says exactly which values survive. The encoder's buffer reaches any size up to 2^30 and none above
  (`CborEncoder.GrowthEnds`).
- An import raises exactly when a host with names has a note of host names that is not a list of scalars
  (`StorageImport.RaisesWhen`). Importing twice is importing once, but the second import raises if the first one stored
  such a note (`StorageImport.AgainFails`, `StorageImport.ImportIdempotent`).

## Abstractions

- Every operation under the scheduler's lock, together with the check that precedes it, is one atomic operation; the
  checks for `retval` in `sner/server/api/views.py:69` and `sner/server/scheduler/core.py:288` happen before the lock
  is taken. Inside an operation every commit is visible. Whether the lock is obtained is a parameter.
- Random choices and coins are nondeterministic. Identifiers are fresh numbers.
- Targets are parsed by a function that is a parameter; addresses are numbers with a family. That a network excludes
  an enumeration exactly when they share an address is said of bounds of one family, which is IPv6 in the source, as
  both bounds share all but their last part.
- What targets are counted by is either a network or text, and the two never meet. In the source it is always text, so
  that the plain target `10.0.0.0/24` is counted with the address `10.0.0.1`. No theorem depends on the difference.
- Numbers in JavaScript are natural numbers with the rounding of doubles where they can be large (`JsNumbers`). Numbers
  other than integers between -2^53 and 2^53 are opaque in CBOR: the bytes that they are read from, which stand for the
  double that they round to, so that two of them may be one number. How JavaScript names a key that is not a string is a
  parameter. The scoring of QR masks is a parameter.
- Addresses in long-term storage are text. The column type of the source takes two forms of one IPv6 address for one.
- A note of host names either holds a list of JSON scalars or it does not. Scalars other than strings are told apart as
  a set of Python tells them apart.
- Shifts, masks and combinations of bit fields that do not overlap are written as arithmetic.

## Model

| member | source | states |
|---|---|---|
| `SchedulerIndex.PopTargetExact` | sner/server/scheduler/core.py:508-521 | taking a target out of a queue keeps the index equal to its definition: a network goes exactly with its last target |
| `SchedulerIndex.PutExact` | sner/server/scheduler/core.py:409-424 | counting a network once more keeps the index equal to its definition, whether or not it becomes hot |
| `SchedulerIndex.PopExact` | sner/server/scheduler/core.py:427-446 | with some heat and an exact index, a release finds a row of the count, never inserts an existing row of the index, and keeps the index exact |
| `SchedulerIndex.HeatAfterPop` | sner/server/scheduler/core.py:427-439 | a release lowers the heat of one network by one and of no other, whether or not zero rows are collected |
| `SchedulerIndex.EnqueueExact` | sner/server/scheduler/core.py:183-208 | enqueueing keeps the index equal to its definition |
| `SchedulerIndex.FlushExact` | sner/server/scheduler/core.py:211-220 | flushing keeps the index equal to its definition |
| `SchedulerIndex.RecountExact` | sner/server/scheduler/core.py:584-613 | a recount makes the index exact if and only if every row of it that is not hot has a target |
| `SchedulerIndex.RecountIdle` | sner/server/scheduler/core.py:584-613 | on an exact index a recount changes nothing: incremental maintenance agrees with recomputation |
| `SchedulerIndex.RelevelExact` | sner/server/scheduler/core.py:584-613 | after a change of the level to any value, a recount makes an index that was exact exact for the new level |
| `SchedulerIndex.CollisionWithoutRecount` | sner/server/scheduler/core.py:427-446 | without the recount, a release hits an existing row exactly when its heat is the new level, it was not hot before, and a queue waits for it |
| `SchedulerSteps.StepKeeps` | sner/server/scheduler/core.py:183-246 | every event of every operation keeps references sound, the index exact, heat accounted for and targets conserved |
| `SchedulerSteps.TakeKeeps` | sner/server/scheduler/core.py:543-556 | one turn of the assignment loop keeps the whole invariant, the hands included |
| `SchedulerSteps.CrashKeeps` | sner/server/scheduler/core.py:549-551 | an error of the matcher in the loop keeps the invariant once stranded targets and leaked heat are accounted for |
| `SchedulerSteps.EndAssignKeeps` | sner/server/scheduler/core.py:558-561 | turning the hands into a job keeps the invariant |
| `SchedulerSteps.BeginReleaseKeeps` | sner/server/scheduler/core.py:576-578 | giving a job its return value moves its targets from flight to release and keeps the invariant |
| `SchedulerSteps.ReleaseKeeps` | sner/server/scheduler/core.py:578-579 | releasing one target keeps the invariant |
| `SchedulerSteps.DeleteQueueKeeps` | sner/server/scheduler/core.py:230-246 | deleting a queue without jobs keeps the invariant |
| `SchedulerRuns.RunKeeps` | sner/server/scheduler/core.py:346-647 | the invariant holds after every possible run from a state that meets it |
| `SchedulerRuns.Reachable` | sner/server/scheduler/core.py:346-647 | in every reachable state: index equals definition, heat equals in flight plus in the hands plus leaked, and enqueued targets are those in place (queued, running, in the hands, finished, excluded, flushed) and those that an error of the matcher lost or stranded |
| `SchedulerRuns.ConservedIff` | sner/server/scheduler/core.py:508-556 | over any run from empty tables, every enqueued target is in place if and only if none was lost, and heat leaked if and only if targets were stranded, which needs a lost one |
| `SchedulerRuns.Losses` | sner/server/scheduler/core.py:543-556 | over any run, the leaked heat is that of the stranded targets, one for one |
| `SchedulerRuns.Granted` | sner/server/scheduler/core.py:427-521 | every row of the index has a target, and a network to be released has a row with heat and no existing row in its way: three things the code relies on unchecked |
| `SchedulerRuns.RunLimited` | sner/server/scheduler/core.py:409-424 | over any run at a fixed level, no heat rises above the level or above what it was |
| `SchedulerRuns.RateLimit` | sner/server/scheduler/core.py:409-564 | at every moment of every run at a fixed level L > 0, also inside the assignment loop, at most L targets of a network are in flight over all queues and agents |
| `SchedulerRuns.ClosedOnce` | sner/server/scheduler/core.py:282-298 | each issued job leaves the running state exactly once if it does not run any more, and never otherwise |
| `SchedulerRuns.StaysClosed` | sner/server/scheduler/core.py:282-298 | a job that left the running state never runs again |
| `SchedulerRuns.ReleasedOnce` | sner/server/scheduler/core.py:567-581 | every target of every job that left the running state is released exactly once, or is about to be |
| `SchedulerRuns.EnqueuedAll` | sner/server/scheduler/core.py:183-198 | what counts as enqueued over a run are the stripped non-blank lines of everything handed in |
| `SchedulerState.StripMeans` | sner/server/scheduler/core.py:189 | what is stripped from a text are the spaces at its ends, and a blank text entirely |
| `SchedulerState.LineCleaned` | sner/server/scheduler/core.py:189 | whatever spaces are around a line, the line is what is enqueued, and of a blank line nothing is |
| `SchedulerState.LinesBoth` | sner/server/scheduler/core.py:189 | lines are cleaned one by one, in order and none twice |
| `SchedulerRuns.RepeatExact` | sner/server/scheduler/core.py:301-304 | repeating a job hands in exactly its targets |
| `SchedulerRuns.CheckMeans` | sner/server/scheduler/core.py:616-647 | between operations, counts agree with the running jobs if and only if nothing leaked |
| `SchedulerRuns.CoinsDoNotMatter` | sner/server/scheduler/core.py:440-441 | the random collection of zero rows changes neither what a run can do nor where it ends |
| `SchedulerAssignment.LeakableIff` | sner/server/scheduler/core.py:527-564 | from any state between operations, some assignment on a queue under given rules leaks heat if and only if the queue takes two targets and holds a trap: one target that passes and one that raises, both in networks that are ready one after the other |
| `SchedulerAssignment.FailedTrapped` | sner/server/scheduler/core.py:543-556 | an assignment that ended with an error and stranded targets had a trap in its queue |
| `SchedulerAssignment.TrapSprings` | sner/server/scheduler/core.py:543-556 | from any state with a trap, a possible assignment leaks exactly the network of the first target |
| `SchedulerAssignment.LosableIff` | sner/server/scheduler/core.py:508-556 | from any state between operations, some assignment on a queue under given rules loses a target if and only if the queue is active, takes a target, and holds one on which the rules raise in a network that is not hot |
| `SchedulerAssignment.LostOnlyAtSnags` | sner/server/scheduler/core.py:508-556 | over any run, a target is lost only if some assignment began while its queue could lose one, and heat leaks only if one began while its queue held a trap |
| `SchedulerAssignment.NothingLost` | sner/server/scheduler/core.py:616-647 | over any run from empty tables without a network among the rules, or without a malformed enumeration among the lines: nothing is lost, stranded or leaked, enqueued = queued + running + in the hands + finished + excluded + flushed, and at every rest each count is what is in flight |
| `SchedulerExamples.LeakExample` | sner/server/scheduler/core.py:141-154 | at every level, with the rule 10.0.0.0/8 and the lines 192.0.2.1 and sixenum://abc, a run from empty tables loses the second line, strands the first and leaks its heat; not every target is in place, and the counts do not agree with the jobs |
| `SchedulerExamples.CollisionExample` | sner/server/scheduler/core.py:427-446 | a run from empty tables gives two of three targets of one network out at level 0; at level 2 without a recount the release of that job hits an existing row, and with it does not |
| `Scheduler.Service.HeatmapPut` | sner/server/scheduler/core.py:409-424 | the count of a network after one more, and the index without it when it is hot |
| `Scheduler.Service.HeatmapPop` | sner/server/scheduler/core.py:427-446 | fails exactly when an inserted row of the index exists; otherwise the count is one less and all waiting queues regain a network that became cool |
| `Scheduler.Service.PopRandomTarget` | sner/server/scheduler/core.py:489-524 | a target of a ready network of the queue, or none exactly when no network of it is ready |
| `Scheduler.Service.GetAssignmentQueue` | sner/server/scheduler/core.py:464-486 | a queue that is active, has a ready network, requires nothing the agent cannot do and has the name asked for, of the highest priority among all such queues, or none exactly when there is no such queue |
| `Scheduler.Service.JobAssign` | sner/server/scheduler/core.py:527-564 | at most group_size targets, all queued before; no rule holds an address that a taken target reaches, or finds its text, and some rule does for every dropped one; fewer only when every target left in the queue is in a hot network; on an error of the matcher which target it raised on and what was stranded; the complete new state in every case; an error, and with it a loss, only where the queue could lose a target |
| `Scheduler.Service.FillHands` | sner/server/scheduler/core.py:543-556 | the assignment loop ends; it pops targets of the queue only, drops the excluded ones, counts the others, and on an error leaves the complete state of a failed assignment |
| `Scheduler.OutcomeLoses` | sner/server/scheduler/core.py:527-564 | a target is lost exactly by an assignment that ends with an error, and only where the queue served could lose one; heat leaks only then, and only where it held a trap |
| `Scheduler.Addressable` | sner/server/scheduler/core.py:464-486 | a call with the name of an active queue that has a ready network, and with its requirements, can be served from that queue |
| `Scheduler.OutcomeRespects` | sner/server/scheduler/core.py:543-556 | whatever an assignment comes to, what it took no rule forbids, and what it dropped some rule forbids |
| `Scheduler.ChosenServes` | sner/server/scheduler/core.py:477-486 | the queue chosen may serve the agent and none that may has a higher priority; without one, none may |
| `Scheduler.EligibleMore` | sner/server/scheduler/core.py:477-486 | more capabilities, or no name, never make an eligible queue ineligible |
| `Scheduler.Service.Enqueue` | sner/server/scheduler/core.py:183-208 | one new target for each line that is not blank, stripped, in order and with its network; old targets stay, the index is its definition, and nothing else changes |
| `Scheduler.Service.Flush` | sner/server/scheduler/core.py:211-220 | the complete state after flushing |
| `Scheduler.Service.Prune` | sner/server/scheduler/core.py:223-227 | deletes all jobs of a queue if none runs; otherwise fails having deleted only finished jobs of the queue |
| `Scheduler.Service.DeleteQueue` | sner/server/scheduler/core.py:230-246 | deletes a queue with its jobs, targets and index rows if no job of it runs; otherwise leaves the queue |
| `Scheduler.Service.DeleteJob` | sner/server/scheduler/core.py:324-339 | deletes a job exactly when it does not run |
| `Scheduler.Service.ReadynetRecount` | sner/server/scheduler/core.py:584-613 | the loops over networks and queues compute the recount |
| `Scheduler.Service.ChangeLevel` | sner/server/scheduler/core.py:584-613 | after a new level and a recount, only the level and the index changed, and the index is its definition |
| `Scheduler.Service.RecountAgain` | sner/server/scheduler/core.py:584-613 | at an unchanged level, a recount of any reachable state changes nothing |
| `Scheduler.Service.JobOutput` | sner/server/scheduler/core.py:567-581 | the job gets its value, each target lowers the heat of its network once, and nothing else but the index changes; no release fails |
| `Scheduler.Service.Output` | sner/server/api/views.py:58-82 | the reply is decided by decoding, by whether the job runs and by the lock; only success changes anything |
| `Scheduler.Service.Reconcile` | sner/server/scheduler/core.py:282-298 | fails a job that runs with the value -1 and releases its targets; refuses any other |
| `Scheduler.Service.Repeat` | sner/server/scheduler/core.py:301-304 | enqueues exactly the targets of a job in its queue |
| `Scheduler.Service.HeatmapCheck` | sner/server/scheduler/core.py:616-647 | true if and only if every count equals the targets in flight, hence if and only if nothing leaked, hence always without a network among the rules or without a malformed enumeration among the lines |
| `Scheduler.Service.Accounted` | sner/server/scheduler/core.py:346-647 | at every moment of every sequence of calls the index, the heat and the places of targets are as the invariant says; every target is in place if and only if none was lost, and always without a network among the rules or a malformed enumeration among the lines |
| `Scheduler.Service.Limited` | sner/server/scheduler/core.py:409-564 | the rate limit for every sequence of calls without a change of the level |
| `Scheduler.Service.LeftOnce` | sner/server/scheduler/core.py:282-298 | over every sequence of calls a job leaves the running state at most once |
| `Scheduler.Service.Assign` | sner/server/api/views.py:39-55 | in maintenance and when the lock is taken there is no work and nothing changes; otherwise the complete outcome of an assignment |
| `Agent.GetAssignment` | sner/agent/core.py:192-217 | a job that is fetched was issued by this call and runs; only an agent for one shot gives up |
| `Agent.Run` | sner/agent/core.py:233-257 | over any turns with any losses and interference, the jobs the agent is done with are all different, do not run any more, and each left the running state exactly once |
| `Agent.UploadOutput` | sner/agent/core.py:219-231 | whatever is lost, repeated, refused or reconciled in between: when the upload returns, the job does not run on the server and left the running state exactly once; a delivered, answered, not busy try ends it |
| `Networks.ContainsRange` | sner/server/scheduler/core.py:135-139 | an address is in a network by its network bits exactly when it is between the first and last address |
| `Networks.HostExcluded` | sner/server/scheduler/core.py:135-148 | a network excludes an address, alone or with a service, exactly in the range from its first to its last address, and never a name |
| `Networks.NetworkExcludes` | sner/server/scheduler/core.py:141-165 | a network excludes a target exactly when it holds an address that the target reaches; but for bounds the wrong way round |
| `Networks.RulesExclude` | sner/server/scheduler/core.py:101-107 | the rules let a target pass only if none of them holds an address it reaches or finds its text, and exclude it only if one does |
| `Networks.BackwardsExcluded` | sner/server/scheduler/core.py:141-165 | an enumeration whose bounds are the wrong way round is excluded by a network that shares no address with it |
| `Networks.MatchAllOutcome` | sner/server/scheduler/core.py:101-107 | the first rule that is not clear decides; only a malformed enumeration raises |
| `Networks.RaisedOnly` | sner/server/scheduler/core.py:141-154 | a rule raises exactly when it is a network and the target is an enumeration with a malformed bound |
| `Enumeration.EnumerateNetwork` | sner/server/scheduler/core.py:34-52 | all 2^bits addresses of a network, ascending, without gap or duplicate |
| `Enumeration.EnumerationComplete` | sner/server/scheduler/core.py:34-52 | an address is enumerated exactly when the network contains it |
| `Enumeration.EnumerationShares` | sner/server/scheduler/core.py:386-406 | an IPv4 network with prefix p <= 24 falls into 2^(24-p) networks of 256 addresses that are counted together |
| `Enumeration.CountedTogether` | sner/server/scheduler/core.py:386-406 | two addresses are counted together exactly when they share a network of 24 bits, or 48 in IPv6; services count as their hosts, enumerations as their first addresses, and every name by itself |
| `Enumeration.ProjectSixEnumTargets` | sner/server/planner/core.py:72-89 | the blocks of all hosts whose addresses are not made from hardware addresses |
| `Enumeration.Eui64Means` | sner/server/planner/core.py:77-80 | the addresses skipped are exactly those with ff:fe above their last 24 bits |
| `Enumeration.BlockCovers` | sner/server/planner/core.py:72-89 | a block covers its host and exactly the 65536 addresses that share its upper bits, all counted as the target is |
| `GaloisField.DoubleAdd` | sner/server/static/qrious/qrious.js:600-644 | doubling is linear over exclusive or |
| `GaloisTables.ExponentIsAlpha` | sner/server/static/qrious/qrious.js:600-617 | the exponent table lists the powers of the primitive element |
| `GaloisTables.LogIsInverse` | sner/server/static/qrious/qrious.js:627-644 | every non-zero element is the power its logarithm says |
| `ReedSolomon.TimesAlpha` | sner/server/static/qrious/qrious.js:787-800 | adding logarithms is the bitwise product of the field |
| `ReedSolomon.GeneratorRoots` | sner/server/static/qrious/qrious.js:964-986 | the generator vanishes at the first n powers of the primitive element and nowhere else |
| `ReedSolomon.GeneratorNonZero` | sner/server/static/qrious/qrious.js:964-986 | no coefficient of a generator is zero, so all have logarithms |
| `ReedSolomon.CodewordVanishes` | sner/server/static/qrious/qrious.js:781-806 | data followed by its check bytes vanishes at all n roots |
| `ReedSolomon.OnlyZeroVanishes` | sner/server/static/qrious/qrious.js:781-806 | a polynomial with n coefficients and n different roots is zero |
| `ReedSolomon.CheckBytesCharacterised` | sner/server/static/qrious/qrious.js:781-806 | the check bytes are exactly the n bytes that complete the data to a word divisible by the generator |
| `QrBlocks.TableSane` | sner/server/static/qrious/qrious.js:502-543 | every row of the block table is one that the encoder can handle |
| `QrBlocks.TableFits` | sner/server/static/qrious/qrious.js:502-543 | every entry fills the room that the geometry of its version leaves, in blocks of at most 255 bytes that correct what the level promises, and has more check bytes than the level below |
| `QrFrame.CapacityExact` | sner/server/static/qrious/qrious.js:696-711 | a message is within the capacity of a version exactly when mode, character count and bytes fit into the data bytes |
| `QrBlocks.BlocksAdjacent` | sner/server/static/qrious/qrious.js:808-828 | data and check blocks lie side by side in the buffer |
| `QrBlocks.SelectVersion` | sner/server/static/qrious/qrious.js:696-711 | the first version with room for the message, or the last one |
| `QrFrame.ModN` | sner/server/static/qrious/qrious.js:1534-1541 | the remainder modulo 255 for all arguments under 2^31, and beyond exactly when neither the rounding nor the 32-bit operators lose anything that matters |
| `QrFrame.ModNDiffers` | sner/server/static/qrious/qrious.js:1534-1541 | at 2^32 the reduction gives 0 where the remainder is 1; at 255 * 2^48 it gives -1 where the remainder is 0, by rounding |
| `QrFrame.Frame.CalculatePolynomial` | sner/server/static/qrious/qrious.js:964-986 | the logarithms of the coefficients of the product of (x + alpha^i), built in place |
| `QrFrame.Frame.MultiplyInPlace` | sner/server/static/qrious/qrious.js:970-980 | one factor multiplied into the polynomial in place |
| `QrFrame.Frame.AppendData` | sner/server/static/qrious/qrious.js:781-806 | the shift register leaves the remainder of the division and touches nothing else |
| `QrFrame.Frame.AppendEccToData` | sner/server/static/qrious/qrious.js:808-828 | every data block gets its check bytes, and no data byte changes |
| `QrFrame.Frame.InterleaveBlocks` | sner/server/static/qrious/qrious.js:1238-1270 | the output holds every byte of the blocks at its interleaved place |
| `QrInterleaving.SourcePlaceInverse` | sner/server/static/qrious/qrious.js:1238-1270 | interleaving is a permutation of all indices up to the total length |
| `QrInterleaving.Deinterleave` | sner/server/static/qrious/qrious.js:1238-1270 | reading at the place of each byte recovers all data and check blocks |
| `QrInterleaving.InterleavedInOrder` | sner/server/static/qrious/qrious.js:1238-1270 | data bytes come before check bytes, earlier bytes of a block before later ones, then block by block |
| `QrFrame.Frame.Repack` | sner/server/static/qrious/qrious.js:1077-1127 | the bytes of the message moved by half a byte in place |
| `QrFrame.Frame.Pad` | sner/server/static/qrious/qrious.js:1128-1136 | the pad bytes alternate 0xec and 0x11 up to the data length |
| `QrFrame.Frame.ConvertBitStream` | sner/server/static/qrious/qrious.js:1077-1137 | the data bytes read back as mode 4, the length and the message, padded |
| `QrFrame.Frame.FittingMeans` | sner/server/static/qrious/qrious.js:1088-1096 | the whole message, or as many of its bytes as there is room for |
| `QrBitStream.ReadsBack` | sner/server/static/qrious/qrious.js:1077-1137 | header and repacked bytes read back as the message |
| `QrFrame.Frame.constructor` | sner/server/static/qrious/qrious.js:685-757 | the interleaved bytes fill the symbol of the first version with room for the message, and come apart into data blocks that hold it, each a codeword with its check bytes |
| `QrMask.MaskBitInjective` | sner/server/static/qrious/qrious.js:1517-1532 | two modules share a bit of the mask exactly when they are the same unordered pair |
| `QrMask.Drawing.SetMask` | sner/server/static/qrious/qrious.js:1485-1489 | reserves a module and its mirror image and no other |
| `QrMask.Drawing.IsMasked` | sner/server/static/qrious/qrious.js:1404-1408 | whether a module is reserved |
| `QrMask.Drawing.ApplyMask` | sner/server/static/qrious/qrious.js:830-958 | the counter loops flip exactly the modules that are not reserved and meet the condition of the mask |
| `QrMask.MaskTwice` | sner/server/static/qrious/qrious.js:830-958 | a mask applied twice is the identity, and reserved modules never change |
| `QrMask.Drawing.SelectMask` | sner/server/static/qrious/qrious.js:1167-1203 | the saved frame with the first mask of least penalty below 30000 applied, before the format bits |
| `CborRoundTrip.ReadEncoded` | sner/server/static/cbor/cbor.js:30-181 | reading the encoding of a value at any place of any input gives what the value decodes to and stops at its end |
| `CborRoundTrip.DecodedUnchanged` | sner/server/static/cbor/cbor.js:115-145 | exactly the values with well-formed text and distinct ordinary keys decode to themselves |
| `CborRoundTrip.RoundTrip` | sner/server/static/cbor/cbor.js:186-395 | decoding an encoding consumes exactly it whatever follows; the value comes back if and only if it is well-formed |
| `CborRoundTrip.Unambiguous` | sner/server/static/cbor/cbor.js:30-181 | no encoding is a proper prefix of another, and different values have different encodings |
| `CborRoundTrip.HeadShortest` | sner/server/static/cbor/cbor.js:82-98 | no head of any form says the same in fewer bytes |
| `CborRoundTrip.PairsUnchanged` | sner/server/static/cbor/cbor.js:115-145 | exactly the texts of units under 0xd800 and surrogate pairs survive both conversions |
| `CborRoundTrip.FieldsKept` | sner/server/static/cbor/cbor.js:367-371 | no entry of an object is dropped or overwritten exactly when the keys are new, distinct and ordinary |
| `CborRoundTrip.PutMeans` | sner/server/static/cbor/cbor.js:367-371 | an assignment to a property replaces its value in its place or adds it at the end, and changes nothing else |
| `CborRoundTrip.Lost` | sner/server/static/cbor/cbor.js:130-141 | a private-use character, a lone surrogate and an entry named __proto__ are lost |
| `CborForms.ReadArrayOpen` | sner/server/static/cbor/cbor.js:354-365 | an array of indefinite length reads as one of definite length |
| `CborForms.ReadObjectOpen` | sner/server/static/cbor/cbor.js:366-372 | an object of indefinite length reads as one of definite length |
| `CborForms.ReadBinaryInChunks` | sner/server/static/cbor/cbor.js:329-345 | a byte string in chunks reads as the chunks put together |
| `CborForms.ReadTextInChunks` | sner/server/static/cbor/cbor.js:346-353 | a text in chunks reads as the chunks put together |
| `CborForms.ReadTagged` | sner/server/static/cbor/cbor.js:373-374 | a tag does not change what it is put on |
| `CborForms.ReadFloat` | sner/server/static/cbor/cbor.js:309-318 | numbers of two, four and eight bytes |
| `CborForms.ReadBadHead` | sner/server/static/cbor/cbor.js:245-259 | reserved heads, and open lengths where they must not be, are errors |
| `CborForms.ItemExtends` | sner/server/static/cbor/cbor.js:186-395 | what is read is read again whatever follows: reading looks at no byte behind the item |
| `CborForms.Truncated` | sner/server/static/cbor/cbor.js:186-395 | no encoding whose end is missing decodes |
| `CborForms.HeadExamples` | sner/server/static/cbor/cbor.js:82-98 | heads of appendix A of RFC 8949 |
| `CborForms.LongHeadExample` | sner/server/static/cbor/cbor.js:73-98 | a head of nine bytes of appendix A of RFC 8949 |
| `CborForms.SimpleExamples` | sner/server/static/cbor/cbor.js:100-173 | encodings of appendix A of RFC 8949 |
| `CborForms.TextExamples` | sner/server/static/cbor/cbor.js:115-145 | texts of appendix A of RFC 8949 |
| `CborForms.NestedExamples` | sner/server/static/cbor/cbor.js:153-172 | arrays and objects byte by byte |
| `CborEncoder.GrowthEnds` | sner/server/static/cbor/cbor.js:36-40 | the growth loop ends if and only if the required length is at most 2^30 |
| `CborEncoder.Encoder.PrepareWrite` | sner/server/static/cbor/cbor.js:36-52 | makes room and keeps all written bytes across a copy by words of four bytes |
| `CborEncoder.Encoder.WriteTypeAndLength` | sner/server/static/cbor/cbor.js:82-98 | appends the shortest head |
| `CborEncoder.Encoder.Utf8` | sner/server/static/cbor/cbor.js:115-141 | the loop over code units collects the bytes of the text |
| `CborEncoder.Encoder.EncodeItem` | sner/server/static/cbor/cbor.js:100-173 | appends exactly the encoding of the value, however often the buffer grows |
| `CborEncoder.Encode` | sner/server/static/cbor/cbor.js:30-184 | the bytes of a value are its encoding |
| `CborDecoder.Decoder.ReadLength` | sner/server/static/cbor/cbor.js:245-259 | the argument of a head, in all forms and errors |
| `CborDecoder.Decoder.ReadCodePoint` | sner/server/static/cbor/cbor.js:271-291 | one character of one to four bytes, or an error exactly when the input ends inside it |
| `CborDecoder.Decoder.AppendUtf16Data` | sner/server/static/cbor/cbor.js:270-300 | the units of the characters that start in the given bytes |
| `CborDecoder.Decoder.DecodeItem` | sner/server/static/cbor/cbor.js:302-389 | a data item of any form, nested to any depth, as the reading functions say, and an error exactly where they fail |
| `CborDecoder.Decoder.DecodeFields` | sner/server/static/cbor/cbor.js:366-372 | the entries of an object, of definite or indefinite length, with keys of any kind |
| `CborDecoder.Decode` | sner/server/static/cbor/cbor.js:391-395 | a whole input is one item and nothing after it |
| `CborDecoder.EncodeThenDecode` | sner/server/static/cbor/cbor.js:30-395 | the two programs in a row: never an error, and the value comes back if and only if it is well-formed |
| `ParsedItems.MergeMonoid` | sner/server/parser.py:36-51 | updates compose however they are grouped; an update with nothing to say changes nothing |
| `ParsedItems.MergeMeans` | sner/server/parser.py:36-51 | an update leaves what it does not say, adds lists at the end, and stores every other new value |
| `ParsedItems.UpsertMeans` | sner/server/parser.py:128-140 | an upsert does that to the item with the key and to no other, or appends one |
| `ParsedItems.UpsertKeeps` | sner/server/parser.py:128-140 | numbers stay positions, keys stay unique, and only the item with the key is updated |
| `ParsedItems.ParsedItemsDb.UpsertHost` | sner/server/parser.py:128-140 | the table after an upsert, attribute by attribute, and the number of the host with the address |
| `ParsedItems.ParsedItemsDb.UpsertService` | sner/server/parser.py:142-155 | the service is on the host with the address; both tables attribute by attribute |
| `ParsedItems.ParsedItemsDb.UpsertVuln` | sner/server/parser.py:157-177 | the vulnerability and its service are on the host with the address; all tables attribute by attribute |
| `ParsedItems.ParsedItemsDb.UpsertNote` | sner/server/parser.py:179-193 | the note and its service are on the host with the address; all tables attribute by attribute |
| `ParsedItems.TarpitsGone` | sner/server/planner/core.py:92-112 | exactly the hosts with more services than the threshold go, with everything on them, and no reference dangles |
| `ParsedItems.ParsedItemsDb.FilterTarpits` | sner/server/planner/core.py:92-112 | counting and removing in place leave the database without tarpits |
| `StorageView.Superseded` | sner/server/storage/core.py:380-459 | an import makes no difference before another one with all its items |
| `StorageView.ImportTwice` | sner/server/storage/core.py:380-459 | importing the same data twice is importing it once |
| `StorageView.NewKeys` | sner/server/storage/core.py:380-459 | an import adds exactly the keys of its items |
| `StorageView.ImportGrows` | sner/server/storage/models.py:48-54 | no row is lost, no value that is not empty gets empty, no tag is lost |
| `StorageView.LastPutStored` | sner/server/storage/models.py:48-54 | the last non-empty value of a column is the one that is stored |
| `StorageView.NamesStored` | sner/server/storage/core.py:396-401 | host names are added to those in the note of host names |
| `StorageView.AgainRaises` | sner/server/storage/core.py:396-401 | a second import raises if and only if host names meet a note that is not a list of scalars |
| `StorageImport.RaisesWhen` | sner/server/storage/core.py:396-401 | an import of items raises if and only if, before it, some host with names has a note of host names that is not a list of scalars |
| `StorageImport.ImportStores` | sner/server/storage/core.py:380-459 | after an import that does not raise, every item has a row with its address, port, name, type and via, its tags, and every column that it fills in; columns it does not fill in and rows no item is about are as they were; host names join the note of them |
| `StorageImport.ImportIdempotent` | sner/server/storage/core.py:380-459 | importing parsed items twice is importing them once, and exactly when the second time raises |
| `StorageImport.AgainFails` | sner/server/storage/core.py:396-401 | a database whose second import raises although the first succeeds |
| `StorageImport.RehearsalExact` | sner/server/storage/core.py:341-377 | the dry run reports exactly the hosts, services and vulnerabilities that the import creates, and all notes but those of host names |
| `Storage.Database.Find` | sner/server/storage/core.py:296-335 | a join on a natural key finds the only row with it, or none exactly when there is none |
| `Storage.Database.Upsert` | sner/server/storage/core.py:385-394 | adds or updates the one row of a natural key |
| `Storage.Database.MergeNames` | sner/server/storage/core.py:396-401 | merges host names, or fails exactly when the note is not a list of scalars |
| `Storage.Database.ImportParsed` | sner/server/storage/core.py:380-459 | the loops over rows do what the operations on natural keys say, keep one row for each key, and fail exactly when a host with names has a note in the way that is not a list of scalars; otherwise every item is stored as ImportStores says |
| `Storage.Database.ImportParsedDry` | sner/server/storage/core.py:341-377 | reports exactly the keys that items are about and that no row has, and changes nothing |

## Left out

- Scheduler: transactions, crashes between commits and races between a check and the lock; the lock that an uncaught
  error leaves taken; output files, archiving and parsing of job output; the time limit of the lock.
- Agent: running modules, packing files, signals and the validation of assignments; the schedule of the network is a
  finite list of tries, at whose end the agent may still be trying.
- Networks: parsing of addresses and the regular expressions of targets, which are parameters; the text form of a hash.
- QR: finder, alignment, timing, version and format drawing, packing of the bits into the frame, the scoring of masks
  and rendering.
- CBOR: floating-point numbers beyond their bytes, so that two forms of one number differ; tags and simple values with
  callbacks, which the defaults ignore; what an assignment to `__proto__` does to the prototype; the reordering of keys
  that look like integers; and the argument limit of `String.fromCharCode`.
- Storage: timestamps of the storage itself, the mandatory severity of a vulnerability, roll-back of a failed import,
  reports other than the import and its dry run. Order in lists of host names and tags is not kept.
- Planner stages other than the tarpit filter and the enumeration of blocks: they gather targets in keyed buffers and
  hand them to queues when a time has passed. Other routes page, filter and annotate rows. User interface, schema
  migrations, version and vulnerability search are not part of this model.
- Agent.Serve: states only that the service stays valid and its history grows, because each request's effect is stated
  by the method of the service that it calls.
- QrFrame.Frame.constructor: does not model the drawing calls, only the bytes that go into the frame, and no message
  units above 0xff.
- QrFrame.Frame.ConvertBitStream: does not model message units above 0xff; the encoder is for characters of 8 bits
  (the comment at `sner/server/static/qrious/qrious.js:1082`), and larger ones spill into neighbouring bytes.
