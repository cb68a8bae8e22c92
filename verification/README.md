# Azure IoT Edge: storage, twin synchronisation and codecs, verified

A Dafny 4.11 model of the parts of Azure IoT Edge that keep data: the queue and
the key/value stores that messages are kept in, the replica of the device twin
that the agent works from, backup and memory limits of the in-memory store, the
metrics byte format, the Kubernetes name sanitizers, and the reconciliation of
module identities. `dafny verify dfyconfig.toml` checks all of it.

## Components

| file | modules | what it models |
|---|---|---|
| `ConcurrentQueue.dfy` | `ConcurrentQueue`, `ConcurrentRemovals` | `SequentialStore` as a step machine: any number of calls, split at every await; crash and reopen; removals from the middle beside them |
| `SequentialStore.dfy` | `SequentialQueue`, `SequentialStore` | the same queue as operations on values, and as an object over byte keys |
| `EntityStore.dfy` | `EntityStore`, `ConcurrentEntityStore`, `AsyncLockProvider` | read-modify-write on one key, sequentially and under striped locks |
| `InMemoryDbStore.dfy` | `OrderedEntries`, `InMemoryDbStore` | the insertion-ordered in-memory store and the typed mapper above it |
| `StoreUtils.dfy`, `Bytes.dfy` | `StoreUtils`, `Bytes` | offset keys, host byte order |
| `JsonEx.dfy` | `JsonEx` | `Merge` and `Diff` |
| `TwinSync.dfy` | `TwinSync` | `EdgeAgentConnection` against a hub with a history, over a network that loses, repeats and reorders |
| `BackupRestore.dfy` | `PartitionNames`, `BackupDisk`, `BackupRestore` | backup and restore against a disk on which any operation may fail |
| `MemoryAccounting.dfy` | `MapSums`, `MemorySpaceChecker`, `MemoryAccounting`, `ConcurrentLimit`, `ConcurrentAccounting` | size accounting and the shared memory limit |
| `MetricsSerializer.dfy` | `MetricsSerializer` | the metrics byte format |
| `KubeUtils.dfy` | `KubeUtils` | the name sanitizers |
| `ModuleIdentities.dfy` | `ModuleSets`, `ModuleIdentityNames`, `ModuleIdentities` | module set difference and identity reconciliation |

An object whose methods change its fields is a class with those methods; its
contracts equate the new state with a function of the old state, and the laws
are proved about that function. What runs concurrently is a step function on a
state, with an event for everything that can happen next; an event that is not
possible changes nothing, so every sequence of events is a run.

Where a promise does not hold of the code, the code is modelled as it is. A
lemma gives an input that shows it (in brackets), and another says exactly when
the promise holds:

- `Merge` copies a patch sub-object verbatim, nulls included, when it lands on
  something that is not an object (`DeletionInMissingObjectIsCopied`). It is the
  MergePatch of RFC 7396, and idempotent, exactly when no such sub-object holds a null.
- `Diff` cannot express a null as a value (`NullPropertyIsNotDiffed`, `MergeInvertsDiff`).
- A removal at the front behind which there is a hole loses the front of the
  queue until the store is opened again (`MiddleThenFirstLosesHead`, `HeadIsLostIff`).
- A batch whose start plus size overflows 32 bits is empty (`LargestBatchIsEmpty`,
  `BatchOfHoleFreeQueue`, `BatchWithHoles`).
- Keys whose hash codes differ between equal keys lose updates
  (`UnequalShardsLoseAnUpdate`, `SerialisableIffShardedByKey`).
- The plain `Remove` takes no lock, and can fall between the read and the write of
  another call (`PlainRemoveBreaksAnIncrement`, `PlainRemoveIsSerialIff`).
- Removal from the middle of the queue takes no lock, so that two calls can both
  return true for one entry (`EntryCanBeReportedTwice`, `EntryIsReportedOnceIff`).
- Puts into different partitions overshoot the memory limit together
  (`OvershootIsAttained`, `OneEntryBoundIff`).
- A partition named like `$Default` in another spelling is restored under
  `$Default` (`OtherSpellingIsRenamed`, `RestoreReproducesIff`).
- A request for a partition with a blank name fails, but is recorded, and makes
  later backups fail (`BlankNameFailsBackup`, `Leaves`).
- A backup that fails late can leave nothing to restore, although an older backup
  was there (`FailedListingLosesBackups`, `OldBackupStaysIff`).
- A negative count in a metrics file can send the reader round for ever
  (`ReaderCanLoopForever`, `RunsForeverIff`).
- A text that takes more bytes than characters is written with too short a length,
  and its group is read under another name (`AccentedNameIsNotReadBack`,
  `GroupIsReadUnderCutName`).
- The lists of a module set difference can mislead for modules under keys that
  are not their names (`MisnamedStatusChangeIsListedTwice`, `DiffIsRightIff`).
- An unknown module counts as changed in its status even beside itself, so that the
  difference of equal sets need not be empty (`UnknownModuleIsAlwaysListed`,
  `DiffIsEmptyIffEqual`).
- A module named like a system identity can make reconciliation return nothing
  (`ReplacingASystemModuleFails`, `GetModuleIdentities`).

The comments in `KubeUtils.cs` say that names and label values must start with a
letter; the code accepts a digit as well, and the model follows the code.

## Assumptions about what is not modelled

- Lower-casing works character by character, leaves lower-case letters, digits,
  `-`, `.` and `_` alone and never yields A to Z (`LowersAscii`).
- Value serialisers, tag serialisers and config parsers are parameters. The
  mapper needs its value mapper to invert; the metrics round trip needs the text
  and tags of the metrics at hand to be read back, one byte per character. A tags
  text is read as tags, as null, as JSON of another shape, or as no JSON.
- Float tokens are compared exactly.
- Each disk operation happens completely or not at all; opening the metadata file
  for writing and filling it are two operations. A new backup id names no existing
  directory and is not in the metadata.
- The percentage of memory used is an exact rational.
- The identity service creates and deletes what it is asked to, and refuses to
  update an identity that is not there.
- Counts and lengths that the code keeps in 32 bits fit; where an overflow can
  happen in reach of a caller (batches, counts read from bytes) it is modelled.

## Model

| member | source | states |
|---|---|---|
| `ConcurrentQueue.EveryInterleavingIsFifo` | edge-util/src/Microsoft.Azure.Devices.Edge.Storage/SequentialStore.cs:68-160 | over every interleaving of any number of `Append` and `RemoveFirst` calls, split at each await and each access to an offset, the stored offsets are exactly head..tail up to one Put and one Remove in flight; what was removed followed by what is stored is what was there at the start followed by what was appended, in the order of consecutive offsets |
| `ConcurrentQueue.EveryCallReportsItsEffect` | edge-util/src/Microsoft.Azure.Devices.Edge.Storage/SequentialStore.cs:68-160 | a finished `Append` returned the offset under which its own item was stored, and no other entry is its; a `RemoveFirst` that returned true took exactly one entry, one that returned false took none; the entry at the head is always found although the tail offset is read without its lock |
| `ConcurrentQueue.RunKeepsInv` | edge-util/src/Microsoft.Azure.Devices.Edge.Storage/SequentialStore.cs:68-160 | the invariant behind the two rows above (lock exclusion, logs, store, what each call knows, who owns each effect) holds after every run |
| `ConcurrentQueue.AppendAlone` | edge-util/src/Microsoft.Azure.Devices.Edge.Storage/SequentialStore.cs:68-78 | an append that nobody interleaves with leaves the queue and returns the offset that the sequential append does |
| `ConcurrentQueue.RemoveFirstAlone` | edge-util/src/Microsoft.Azure.Devices.Edge.Storage/SequentialStore.cs:118-160 | a removal that nobody interleaves with leaves the queue and returns what the sequential removal does, on an empty queue and on one with a hole at the head too |
| `ConcurrentQueue.CrashAndReopen` | edge-util/src/Microsoft.Azure.Devices.Edge.Storage/SequentialStore.cs:39-78 | stopping at any point of any interleaving and opening the surviving store gives a queue without holes with the same items in order, under the same offsets when it is not empty, as long as they fit in 64 bits; a Put that took effect counts as appended, a Remove that took effect as removed |
| `ConcurrentRemovals.EntryIsReportedOnceIff` | edge-util/src/Microsoft.Azure.Devices.Edge.Storage/SequentialStore.cs:80-160 | with removals from the middle beside the other calls, over every run from a queue without holes: at every point, and whichever call goes on from there, each entry is reported by one call at most, exactly when no entry is ever taken that another call has found and not decided about |
| `ConcurrentRemovals.EntryCanBeReportedTwice` | edge-util/src/Microsoft.Azure.Devices.Edge.Storage/SequentialStore.cs:100-115 | an input for the contrary: a removal from the middle finds the second of three entries, two removals from the front take the first two, and the removal from the middle then returns true as well |
| `ConcurrentRemovals.FrontsDoNotClash` | edge-util/src/Microsoft.Azure.Devices.Edge.Storage/SequentialStore.cs:118-160 | two removals from the front never find one entry at the same time, so one of two calls that report an entry twice is a removal from the middle |
| `ConcurrentRemovals.RemoveOffsetAlone` | edge-util/src/Microsoft.Azure.Devices.Edge.Storage/SequentialStore.cs:100-115 | a removal from the middle that nobody interleaves with leaves the queue and returns what the sequential removal does |
| `SequentialStore.SequentialStore.Create` | edge-util/src/Microsoft.Azure.Devices.Edge.Storage/SequentialStore.cs:39-50 | opening gives head and tail from the first and last entry, or the default when the store is empty |
| `SequentialStore.SequentialStore.Append` | edge-util/src/Microsoft.Azure.Devices.Edge.Storage/SequentialStore.cs:68-78 | over byte keys in the mapped store, does what `Appended` does on offsets; an offset that wraps below zero is refused |
| `SequentialStore.SequentialStore.RemoveOffset` | edge-util/src/Microsoft.Azure.Devices.Edge.Storage/SequentialStore.cs:80-116 | does what `OffsetRemoved` does: head, empty, tail and middle branch, refusal of negative offsets |
| `SequentialStore.SequentialStore.RemoveFirst` | edge-util/src/Microsoft.Azure.Devices.Edge.Storage/SequentialStore.cs:118-130 | does what `FirstRemoved` does |
| `SequentialStore.SequentialStore.RemoveEnd` | edge-util/src/Microsoft.Azure.Devices.Edge.Storage/SequentialStore.cs:132-160 | does what `EndRemoved` does at either end |
| `SequentialStore.SequentialStore.GetBatch` | edge-util/src/Microsoft.Azure.Devices.Edge.Storage/SequentialStore.cs:162-189 | returns what `GetBatch` on the abstract queue returns, through the mapper and the snapshot iterator |
| `SequentialStore.SequentialStore.CollectBatch` | edge-util/src/Microsoft.Azure.Devices.Edge.Storage/SequentialStore.cs:181-187 | the callback collects every entry under its offset, in order |
| `SequentialQueue.StepKeepsWellFormedIffNoWrap` | edge-util/src/Microsoft.Azure.Devices.Edge.Storage/SequentialStore.cs:68-160 | one operation keeps head <= tail + 1, every stored offset in head..tail and insertion order equal to offset order, exactly when it does not take an entry at the largest 64-bit offset |
| `SequentialQueue.RunKeepsWellFormed` | edge-util/src/Microsoft.Azure.Devices.Edge.Storage/SequentialStore.cs:68-160 | after every run that never takes an entry at that offset, `RemoveOffset` anywhere included, the queue is well-formed and the first and last entries carry the least and greatest offset |
| `SequentialQueue.RunStaysWellFormedIffNeverWraps` | edge-util/src/Microsoft.Azure.Devices.Edge.Storage/SequentialStore.cs:68-160 | a run is well-formed at every point exactly when no operation of it takes an entry at the largest offset; a run with too few operations to get there never does |
| `SequentialQueue.HoleFreeQueueIsFifo` | edge-util/src/Microsoft.Azure.Devices.Edge.Storage/SequentialStore.cs:68-160 | without holes, append adds at the back under tail + 1 and an accepted removal takes the front |
| `SequentialQueue.StepKeepsHoleFreeIff` | edge-util/src/Microsoft.Azure.Devices.Edge.Storage/SequentialStore.cs:80-160 | an operation on a queue without holes leaves one exactly when it does not take a middle entry (or wrap the head) |
| `SequentialQueue.RunStaysHoleFreeIffNeverPunches` | edge-util/src/Microsoft.Azure.Devices.Edge.Storage/SequentialStore.cs:68-160 | a run is without holes at every point exactly when no operation of it takes a middle entry (or wraps the head) |
| `SequentialQueue.RemoveOffsetTakesExactlyThatEntry` | edge-util/src/Microsoft.Azure.Devices.Edge.Storage/SequentialStore.cs:80-116 | for any offset and any well-formed queue: true is returned exactly when the entry is there and accepted, only it is removed, and the head or the tail moves only when it was that end; a negative offset is refused unless the queue is empty |
| `SequentialQueue.HeadIsLostIff` | edge-util/src/Microsoft.Azure.Devices.Edge.Storage/SequentialStore.cs:80-160 | one operation on a well-formed queue leaves a head offset without an entry, although the queue is not empty, exactly when it takes the entry at the head and the next offset is a hole |
| `SequentialQueue.RunLosesHeadIff` | edge-util/src/Microsoft.Azure.Devices.Edge.Storage/SequentialStore.cs:68-160 | after a run the head is lost exactly when some operation of the run lost it |
| `SequentialQueue.MiddleThenFirstLosesHead` | edge-util/src/Microsoft.Azure.Devices.Edge.Storage/SequentialStore.cs:100-115 | an input for it: three entries, a removal in the middle, then one at the front leave a head offset without an entry |
| `SequentialQueue.LostHeadIsNeverRecovered` | edge-util/src/Microsoft.Azure.Devices.Edge.Storage/SequentialStore.cs:100-147 | from then on, over every run, the head offset does not move and no removal from the front succeeds |
| `SequentialQueue.ReopenRecoversHead` | edge-util/src/Microsoft.Azure.Devices.Edge.Storage/SequentialStore.cs:39-50 | reopening keeps the entries, is well-formed and never starts with a lost head; a non-empty queue without holes comes back unchanged |
| `SequentialQueue.BatchOfHoleFreeQueue` | edge-util/src/Microsoft.Azure.Devices.Edge.Storage/SequentialStore.cs:162-189 | without holes a batch is the slice of at most n consecutive entries from max(start, head), empty past the tail, and empty when its end overflows 32 bits |
| `SequentialQueue.BatchWithHoles` | edge-util/src/Microsoft.Azure.Devices.Edge.Storage/SequentialStore.cs:162-189 | with holes a batch is the first n entries at or after the start exactly when there are none, or the start itself is stored and the end of the batch can be computed in 32 bits; otherwise it is empty |
| `SequentialQueue.BatchIsRefusedIff` | edge-util/src/Microsoft.Azure.Devices.Edge.Storage/SequentialStore.cs:162-189 | on a well-formed queue a batch is refused exactly when less than one entry is asked for |
| `SequentialQueue.LargestBatchIsEmpty` | edge-util/src/Microsoft.Azure.Devices.Edge.Storage/InMemoryDbStore.cs:128-139 | an input for the overflow: the largest batch from the second of two entries is empty, one smaller it holds the entry |
| `SequentialStore.HostCodecIsLawful` | edge-util/src/Microsoft.Azure.Devices.Edge.Storage/StoreUtils.cs:11-35 | on either kind of host negative offsets are refused and decoding inverts encoding on all others |
| `StoreUtils.KeyIsBigEndian` | edge-util/src/Microsoft.Azure.Devices.Edge.Storage/StoreUtils.cs:24-35 | on little- and big-endian hosts the key is the eight bytes of the offset, most significant first |
| `StoreUtils.OffsetOfKey` | edge-util/src/Microsoft.Azure.Devices.Edge.Storage/StoreUtils.cs:11-35 | decoding inverts encoding for every offset in 0..2^63-1, across hosts of different byte order too |
| `StoreUtils.KeyOfOffset` | edge-util/src/Microsoft.Azure.Devices.Edge.Storage/StoreUtils.cs:11-35 | every eight-byte key with a clear top bit is the key of exactly the offset it decodes to |
| `StoreUtils.KeyOrder` | edge-util/src/Microsoft.Azure.Devices.Edge.Storage/StoreUtils.cs:24-35 | byte-lexicographic order of keys is numeric order of offsets, and keys are equal exactly for equal offsets |
| `OrderedEntries.PutActsOnOneKey` | edge-util/src/Microsoft.Azure.Devices.Edge.Storage/InMemoryDbStore.cs:100-113 | a put changes the value under its key only and keeps keys distinct |
| `OrderedEntries.RemoveActsOnOneKey` | edge-util/src/Microsoft.Azure.Devices.Edge.Storage/InMemoryDbStore.cs:115-121 | a removal changes the value under its key only and keeps keys distinct |
| `OrderedEntries.PutKeepsOrder` | edge-util/src/Microsoft.Azure.Devices.Edge.Storage/InMemoryDbStore.cs:100-113 | a put of a known key replaces its value in place, and a new key goes last |
| `OrderedEntries.RemoveKeepsOrder` | edge-util/src/Microsoft.Azure.Devices.Edge.Storage/InMemoryDbStore.cs:115-121 | a removal takes the entry of its key and leaves the others in order |
| `InMemoryDbStore.InMemoryDbStore.Get` | edge-util/src/Microsoft.Azure.Devices.Edge.Storage/InMemoryDbStore.cs:44-53 | returns the value stored under the key, if any |
| `InMemoryDbStore.InMemoryDbStore.Put` | edge-util/src/Microsoft.Azure.Devices.Edge.Storage/InMemoryDbStore.cs:100-113 | a new key goes last, a known key keeps its position |
| `InMemoryDbStore.InMemoryDbStore.Remove` | edge-util/src/Microsoft.Azure.Devices.Edge.Storage/InMemoryDbStore.cs:115-121 | removes the entry and keeps the order of the others |
| `InMemoryDbStore.InMemoryDbStore.GetFirstEntry` | edge-util/src/Microsoft.Azure.Devices.Edge.Storage/InMemoryDbStore.cs:78-87 | returns the oldest entry, if any |
| `InMemoryDbStore.InMemoryDbStore.GetLastEntry` | edge-util/src/Microsoft.Azure.Devices.Edge.Storage/InMemoryDbStore.cs:89-98 | returns the newest entry, if any |
| `InMemoryDbStore.InMemoryDbStore.IterateBatch` | edge-util/src/Microsoft.Azure.Devices.Edge.Storage/InMemoryDbStore.cs:55-60 | the callback sees the batch from the front |
| `InMemoryDbStore.InMemoryDbStore.IterateBatchFrom` | edge-util/src/Microsoft.Azure.Devices.Edge.Storage/InMemoryDbStore.cs:62-76 | the callback sees the batch from the position of the start key, nothing when the key is absent |
| `InMemoryDbStore.InMemoryDbStore.IterateSnapshot` | edge-util/src/Microsoft.Azure.Devices.Edge.Storage/InMemoryDbStore.cs:128-139 | the loop visits the entries up to a bound computed in wrapping 32-bit arithmetic |
| `InMemoryDbStore.BatchIsSliceUnlessOverflow` | edge-util/src/Microsoft.Azure.Devices.Edge.Storage/InMemoryDbStore.cs:128-139 | that batch is a slice of at most batchSize entries unless index + batchSize overflows; then it is empty |
| `InMemoryDbStore.KeyValueStoreMapper.Get` | edge-util/src/Microsoft.Azure.Devices.Edge.Storage/KeyValueStoreMapper.cs:46-51 | returns the mapped value under the key |
| `InMemoryDbStore.KeyValueStoreMapper.Put` | edge-util/src/Microsoft.Azure.Devices.Edge.Storage/KeyValueStoreMapper.cs:43-44 | with a value mapper that inverts, is a put on the mapped entries |
| `InMemoryDbStore.KeyValueStoreMapper.Remove` | edge-util/src/Microsoft.Azure.Devices.Edge.Storage/KeyValueStoreMapper.cs:53-54 | is a removal on the mapped entries |
| `InMemoryDbStore.KeyValueStoreMapper.IterateBatchFrom` | edge-util/src/Microsoft.Azure.Devices.Edge.Storage/KeyValueStoreMapper.cs:71-88 | refuses a batch size below one, otherwise iterates the mapped entries from the key |
| `ConcurrentEntityStore.EveryInterleavingIsSerialisable` | edge-util/src/Microsoft.Azure.Devices.Edge.Storage/EntityStore.cs:49-136 | every interleaving of the locked calls is serialisable in lock-release order: each finished call returned what it returns when the calls run one at a time in that order, each key that no lock holder works on has the value they leave, and with no lock held the store is what they leave |
| `ConcurrentEntityStore.RunKeepsInv` | edge-util/src/Microsoft.Azure.Devices.Edge.Storage/EntityStore.cs:49-136 | the invariant behind the serialisability rows (one holder per key, what each call will store, the store equal to what the effects so far leave, outcomes in the order of effects) holds after every run in which each plain Remove is harmless |
| `ConcurrentEntityStore.WriteBackIsEffect` | edge-util/src/Microsoft.Azure.Devices.Edge.Storage/EntityStore.cs:63-136 | the write that follows a read is the call's effect on the value read, under its key only |
| `ConcurrentEntityStore.LastCallDecides` | edge-util/src/Microsoft.Azure.Devices.Edge.Storage/EntityStore.cs:49-136 | for the serial reference: a key has what the last call on it leaves there given what the calls before left (a Put its value, a Remove nothing, and so on, call by call), and that call returned what it should; with `KeyWithoutCall` this fixes the map |
| `ConcurrentEntityStore.KeyWithoutCall` | edge-util/src/Microsoft.Azure.Devices.Edge.Storage/EntityStore.cs:49-136 | a key that no call is on keeps its value |
| `ConcurrentEntityStore.CallAlone` | edge-util/src/Microsoft.Azure.Devices.Edge.Storage/EntityStore.cs:49-136 | each locked call that nobody interleaves with runs to its end whenever its lock is free, leaves and returns the same, and touches no other key or lock |
| `ConcurrentEntityStore.UnequalShardsLoseAnUpdate` | edge-util/src/Microsoft.Azure.Devices.Edge.Util/AsyncLockProvider.cs:38-39 | whenever one key can go to two shards, two increments from the start can both succeed and leave the effect of one |
| `ConcurrentEntityStore.SerialisableIffShardedByKey` | edge-util/src/Microsoft.Azure.Devices.Edge.Storage/EntityStore.cs:49-136 | every run of locked calls is serialisable in lock-release order exactly when equal keys always go to the same shard |
| `ConcurrentEntityStore.SerialisableWithLockProvider` | edge-util/src/Microsoft.Azure.Devices.Edge.Util/AsyncLockProvider.cs:31-40 | with the locks that `GetLock` gives: every run is, in lock-release order, exactly when the hash codes of equal keys fall on the same shard; so always when equal keys have equal hash codes, or with a single shard |
| `ConcurrentEntityStore.PlainRemoveIsSerialIff` | edge-util/src/Microsoft.Azure.Devices.Edge.Storage/EntityStore.cs:57-136 | with locks by key, a run from the start is serial in the order in which its calls take effect (at the write, or at the read when nothing is going to be stored), at every point and however the calls under way go on, exactly when no plain Remove falls between the read and the write of a call that it hurts; with no lock held the store is what the calls leave in that order |
| `ConcurrentEntityStore.HurtIff` | edge-util/src/Microsoft.Azure.Devices.Edge.Storage/EntityStore.cs:63-136 | between its read and its write, a plain Remove hurts exactly those calls that store or return something else than they would on a missing key: each `Update`, and a `PutOrUpdate` whose updated value is not its default one |
| `ConcurrentEntityStore.PlainRemoveBreaksAnIncrement` | edge-util/src/Microsoft.Azure.Devices.Edge.Storage/EntityStore.cs:57-58 | an input for it, from the start: a plain Remove between the read and the write of an increment; neither order of the two calls explains what they return and leave |
| `AsyncLockProvider.Shard` | edge-util/src/Microsoft.Azure.Devices.Edge.Util/AsyncLockProvider.cs:38 | every hash code, negative ones included, gives an index of an existing lock |
| `AsyncLockProvider.ShardsTakeTurns` | edge-util/src/Microsoft.Azure.Devices.Edge.Util/AsyncLockProvider.cs:38 | hash codes take the shards in turn, and the sign makes no difference |
| `AsyncLockProvider.AsyncLockProvider.constructor` | edge-util/src/Microsoft.Azure.Devices.Edge.Util/AsyncLockProvider.cs:16-29 | one lock per shard, all different |
| `AsyncLockProvider.AsyncLockProvider.GetLock` | edge-util/src/Microsoft.Azure.Devices.Edge.Util/AsyncLockProvider.cs:31-40 | two hash codes give the same lock exactly when they fall on the same shard |
| `EntityStore.EntityStore.Put` | edge-util/src/Microsoft.Azure.Devices.Edge.Storage/EntityStore.cs:49-55 | the key has the given value afterwards, whatever it had before, and no other key changes |
| `EntityStore.EntityStore.RemoveIf` | edge-util/src/Microsoft.Azure.Devices.Edge.Storage/EntityStore.cs:63-77 | removes and returns true exactly when the key is there and the predicate accepts its value; changes nothing otherwise |
| `EntityStore.EntityStore.Update` | edge-util/src/Microsoft.Azure.Devices.Edge.Storage/EntityStore.cs:82-93 | stores and returns the updated value, or fails and changes nothing when the key is missing |
| `EntityStore.EntityStore.PutOrUpdate` | edge-util/src/Microsoft.Azure.Devices.Edge.Storage/EntityStore.cs:98-119 | stores and returns the updated value, or the given one when the key is missing |
| `EntityStore.EntityStore.FindOrPut` | edge-util/src/Microsoft.Azure.Devices.Edge.Storage/EntityStore.cs:124-136 | returns the stored value, storing the given one only when the key is missing |
| `EntityStore.EntityStore.Remove` | edge-util/src/Microsoft.Azure.Devices.Edge.Storage/EntityStore.cs:57-58 | the key is gone and no other key changes |
| `JsonEx.Merge` | edge-util/src/Microsoft.Azure.Devices.Edge.Util/JsonEx.cs:14-89 | the loop computes `Merged`, or fails exactly when some path of object keys that baseline and patch share leads to a patch property of an unsupported type |
| `JsonEx.MergeProperty` | edge-util/src/Microsoft.Azure.Devices.Edge.Util/JsonEx.cs:60-84 | the branches for one property: recurse, delete, set or refuse |
| `JsonEx.Diff` | edge-util/src/Microsoft.Azure.Devices.Edge.Util/JsonEx.cs:14-174 | the two loops compute `Diffed`, or fail exactly when some path of object keys that both share leads to a property of either of an unsupported type |
| `JsonEx.DiffProperty` | edge-util/src/Microsoft.Azure.Devices.Edge.Util/JsonEx.cs:112-152 | the branches for one property of the first object |
| `JsonEx.DiffAdditions` | edge-util/src/Microsoft.Azure.Devices.Edge.Util/JsonEx.cs:154-173 | the second pass adds what only the second object has |
| `JsonEx.MergeInvertsDiff` | edge-util/src/Microsoft.Azure.Devices.Edge.Util/JsonEx.cs:46-174 | merging the diff of two tokens back into the first gives the second exactly when every null of the second, reached through keys where both sides are objects, is null in the first (non-objects: only when a non-object is replaced by the empty object) |
| `JsonEx.DiffThenMerge` | edge-util/src/Microsoft.Azure.Devices.Edge.Util/JsonEx.cs:46-174 | diffing two objects and merging the patch back into the first: it fails exactly when the diff does, so never between documents without a property of an unsupported type, and else gives the second exactly when no null would have to be introduced |
| `JsonEx.MergeIsMergePatchIffNullsLand` | edge-util/src/Microsoft.Azure.Devices.Edge.Util/JsonEx.cs:46-87 | with null as delete, Merge equals the MergePatch algorithm of section 2 of RFC 7396 exactly when every patch sub-object that holds a null lands on a baseline object |
| `JsonEx.MergeIsIdempotentIffNullsLand` | edge-util/src/Microsoft.Azure.Devices.Edge.Util/JsonEx.cs:46-87 | under exactly the same condition applying a patch twice is applying it once |
| `JsonEx.MergeKeepingNullsIsIdempotent` | edge-util/src/Microsoft.Azure.Devices.Edge.Util/JsonEx.cs:46-87 | with null kept as a value, applying a patch twice is always applying it once |
| `JsonEx.MergeKeepingNullsIsMergePatch` | edge-util/src/Microsoft.Azure.Devices.Edge.Util/JsonEx.cs:46-87 | with null kept as a value, Merge is the MergePatch of RFC 7396 on documents in which something else stands for null, whatever that is |
| `JsonEx.DeletionInMissingObjectIsCopied` | edge-util/src/Microsoft.Azure.Devices.Edge.Util/JsonEx.cs:46-87 | an input on which Merge is neither the standard nor idempotent: into an empty document, the patch that deletes a property of a missing object |
| `JsonEx.NullPropertyIsNotDiffed` | edge-util/src/Microsoft.Azure.Devices.Edge.Util/JsonEx.cs:99-174 | an input on which merging the diff back fails: from an empty document to one with a null property |
| `JsonEx.DiffIsEmptyIffEqual` | edge-util/src/Microsoft.Azure.Devices.Edge.Util/JsonEx.cs:99-174 | the diff of two objects names exactly the properties on which they differ, and is empty exactly when they are deep-equal |
| `JsonEx.DiffYieldsMergeablePatch` | edge-util/src/Microsoft.Azure.Devices.Edge.Util/JsonEx.cs:89-174 | whenever a diff succeeds, merging its patch meets no unsupported type |
| `JsonEx.MergeOfEmptyPatch` | edge-util/src/Microsoft.Azure.Devices.Edge.Util/JsonEx.cs:46-87 | the empty patch changes nothing |
| `TwinSync.ReplicaIsSafe` | edge-agent/src/Microsoft.Azure.Devices.Edge.Agent.IoTHub/EdgeAgentConnection.cs:242-344 | over every run with lost, repeated and reordered patches, failed and successful refetches and hub changes in between, the desired properties are absent or exactly the hub's document at their version, the config info is present exactly when they are and carries that version, and the version never decreases |
| `TwinSync.ReplicaIsSafeFromStart` | edge-agent/src/Microsoft.Azure.Devices.Edge.Agent.IoTHub/EdgeAgentConnection.cs:242-344 | the same from the start of the agent, between any two moments of a run |
| `TwinSync.InfoSpeaksOfReplica` | edge-agent/src/Microsoft.Azure.Devices.Edge.Agent.IoTHub/EdgeAgentConnection.cs:242-388 | over every run from the start: the config info carries the version of the replica's document and what that document itself parses to, or the error of an empty one when it has no property but the hub's two, or the error of a rejected patch exactly when one was rejected since the document came; the reported properties are those of the last reply that was stored |
| `TwinSync.StepKeepsConsistent` | edge-agent/src/Microsoft.Azure.Devices.Edge.Agent.IoTHub/EdgeAgentConnection.cs:242-344 | each single step keeps this |
| `TwinSync.NewestPatchConverges` | edge-agent/src/Microsoft.Azure.Devices.Edge.Agent.IoTHub/EdgeAgentConnection.cs:242-276 | handling the newest patch gives the hub's current document exactly when the patch merges (if contiguous) or the refetch succeeds or nothing was missing (if not), whatever was lost before |
| `TwinSync.RefreshReachesCurrent` | edge-agent/src/Microsoft.Azure.Devices.Edge.Agent.IoTHub/EdgeAgentConnection.cs:255-276 | a refresh by the timer brings the hub's current document, the reported properties of the reply and the config of that document |
| `TwinSync.UpdatedIsDeliverThenFetch` | edge-agent/src/Microsoft.Azure.Devices.Edge.Agent.IoTHub/EdgeAgentConnection.cs:242-252 | the handler is the delivery of a patch followed, if needed, by its refetch |
| `TwinSync.EdgeAgentConnection.OnDesiredPropertiesUpdated` | edge-agent/src/Microsoft.Azure.Devices.Edge.Agent.IoTHub/EdgeAgentConnection.cs:242-252 | applies the patch when its version is contiguous, refetches otherwise |
| `TwinSync.EdgeAgentConnection.RefreshTwin` | edge-agent/src/Microsoft.Azure.Devices.Edge.Agent.IoTHub/EdgeAgentConnection.cs:255-276 | stores a fetched twin and its config or error; changes nothing when the fetch failed |
| `TwinSync.EdgeAgentConnection.ApplyPatch` | edge-agent/src/Microsoft.Azure.Devices.Edge.Agent.IoTHub/EdgeAgentConnection.cs:328-344 | stores the merged document, or keeps the old one and records the failure under the old version |
| `TwinSync.EdgeAgentConnection.UpdateDeploymentConfig` | edge-agent/src/Microsoft.Azure.Devices.Edge.Agent.IoTHub/EdgeAgentConnection.cs:346-388 | records a parsed config; reports an empty or invalid one to the caller without changing anything |
| `BackupRestore.BackupThenRestore` | edge-util/src/Microsoft.Azure.Devices.Edge.Storage/DbStoreProviderWithBackupRestore.cs:76-203 | closing one provider on a disk where any operation may fail, and starting the next without disk failure: the next has the old backup, what the new one restores to in the listed order, or nothing, exactly as `Survives` tells; the partitions that were open come back entry for entry, empty ones included, exactly when none is named like the default one in another spelling; every intermediate disk state was safe and no backup is left; every restored partition is tracked for the next backup |
| `BackupRestore.TwoRestarts` | edge-util/src/Microsoft.Azure.Devices.Edge.Storage/DbStoreProviderWithBackupRestore.cs:52-203 | close, start, close, start: the second restart changes nothing, and when the disk does not fail and no blank name was asked for, the last provider has the partitions of the first exactly when none is named like the default one in another spelling |
| `BackupRestore.Restart` | edge-util/src/Microsoft.Azure.Devices.Edge.Storage/DbStoreProviderWithBackupRestore.cs:52-203 | one restart under the same conditions, and what it leaves for the next: distinct keys, no blank name, the default partition in its own spelling, all partitions tracked |
| `BackupRestore.WhatSurvivesABackup` | edge-util/src/Microsoft.Azure.Devices.Edge.Storage/DbStoreProviderWithBackupRestore.cs:146-183 | what can be restored after a backup, by which disk operations failed: the old backup when it stopped before opening the metadata file; nothing when that file was emptied and not filled, or when the old backups could not be listed and the new directory was then deleted; otherwise what the partitions at hand restore to, in the order in which the metadata list them, and that is the partitions themselves exactly when none is named like the default one in another spelling |
| `BackupRestore.OldBackupStaysIff` | edge-util/src/Microsoft.Azure.Devices.Edge.Storage/DbStoreProviderWithBackupRestore.cs:146-183 | a readable older backup stays the one to restore exactly when a tracked name is blank or one of the first operations, up to opening the metadata file, fails |
| `BackupRestore.FailedListingLosesBackups` | edge-util/src/Microsoft.Azure.Devices.Edge.Storage/DbStoreProviderWithBackupRestore.cs:165-181 | an input on which nothing survives: the listing of old backups fails after the new one is complete; the new directory is deleted, and the older backup, still on disk, is no longer named |
| `BackupRestore.OtherSpellingIsRenamed` | edge-util/src/Microsoft.Azure.Devices.Edge.Storage/DbStoreProviderWithBackupRestore.cs:103-116 | an input for the default name: a partition called `$default` comes back as `$Default` |
| `BackupRestore.BlankNameFailsBackup` | edge-util/src/Microsoft.Azure.Devices.Edge.Storage/DbStoreProviderWithBackupRestore.cs:52-62 | asking once for a partition with a blank name is refused and makes the next backup fail, whatever the disk does |
| `BackupRestore.Start` | edge-util/src/Microsoft.Azure.Devices.Edge.Storage/DbStoreProviderWithBackupRestore.cs:42-50 | a start without disk failure restores what the newest backup holds, or nothing, tracks exactly the partitions it has restored, and deletes all backups |
| `BackupRestore.RestoreReproducesIff` | edge-util/src/Microsoft.Azure.Devices.Edge.Storage/DbStoreProviderWithBackupRestore.cs:103-116 | reading a complete backup into an empty provider reproduces the partitions exactly under that condition |
| `BackupRestore.LastItemCounts` | edge-util/src/Microsoft.Azure.Devices.Edge.Storage/DbStoreProviderWithBackupRestore.cs:185-203 | reading items into a store: of several with one key the last counts |
| `BackupRestore.KeyWithoutItem` | edge-util/src/Microsoft.Azure.Devices.Edge.Storage/DbStoreProviderWithBackupRestore.cs:185-203 | reading items into a store: a key without an item keeps its value |
| `PartitionNames.BlankIff` | edge-util/src/Microsoft.Azure.Devices.Edge.Util/Preconditions.cs:189-193 | a name is refused exactly when it is empty or holds white space only |
| `BackupRestore.DbStoreProviderWithBackupRestore.Backup` | edge-util/src/Microsoft.Azure.Devices.Edge.Storage/DbStoreProviderWithBackupRestore.cs:146-183 | what it leaves in the metadata and the directories, and whether it succeeds, for every set of failing disk operations and every set of tracked names; on failure no other directory is touched, but the metadata may name the new one; at every intermediate point metadata that names an existing directory names a complete backup and lists no blank name |
| `BackupRestore.DbStoreProviderWithBackupRestore.WriteBackup` | edge-util/src/Microsoft.Azure.Devices.Edge.Storage/DbStoreProviderWithBackupRestore.cs:154-169 | directory, files, then metadata: exactly which failures stop it where, and what the metadata then says |
| `BackupRestore.DbStoreProviderWithBackupRestore.WriteMetadata` | edge-util/src/Microsoft.Azure.Devices.Edge.Storage/DbStoreProviderWithBackupRestore.cs:165-169 | the file is emptied when it is opened and filled after that; a failure in between leaves it unreadable |
| `BackupRestore.DbStoreProviderWithBackupRestore.WriteStores` | edge-util/src/Microsoft.Azure.Devices.Edge.Storage/DbStoreProviderWithBackupRestore.cs:158-163 | succeeds exactly when no write fails and no tracked name is blank; then each tracked store is written with its entries in order |
| `BackupRestore.DbStoreProviderWithBackupRestore.Restore` | edge-util/src/Microsoft.Azure.Devices.Edge.Storage/DbStoreProviderWithBackupRestore.cs:82-144 | the provider ends with exactly what the newest backup holds when it is complete and neither the metadata nor a file of it fails to be read, and with no partition otherwise, also when the restore throws; without a disk failure it does not throw, and deletes all backups; without metadata it changes nothing; the tracked names are exactly the partitions it leaves, as long as no blank name is listed |
| `BackupRestore.DbStoreProviderWithBackupRestore.RestoreNewest` | edge-util/src/Microsoft.Azure.Devices.Edge.Storage/DbStoreProviderWithBackupRestore.cs:92-124 | restores exactly when the newest backup is complete and can be read; then the partitions are exactly its own |
| `BackupRestore.DbStoreProviderWithBackupRestore.RestoreStore` | edge-util/src/Microsoft.Azure.Devices.Edge.Storage/DbStoreProviderWithBackupRestore.cs:103-116 | every spelling of the default name goes to the default partition; entries are put in file order |
| `BackupRestore.DbStoreProviderWithBackupRestore.RemoveRestored` | edge-util/src/Microsoft.Azure.Devices.Edge.Storage/DbStoreProviderWithBackupRestore.cs:125-136 | leaves no partition and no tracked name unless a blank name stops it |
| `BackupRestore.DbStoreProviderWithBackupRestore.CleanupAllBackups` | edge-util/src/Microsoft.Azure.Devices.Edge.Storage/DbStoreProviderWithBackupRestore.cs:226-254 | every intermediate state is safe; it throws exactly when the files or the directories cannot be listed; without failures nothing is left |
| `BackupRestore.DbStoreProviderWithBackupRestore.CleanupUnknownBackups` | edge-util/src/Microsoft.Azure.Devices.Edge.Storage/DbStoreProviderWithBackupRestore.cs:256-276 | keeps the named backup and the metadata; without failures deletes all others |
| `BackupRestore.DbStoreProviderWithBackupRestore.CleanupKnownBackups` | edge-util/src/Microsoft.Azure.Devices.Edge.Storage/DbStoreProviderWithBackupRestore.cs:278-298 | deletes the failed backup's directory and nothing else, unless the listing or the deletion fails |
| `BackupRestore.DbStoreProviderWithBackupRestore.GetDbStore` | edge-util/src/Microsoft.Azure.Devices.Edge.Storage/DbStoreProviderWithBackupRestore.cs:52-62 | opens the partition; a blank name is refused after it was recorded |
| `BackupRestore.DbStoreProviderWithBackupRestore.RemoveDbStore` | edge-util/src/Microsoft.Azure.Devices.Edge.Storage/DbStoreProviderWithBackupRestore.cs:64-74 | forgets the name and drops the partition |
| `MemoryAccounting.LimitIsOvershotByOneEntry` | edge-util/src/Microsoft.Azure.Devices.Edge.Storage/StorageSpaceAwareDbStore.cs:28-66 | over every sequential run under a fixed limit M > 1 the total over all partitions, starting below M, never exceeds M - 1 plus the largest entry put |
| `MemoryAccounting.TinyLimitStopsGrowth` | edge-util/src/Microsoft.Azure.Devices.Edge.Storage/MemorySpaceChecker.cs:77-91 | under a limit of at most one byte the total never grows |
| `ConcurrentLimit.LimitIsOvershotByOneEntryPerPartition` | edge-util/src/Microsoft.Azure.Devices.Edge.Storage/InMemoryDbStoreProvider.cs:66-78 | when puts into different partitions interleave, each adding up the counters one by one in any order while others change, and partitions are dropped and opened again, the total never exceeds M - 1 plus one largest entry per partition |
| `ConcurrentLimit.OvershootIsAttained` | edge-util/src/Microsoft.Azure.Devices.Edge.Storage/StorageSpaceAwareDbStore.cs:28-51 | for every limit above one, every largest entry and every set of partitions there is a run that reaches that bound |
| `ConcurrentLimit.OneEntryBoundIff` | edge-util/src/Microsoft.Azure.Devices.Edge.Storage/StorageSpaceAwareDbStore.cs:28-51 | so the bound of one entry, which holds for one put at a time, holds in every interleaving exactly for at most one partition (or entries without bytes) |
| `ConcurrentAccounting.PutAlone` | edge-util/src/Microsoft.Azure.Devices.Edge.Storage/StorageSpaceAwareDbStore.cs:28-51 | a put that nobody interleaves with leaves the counters that the sequential put does |
| `ConcurrentAccounting.LossesAlone` | edge-util/src/Microsoft.Azure.Devices.Edge.Storage/StorageSpaceAwareDbStore.cs:53-66 | removals and drops leave the counters and the total that the sequential ones do |
| `MemoryAccounting.StorageSpaceAwareDbStore.Put` | edge-util/src/Microsoft.Azure.Devices.Edge.Storage/StorageSpaceAwareDbStore.cs:28-51 | the kept size stays the size of what is stored; a put is refused exactly when it adds bytes and the checker finds the store full |
| `MemoryAccounting.StorageSpaceAwareDbStore.Remove` | edge-util/src/Microsoft.Azure.Devices.Edge.Storage/StorageSpaceAwareDbStore.cs:55-66 | the kept size stays the size of what is stored |
| `MemoryAccounting.SizeIsBytes` | edge-util/src/Microsoft.Azure.Devices.Edge.Storage/StorageSpaceAwareDbStore.cs:28-66 | the size is the sum, over the entries, of the bytes of key and value |
| `MemoryAccounting.InMemoryDbStoreProvider.GetTotalMemoryUsage` | edge-util/src/Microsoft.Azure.Devices.Edge.Storage/InMemoryDbStoreProvider.cs:66-78 | the sum of the kept sizes is the number of bytes stored in all partitions |
| `MemoryAccounting.InMemoryDbStoreProvider.GetDbStore` | edge-util/src/Microsoft.Azure.Devices.Edge.Storage/InMemoryDbStoreProvider.cs:30-35 | returns the partition's store, a new empty one when there is none; refuses exactly the blank names |
| `MemoryAccounting.InMemoryDbStoreProvider.RemoveDbStore` | edge-util/src/Microsoft.Azure.Devices.Edge.Storage/InMemoryDbStoreProvider.cs:47-51 | drops the partition; refuses exactly the blank names |
| `MemoryAccounting.InMemoryDbStoreProvider.Put` | edge-util/src/Microsoft.Azure.Devices.Edge.Storage/StorageSpaceAwareDbStore.cs:28-51 | a put by way of the checker and the usage over all partitions is the abstract put under the limit |
| `MemoryAccounting.InMemoryDbStoreProvider.Remove` | edge-util/src/Microsoft.Azure.Devices.Edge.Storage/StorageSpaceAwareDbStore.cs:53-66 | a removal from an open partition leaves the partitions that the operation on values does |
| `MemoryAccounting.StepTotal` | edge-util/src/Microsoft.Azure.Devices.Edge.Storage/StorageSpaceAwareDbStore.cs:28-66 | one operation adds at most the bytes of its entry, and only below the limit |
| `MemorySpaceChecker.StatusInBytes` | edge-util/src/Microsoft.Azure.Devices.Edge.Storage/MemorySpaceChecker.cs:77-106 | full from the limit on, critical from nine tenths of it, always full for a limit of at most one byte |
| `MemorySpaceChecker.MemorySpaceChecker.IsFull` | edge-util/src/Microsoft.Azure.Devices.Edge.Storage/MemorySpaceChecker.cs:68-91 | full exactly when enabled and the limit is reached; the status is refreshed only while enabled |
| `MemorySpaceChecker.MemorySpaceChecker.SetMaxSizeBytes` | edge-util/src/Microsoft.Azure.Devices.Edge.Storage/MemorySpaceChecker.cs:35-53 | sets and enables the limit, or disables it and forgets the status |
| `MetricsSerializer.RoundTrip` | edge-agent/src/Microsoft.Azure.Devices.Edge.Agent.Diagnostics/MetricsSerializer.cs:18-84 | the encoding of metrics whose texts take one byte per character is read to its end without error and gives the metrics group after group |
| `MetricsSerializer.RegroupedIsPermutationIff` | edge-agent/src/Microsoft.Azure.Devices.Edge.Agent.Diagnostics/MetricsSerializer.cs:18-24 | the result is a permutation of the input exactly when no two metrics with different names or tags share a hash; then each group keeps its order |
| `MetricsSerializer.BytesToMetrics` | edge-agent/src/Microsoft.Azure.Devices.Edge.Agent.Diagnostics/MetricsSerializer.cs:42-84 | on bytes on which the reader stops, the loop yields the metrics and the error that its rounds yield, wherever the counts send it |
| `MetricsSerializer.RunsForeverIff` | edge-agent/src/Microsoft.Azure.Devices.Edge.Agent.Diagnostics/MetricsSerializer.cs:42-84 | the reader runs for ever exactly when it is still running after one round more than there are bytes |
| `MetricsSerializer.ReadRound` | edge-agent/src/Microsoft.Azure.Devices.Edge.Agent.Diagnostics/MetricsSerializer.cs:48-82 | one pass through the loop: the end; an error in header or values, where malformed tags and tags that are null are not reported as invalid data; or the values of a group and the index to go on from |
| `MetricsSerializer.BytesToRawValues` | edge-agent/src/Microsoft.Azure.Devices.Edge.Agent.Diagnostics/MetricsSerializer.cs:110-131 | the loop yields the raw values read before the stop index, which is computed in wrapping 32-bit arithmetic, or before the first error; for any start and length, negative ones included |
| `MetricsSerializer.ReaderCanLoopForever` | edge-agent/src/Microsoft.Azure.Devices.Edge.Agent.Diagnostics/MetricsSerializer.cs:63-67 | an input for it: sixteen bytes with a negative count send the reader back to its start for ever |
| `MetricsSerializer.AccentedNameIsNotReadBack` | edge-agent/src/Microsoft.Azure.Devices.Edge.Agent.Diagnostics/MetricsSerializer.cs:26-40 | an input whose encoding is not read back: a name of one character that takes two bytes |
| `MetricsSerializer.GroupIsReadUnderCutName` | edge-agent/src/Microsoft.Azure.Devices.Edge.Agent.Diagnostics/MetricsSerializer.cs:26-57 | wherever a group lies in whatever bytes, each metric of the round that reads it carries the name that the first bytes of the written name decode to, as many bytes as the name has characters; so another name when that is not the name |
| `MetricsSerializer.CutNameIsNotReadBack` | edge-agent/src/Microsoft.Azure.Devices.Edge.Agent.Diagnostics/MetricsSerializer.cs:18-84 | for any metrics: when the first name is cut to another one, either the first group yields nothing, or the first metric read back has that other name and the list is not the one that was written |
| `MetricsSerializer.ReadCut` | edge-agent/src/Microsoft.Azure.Devices.Edge.Agent.Diagnostics/MetricsSerializer.cs:42-131 | reading what was written, from any group on and cut at any byte, yields the groups before the cut and ends at it or within the group it falls into |
| `MetricsSerializer.TruncationIsNoticed` | edge-agent/src/Microsoft.Azure.Devices.Edge.Agent.Diagnostics/MetricsSerializer.cs:42-131 | the encoding cut short at any byte yields the first of the metrics, and ends as invalid data exactly when the cut is not between two groups |
| `MetricsSerializer.BadTicksEndReading` | edge-agent/src/Microsoft.Azure.Devices.Edge.Agent.Diagnostics/MetricsSerializer.cs:110-131 | a time out of range ends the reading behind the values before it, with its own error |
| `MetricsSerializer.TagsDecideRound` | edge-agent/src/Microsoft.Azure.Devices.Edge.Agent.Diagnostics/MetricsSerializer.cs:48-82 | what the tags text of a group means for its round, whatever follows: malformed text and text of another shape end it, each with its own error, null yields no metric, and tags go to each metric |
| `MetricsSerializer.OneMetricInBytes` | edge-agent/src/Microsoft.Azure.Devices.Edge.Agent.Diagnostics/MetricsSerializer.cs:26-40 | the bytes of one metric, in order: name with its length, tags with their length, count, ticks, value |
| `MetricsSerializer.HostOfIsLawful` | edge-agent/src/Microsoft.Azure.Devices.Edge.Agent.Diagnostics/MetricsSerializer.cs:29-36 | on either kind of host the four- and eight-byte integers of the format are read back unchanged |
| `KubeUtils.DnsValueConforms` | edge-agent/src/Microsoft.Azure.Devices.Edge.Agent.Kubernetes/KubeUtils.cs:90-145 | every success is a lower-case DNS label as in section 2.3.1 of RFC 1035, and exactly such labels come back unchanged |
| `KubeUtils.DnsDomainConforms` | edge-agent/src/Microsoft.Azure.Devices.Edge.Agent.Kubernetes/KubeUtils.cs:148-181 | every success is at most 253 characters of such labels joined by dots, and exactly such domains come back unchanged |
| `KubeUtils.NameConforms` | edge-agent/src/Microsoft.Azure.Devices.Edge.Agent.Kubernetes/KubeUtils.cs:183-232 | every success starts and ends alphanumeric, has only allowed characters and at most 63 of them; exactly such names come back unchanged |
| `KubeUtils.LabelConforms` | edge-agent/src/Microsoft.Azure.Devices.Edge.Agent.Kubernetes/KubeUtils.cs:234-247 | the same in lower case |
| `KubeUtils.AnnotationKeyConforms` | edge-agent/src/Microsoft.Azure.Devices.Edge.Agent.Kubernetes/KubeUtils.cs:34-59 | every success splits back at its one slash into a domain and a name, or is a name; exactly such keys come back unchanged |
| `KubeUtils.K8sConforms` | edge-agent/src/Microsoft.Azure.Devices.Edge.Agent.Kubernetes/KubeUtils.cs:62-87 | every success is lower-case alphanumerics, dashes and dots, at most 253; exactly such values come back unchanged |
| `KubeUtils.Scan` | edge-agent/src/Microsoft.Azure.Devices.Edge.Agent.Kubernetes/KubeUtils.cs:104-144 | the index loops and the collecting loop compute `Sanitized`, of which `SanitizedByIndex` says what it is |
| `KubeUtils.SanitizedByIndex` | edge-agent/src/Microsoft.Azure.Devices.Edge.Agent.Kubernetes/KubeUtils.cs:104-144 | what becomes of any name, by index: refused as a bad start exactly when no character is a good start; otherwise the characters at exactly the allowed indices from the first good start to the last alphanumeric, in order, refused as too long exactly when there are more than the bound |
| `KubeUtils.AlphabetsAre` | edge-agent/src/Microsoft.Azure.Devices.Edge.Agent.Kubernetes/KubeUtils.cs:12-28 | the character classes, letter by letter |
| `KubeUtils.SanitizeDNSValue` | edge-agent/src/Microsoft.Azure.Devices.Edge.Agent.Kubernetes/KubeUtils.cs:90-145 | computes `DnsValue`: refusal of nothing, lower-casing, scan |
| `KubeUtils.DnsValueByIndex` | edge-agent/src/Microsoft.Azure.Devices.Edge.Agent.Kubernetes/KubeUtils.cs:90-145 | a missing or empty name is refused; any other is lower-cased and treated by index, with letters as starts and at most 63 characters |
| `KubeUtils.SanitizeDNSDomain` | edge-agent/src/Microsoft.Azure.Devices.Edge.Agent.Kubernetes/KubeUtils.cs:148-181 | computes `DnsDomainValue`: the first failing segment decides, then the length |
| `KubeUtils.DnsDomainByPart` | edge-agent/src/Microsoft.Azure.Devices.Edge.Agent.Kubernetes/KubeUtils.cs:148-181 | parts joined by dots give the error of the first part that is refused, or else their labels joined by dots, refused exactly when longer than 253 characters together |
| `KubeUtils.SanitizeNameValue` | edge-agent/src/Microsoft.Azure.Devices.Edge.Agent.Kubernetes/KubeUtils.cs:183-232 | computes `NameValue` |
| `KubeUtils.NameValueByIndex` | edge-agent/src/Microsoft.Azure.Devices.Edge.Agent.Kubernetes/KubeUtils.cs:183-232 | any name is treated by index, with at most 63 characters |
| `KubeUtils.SanitizeLabelValue` | edge-agent/src/Microsoft.Azure.Devices.Edge.Agent.Kubernetes/KubeUtils.cs:234-247 | computes `LabelValue` |
| `KubeUtils.LabelValueByIndex` | edge-agent/src/Microsoft.Azure.Devices.Edge.Agent.Kubernetes/KubeUtils.cs:234-247 | a missing or empty name is refused; any other is lower-cased and treated by index |
| `KubeUtils.SanitizeAnnotationKey` | edge-agent/src/Microsoft.Azure.Devices.Edge.Agent.Kubernetes/KubeUtils.cs:34-59 | computes `AnnotationKey`: split at the first slash, domain before name |
| `KubeUtils.AnnotationKeyByPart` | edge-agent/src/Microsoft.Azure.Devices.Edge.Agent.Kubernetes/KubeUtils.cs:34-59 | a missing or empty key is refused and one without a slash is a name; a domain, a slash and a name give the error of the domain, or else that of the name, or else both sanitized parts around the slash |
| `KubeUtils.SanitizeK8sValue` | edge-agent/src/Microsoft.Azure.Devices.Edge.Agent.Kubernetes/KubeUtils.cs:62-87 | computes `K8sValue`; a missing value stays missing |
| `KubeUtils.K8sValueByIndex` | edge-agent/src/Microsoft.Azure.Devices.Edge.Agent.Kubernetes/KubeUtils.cs:62-87 | of any value, lower-cased, the characters at exactly the allowed indices stay, in order, refused exactly when there are more than 253 |
| `ModuleSets.DiffIsEmptyIffEqual` | edge-agent/src/Microsoft.Azure.Devices.Edge.Agent.Core/ModuleSet.cs:42-82 | the difference is empty exactly when the two sets compare equal (by size and one-way containment) and hold no unknown module |
| `ModuleSets.ModulesCompare` | edge-agent/src/Microsoft.Azure.Devices.Edge.Agent.Docker/DockerModule.cs:75-110 | known modules are equal exactly when they differ in their info at most, and changed in their status alone exactly when they differ in it and would else be equal; unknown modules are equal exactly when they are one |
| `ModuleSets.DiffIsRightIff` | edge-agent/src/Microsoft.Azure.Devices.Edge.Agent.Core/ModuleSet.cs:42-77 | the lists of the difference hold each key's module exactly where its change calls for it, if and only if equal modules under several keys change alike, each key with a change of status alone is the name of such a module or holds the same unknown module on both sides, and no other change goes only by such a name |
| `ModuleSets.DiffPartitions` | edge-agent/src/Microsoft.Azure.Devices.Edge.Agent.Core/ModuleSet.cs:42-77 | for sets keyed by module name the lists are right, and the names in the four lists and the unchanged keys partition the keys of both sets |
| `ModuleSets.MisnamedStatusChangeIsListedTwice` | edge-agent/src/Microsoft.Azure.Devices.Edge.Agent.Core/ModuleSet.cs:57-72 | an input for the contrary: under a key that is not its name, a module whose status alone changed is listed as updated as well |
| `ModuleSets.UnknownModuleIsAlwaysListed` | edge-agent/src/Microsoft.Azure.Devices.Edge.Agent.Core/UnknownModule.cs:32-34 | an unknown module is listed as changed in its status even where a set is compared with itself, which it equals |
| `ModuleSets.SubsetOfSameSize` | edge-util/src/Microsoft.Azure.Devices.Edge.Util/DictionaryComparer.cs:15-20 | equal counts and one-way containment of keys make equal key sets |
| `ModuleIdentityNames.ModuleNameInvertsIdentityName` | edge-agent/src/Microsoft.Azure.Devices.Edge.Agent.Core/ModuleIdentityHelper.cs:10-36 | the two mappings invert each other exactly outside the four system names |
| `ModuleIdentityNames.ModuleNameClashes` | edge-agent/src/Microsoft.Azure.Devices.Edge.Agent.Core/ModuleIdentityHelper.cs:24-36 | two identities share a module name exactly when they are a system module's name and identity |
| `ModuleIdentities.GetModuleIdentities` | edge-agent/src/Microsoft.Azure.Devices.Edge.Agent.Edgelet/ModuleIdentityLifecycleManager.cs:49-90 | the daemon ends with the initial identities minus the removed Edge-managed ones plus the missing added or updated ones; an identity that Edge does not manage or that was not removed survives unchanged, a removed one that Edge manages is gone, and a missing changed one is created as managed by Edge; there is a result exactly when no identity is updated that was just deleted and no two go under one module name, and then it holds exactly the identities that `Returned` tells |
| `ModuleIdentities.ReturnedWithoutConflict` | edge-agent/src/Microsoft.Azure.Devices.Edge.Agent.Edgelet/ModuleIdentityLifecycleManager.cs:49-90 | when no removed and changed modules go by one identity, no update fails and what is returned is (initial minus removed) plus added-or-updated |
| `ModuleIdentities.IdentityNamesAreDisjointIff` | edge-agent/src/Microsoft.Azure.Devices.Edge.Agent.Core/ModuleIdentityHelper.cs:10-22 | different removed and changed modules go by one identity exactly when they are a system module's name and identity |
| `ModuleIdentities.ChangedNamesAreKeys` | edge-agent/src/Microsoft.Azure.Devices.Edge.Agent.Edgelet/ModuleIdentityLifecycleManager.cs:51-52 | for sets keyed by module name the added or updated names are the keys that are new or changed beyond the status, and none of them is removed |
| `ModuleIdentities.ReplacingASystemModuleFails` | edge-agent/src/Microsoft.Azure.Devices.Edge.Agent.Core/ModuleIdentityHelper.cs:10-22 | an input on which nothing is returned: a module called `$edgeHub` replaces `edgeHub` |
| `ModuleIdentities.Reconcile` | edge-agent/src/Microsoft.Azure.Devices.Edge.Agent.Edgelet/ModuleIdentityLifecycleManager.cs:29-47 | from two module sets: equal sets without an unknown module change and return nothing; otherwise as above with the names and keys of the difference, and nothing is returned where there is an exception |
| `ModuleIdentities.Upsert` | edge-agent/src/Microsoft.Azure.Devices.Edge.Agent.Edgelet/ModuleIdentityLifecycleManager.cs:56-80 | missing identities are created, existing ones updated except the agent's own, nothing else changes, and it fails exactly when an identity to be updated was deleted |
| `ModuleIdentities.RemoveOwned` | edge-agent/src/Microsoft.Azure.Devices.Edge.Agent.Edgelet/ModuleIdentityLifecycleManager.cs:68-75 | exactly the removed and Edge-managed identities are deleted |
| `ModuleIdentities.ByModuleName` | edge-agent/src/Microsoft.Azure.Devices.Edge.Agent.Edgelet/ModuleIdentityLifecycleManager.cs:89 | succeeds exactly when no two identities go under one module name |

## Left out

- ConcurrentQueue.EveryInterleavingIsFifo: covers `Append` and `RemoveFirst`. Removal from the middle joins them in `ConcurrentRemovals`; removal at the tail, which decides its branch outside the lock, is modelled sequentially only. Offsets are unbounded here; the 64-bit limit is modelled in `SequentialQueue`.
- ConcurrentLimit.LimitIsOvershotByOneEntryPerPartition: counts a partition that is dropped and opened again as one partition; a put that is still under way in a dropped store no longer counts.
- MetricsSerializer.BytesToMetrics: requires bytes on which the reader stops, because the loop has no result on others.
- MetricsSerializer.RoundTrip: covers texts that take one byte per character; other texts are written with a length that is too short, and what the bytes after such a text are read as depends on the text encoding, which is a parameter (`GroupIsReadUnderCutName` says what does not).
- ModuleIdentities.Reconcile: requires that no two added or updated modules go by one identity, because the service would be asked to create it twice and its answer is not known.
- JsonEx: the string overloads, `StripMetadata` and chunked properties; they convert to and from text.
- TwinSync: a version that is not an integer, retries and closing of the module client inside one fetch, and the reported properties beyond being stored.
- EntityStore: concurrent reads that take no lock (`Get`, `Contains`, iteration) and `TimedEntityStore`, a thin wrapper with timeouts.
- Cancellation tokens, disposal, logging and metrics gauges.
- RocksDB and column family stores: a foreign library; `StoreUtils.KeyOrder` is the fact that its byte order gives the queue.
- Encrypted stores, certificates, protobuf bytes and JSON text: opaque here.
- The planner, plan runner, command factories, restart policies, health status and schema version comparison: each is settled by reading one branch or driven by code outside these components.
- The IoT Hub variant of the identity manager, the Docker and Kubernetes environments, HTTP clients and process wiring: input and output.
