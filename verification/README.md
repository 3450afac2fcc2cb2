# Proglog: the storage engine and what is built on it, verified

Proglog is a commit log: an append-only sequence of records, each addressed by its offset. This project
models its storage engine down to the bytes and the state machines above it, and proves that they keep the
contract of that simple sequence.

## How the model is built

Three levels, each proved against the next.

- **Bytes and objects.** `Store`, `Index`, `Segment`, `Log`, `MultiReader`, `LogStore`, `Fsm` and `Picker` are
  classes with the fields of the originals: a file with a write buffer in front, a memory map of 4+8-byte
  big-endian entries, segments that join the two, a list of segments with an active one, a directory of named
  files. Records travel in the protobuf wire format (`Codec`).
- **Layouts.** A `Layout` is what a log holds: a first offset and the records of each segment, with the
  rollover rule as a field, so that every layout theorem holds for every rule. The methods of the classes state
  their effect as a function on layouts; `Log.Valid` says that the open segments hold the layout's records byte
  for byte.
- **Runs.** Sequences of operations, committed commands, interleavings of reads and appends, and server
  schedules, compared with a flat in-memory list. `Drive`, `RunInterleaved` and `ServeLog` execute such runs on the
  byte-level objects, closing and reopening real directory images, and end where the run says.

| file | about |
|---|---|
| `Bytes`, `Arithmetic`, `Codec`, `Framing` | big-endian words, quotients, protobuf messages, length-prefixed frames |
| `Formats` | names, frames, entries, messages and a whole directory, byte for byte at concrete values |
| `Store`, `Index`, `Segment`, `Disk`, `Images`, `Log` | the four layers and the directory |
| `Layout`, `Cuts`, `Runs`, `Bounds`, `Reopen`, `MemoryLog` | layouts, where segments begin, whole runs, segment counts, what a directory determines, the in-memory log |
| `RaftStore`, `Fsm`, `Snapshot` | Raft's log store, replicas, restore |
| `Reader`, `Copy`, `Replay` | the snapshot stream read in chunks, the same files copied by `io.Copy`, catching up from a snapshot |
| `Server`, `Picker` | produce and consume streams, load balancing |

## Domain

- `GoodConfig`: room for one index entry, at most 2^32 entries per index (relative offsets are 32-bit), a store
  limit of at most 2^62 bytes. The largest offset handed out is 2^64 - 2.
- `Storable`: a value shorter than 2^62 bytes, which every Go slice is.
- Truncations inside a run are in range. Out of range is modelled and proved to leave no segment
  (`Layouts.TruncateEverything`, `Logs.Log.Truncate`).
- Methods that hold a mutex are atomic. A closed log is not used again. I/O does not fail.
- The buffered writer may hand any prefix of its contents to the file at any write: its choice is arbitrary.
- A snapshot can be drained in two ways, and both are modelled. `Readers` takes it through the reader's `Read`,
  which is what its comment describes. `Copies` takes it as `io.Copy` does with the Go version of `go.mod`, 1.22:
  the reader inherits `WriteTo` from the embedded `*os.File`, which copies from the open file's own position. That
  position is 0 after opening, the end after a write to a file opened with `O_APPEND` and after a copy, and is not
  moved by `ReadAt`. `Readers`, `Replays.SnapshotThenReplay` and what follows from it speak of the first way.
- Raft is the source of one committed sequence of commands. A produce request without a record crashes the
  original; such commands, and empty ones, are outside `Applicable`.

## Where the code departs from its comments

- `Reset` lists a directory it has just deleted. As written it always fails, so `Restore` succeeds exactly on
  the empty stream; both are proved (`Logs.Log.Reset`, `Snapshots.Fsm.Restore`). The round trip is proved with
  `Reset` taken by its comment, and holds if and only if the source has records or the target already agrees.
- `DeleteRange` ignores its lower bound and works in whole segments. While max+1 is below the next index, a range
  that holds a live entry is deleted exactly if and only if it starts at or below the first index and max+1 is a
  segment base. From the last index on, no segment is left at all, so dropping a conflicting suffix loses every
  entry before it as well.
- The comparison in `Truncate` is made in 64 bits: the largest argument removes nothing, the one before it everything.
- `LastIndex` is 0 both for an empty log that starts at 0 and for one whose only record is at 0; the index
  arithmetic Raft relies on holds exactly outside the first case, and the Raft store starts at 1.
- A request for index slot k is cut to 32 bits, and `Segment.Read` of the offset just below the base addresses
  the last entry; the contracts of `Index.Read` and `Segment.Read` say so. `Log.Read` never asks for either.
- An append that finds the index full leaves its frame in the store; no valid log ever gets there.
- The state machine keeps no applied index: replicas agree if and only if the effects of what they were fed
  are prefixes of one another, and a command delivered twice counts twice.
- A snapshot persisted while commands are applied may contain them; replaying them then appends them again.
  Catching up from a snapshot is exact if and only if the stream was drained before the next append.
- Drained by `io.Copy`, a snapshot holds no record appended since the log was opened, and a second one holds
  nothing: that of a log with records is complete if and only if no live record was appended, and no snapshot
  taken, since the opening.
- A consumer whose position a truncation has passed retries forever: behind the end of the log, it is never sent
  anything again if and only if the first live offset is beyond its position.
- `Build` keeps the previous leader when no ready connection is one: produce calls reach a ready leader if and
  only if the Build saw one.
- When the round-robin counter wraps the rotation breaks: picks are fair over every window if and only if the
  number of followers divides 2^64.

`Reset` fails on every log. Each of the others has a lemma or method with a concrete failing input beside the one
with the exact condition.

## Model

| member | source | states |
|---|---|---|
| Bytes.PutBigEndian | internal/log/index.go:89-90 | writing a big-endian word into the map changes those bytes and no others |
| Bytes.BigEndianRoundTrip | internal/log/index.go:80-81 | a value that fits the width decodes to itself |
| Bytes.FromBigEndianCons | internal/log/store.go:10-12 | the byte in front of n others is worth itself times 256^n: most significant first |
| Bytes.BigEndianCons | internal/log/store.go:10-12 | the encoder writes the most significant byte first |
| Codec.VarintForm | api/v1/log.proto:15-20 | a varint is the shortest string of 7-bit groups, least significant first, with the top bit set on all but the last |
| Codec.VarintRoundTrip | api/v1/log.proto:15-20 | every 64-bit varint is read back with the bytes after it untouched, in at most ten bytes |
| Codec.MarshalRoundTrip | api/v1/log.proto:15-20 | every record survives encoding at every field value, defaults left out included |
| Codec.MarshalSize | api/v1/log.proto:15-20 | the exact size of an encoded record: a field at its default takes no byte |
| Codec.ConcatenationMerges | api/v1/log.proto:15-20 | two encodings in a row decode to the first with the fields of the second put over it |
| Codec.FieldCut | api/v1/log.proto:15-20 | a field cut short at any byte is refused |
| Codec.BadTags | api/v1/log.proto:15-20 | field number 0, wire types that do not exist, a stray group end and overlong varints are refused |
| Codec.RequestRoundTrip | api/v1/log.proto:22-24 | a produce request carries its record unchanged |
| Framing.ReadFrameAt | internal/log/store.go:61-80 | for every sequence of payloads, the position where the k-th frame was appended reads back the k-th payload, whatever follows |
| Framing.RecordFramesConcat | internal/log/store.go:39-58 | the store bytes of two runs of records are the bytes of the one followed by the bytes of the other |
| Formats.OneByteStore | internal/log/store.go:39-58 | a store given one byte closes as eight bytes of length, most significant first, and that byte |
| Formats.TwoEntries | internal/log/index.go:12-16 | four bytes of offset, eight of position, most significant first |
| Formats.RecordBytes | api/v1/log.proto:15-20 | the bytes of records with all fields and with defaults left out |
| Formats.CommandBytes | internal/log/distributed.go:165-181 | the bytes handed to Raft: request type 0, then the request |
| Formats.GoldenDirectory | internal/log/log.go:27-124 | a log with no limits configured, two appends and a close: the names and bytes of every file |
| StoreFile.Store.WriteBuffered | internal/log/store.go:44-54 | however the buffer spills, file bytes plus buffered bytes grow by exactly what was written |
| StoreFile.Store.Append | internal/log/store.go:39-58 | the logical contents grow by one frame, the position is the old length, size stays their length |
| StoreFile.Store.Read | internal/log/store.go:61-80 | a read at any position sees all bytes ever appended, buffered or not, and changes none |
| StoreFile.Store.CopyOut | internal/log/store.go:18-23 | what the inherited copy of the file delivers: the bytes from the file's own position, none of the buffered ones, and nothing the next time |
| StoreFile.Store.ReadAt | internal/log/store.go:83-92 | delivers the available bytes and reports end of file exactly when fewer than asked for |
| StoreFile.Store.Close | internal/log/store.go:95-103 | the closed file holds everything appended |
| IndexFile.EntryFields | internal/log/index.go:67-83 | the two fields of the k-th 12-byte slot decode to the k-th entry |
| IndexFile.IndexBytesInjective | internal/log/index.go:26-65 | the trimmed file determines the entries, so reopening recovers what was written |
| IndexFile.Slot | internal/log/index.go:71-75 | a request finds an entry if and only if it is -1 or is below the count after being cut to 32 bits |
| IndexFile.Index.constructor | internal/log/index.go:26-45 | opening a closed index file restores its entries in a map of the configured length |
| IndexFile.Index.Read | internal/log/index.go:67-83 | returns the addressed entry through the mapped bytes, the last for -1, end of file for an empty index or a slot beyond |
| IndexFile.Index.Write | internal/log/index.go:85-93 | adds one entry in place, or fails and changes nothing exactly when the map has no room |
| IndexFile.Index.Close | internal/log/index.go:51-65 | the file is trimmed to the entries in use |
| Segments.CoherentAppend | internal/log/segment.go:56-73 | a frame and then its entry together keep store and index in step |
| Segments.CoherentRead | internal/log/segment.go:76-88 | the k-th entry leads to a frame that decodes to the k-th record |
| Segments.Segment.constructor | internal/log/segment.go:20-53 | opening the two files restores the records, and the next offset from the last index entry |
| Segments.Segment.Append | internal/log/segment.go:56-73 | stamps and adds the record, or fails exactly when the index is full, leaving the frame without an entry |
| Segments.Segment.Read | internal/log/segment.go:76-88 | the record at the addressed slot, with the 64-bit wrap-around and 32-bit cut of the original |
| Segments.SlotAddressed | internal/log/segment.go:76-81 | the slot any 64-bit offset addresses: the last just below the base, else the distance from the base cut to 32 bits |
| Segments.AliasedReads | internal/log/segment.go:76-88 | the failing inputs: the offset below the base reads the last record, an offset 2^32 beyond a record reads that record |
| Segments.OrphanFrame | internal/log/segment.go:56-73 | the failing input: two appends with room for one index entry leave the second frame in the store |
| Segments.Segment.CopyOut | internal/log/log.go:185-199 | a copy of the segment's file delivers the records it had when opened or nothing, all of them exactly as long as none was added, and leaves nothing for the next |
| Segments.Segment.Close | internal/log/segment.go:112-120 | both closed files hold the segment's records |
| Segments.Segment.Remove | internal/log/segment.go:98-109 | exactly the two files are gone |
| Disks.NamesParse | internal/log/log.go:47-55 | both file names of a segment parse back to its base offset, for every 64-bit offset |
| Disks.NamesSpelled | internal/log/segment.go:25-39 | the base in decimal without leading zeroes, then .store or .index |
| Disks.NamesDistinct | internal/log/segment.go:25-39 | segments with different bases have different files |
| Disks.Disk.ReadDir | internal/log/log.go:43-46 | lists every file once, or fails on a missing directory |
| Images.SetupOffsets | internal/log/log.go:47-69 | in whatever order the directory is listed, the sorted offsets are the bases of the segments, ascending, each twice |
| Images.SortedUnique | internal/log/log.go:58-60 | sorting the offsets has one result |
| Layouts.AppendEffect | internal/log/log.go:81-93 | adds one stamped record at the end and keeps the invariant, rolling over when the rule says so |
| Layouts.OneSegment | internal/log/log.go:100-110 | a live offset lies in exactly one segment and reading it there is reading the flat sequence |
| Layouts.TruncateEffect | internal/log/log.go:168-183 | the exact effect: a prefix of segments goes, the new lowest offset is the base of the segment with lowest+1, nothing else changes, the invariant holds |
| Layouts.TruncateReads | internal/log/log.go:168-183 | every record above lowest survives, surviving reads are unchanged, removed ones are out of range |
| Layouts.TruncateThenAppend | internal/log/log.go:168-183 | truncating before or after an append gives the same log |
| Layouts.TruncateEverything | internal/log/log.go:171-181 | no segment is left if and only if the argument is out of range |
| Layouts.TruncateWraps | internal/log/log.go:171-174 | the failing input: the largest argument removes nothing unless the log is empty at 0, the one before it everything |
| Logs.Log.constructor | internal/log/log.go:27-39 | a limit of 0 stands for 1024, any other for itself; opening a clean directory, or an empty one, gives exactly the log that was closed, or a fresh one |
| Logs.Log.Setup | internal/log/log.go:42-78 | loads one segment per pair of files, or starts the first one, or fails on a missing directory |
| Logs.Log.LoadSegments | internal/log/log.go:62-69 | taking every second sorted offset opens every segment once |
| Logs.Log.NewSegment | internal/log/log.go:211-219 | the new segment is added, is active, and its files are on disk |
| Logs.Log.Append | internal/log/log.go:81-93 | always succeeds on a valid log; the offset is the next one and the new state is the layout's append |
| Logs.Log.Read | internal/log/log.go:96-111 | the scan over segments and the reads through index and store return the record of the flat sequence, or out of range |
| Logs.Log.Close | internal/log/log.go:114-124 | leaves a clean image of the log in the directory |
| Logs.Log.Reset | internal/log/log.go:135-140 | as written, fails whatever the log holds: the directory and its files are gone and the log still lists the segments it closed |
| Logs.Log.ResetAsDocumented | internal/log/log.go:134-140 | by its comment, a brand new log at the configured offset |
| Logs.Log.LowestOffset | internal/log/log.go:143-147 | the first live offset |
| Logs.Log.HighestOffset | internal/log/log.go:149-162 | the last offset, with 0 for the empty log that starts at 0 |
| Logs.Log.Truncate | internal/log/log.go:168-183 | the filtering loop is the layout's truncation in range; out of range the list and the directory are empty while the active segment stays what it was |
| Logs.SetupLog | internal/log/distributed.go:28-37 | makes the directory if it is missing and opens the log in it, fresh or as it was closed there, with limits of 1024 where none are given |
| Logs.MaxedIsFull | internal/log/segment.go:91-95 | the size tests are the rollover rule applied to the segment's records |
| Logs.SegmentsTile | internal/log/log.go:81-93 | in every valid log segments meet without gap or overlap, all but the last are non-empty, the last is active and not maxed, every frame has its index entry |
| Reopen.ImageDeterminesLog | internal/log/log.go:42-78 | two logs with the same closed directory are equal, so there is one log to reopen |
| Reopen.FramesInjective | internal/log/store.go:39-58 | store bytes determine the records |
| Runs.RunKeepsValid | internal/log/log.go:81-183 | every state reachable by appends, reads, in-range truncations and reopenings satisfies the invariant |
| Cuts.TruncateScan | internal/log/log.go:168-183 | where a truncation leaves the log is determined by the rule and the sequence of records alone: at the start of the segment record lowest+1 went into |
| Runs.RunRefinesFlat | _httpLogServer/server/log.go:24-41 | over every such run, truncations and reopenings included, each reply is that of a flat list that consults only its own records and the rollover rule |
| Runs.LogIsList | _httpLogServer/server/log.go:24-41 | without truncation all replies equal the in-memory list's, whatever the limits and however often reopened |
| Runs.Drive | internal/log/log.go:27-183 | the byte-level log, really closed and rebuilt from its files at every reopening, gives the replies and the state of the run |
| Runs.BytesAreFlat | internal/log/log.go:27-183 | from an empty directory, any legal run on the byte-level log, truncations included, gives the flat list's replies |
| Runs.BytesAreList | internal/log/log.go:27-124 | without truncation neither the rule nor the configuration shows: the replies are the in-memory list's |
| MemoryLogs.MemoryLog.Append | _httpLogServer/server/log.go:24-31 | the list grows by the stamped record, whose index is returned |
| MemoryLogs.MemoryLog.Read | _httpLogServer/server/log.go:33-41 | the record at the index, or not found beyond the end |
| MemoryLogs.DriveMemory | _httpLogServer/server/log.go:20-41 | the in-memory log driven by a run gives the replies of the list |
| MemoryLogs.SideBySide | _httpLogServer/server/log.go:20-41 | the byte-level log and the in-memory log, run side by side, give the same replies |
| Bounds.SealedBounds | internal/log/segment.go:91-95 | a sealed segment is within its limits plus one frame and was sealed because one limit was reached |
| Bounds.TruncationOnlyDrops | internal/log/log.go:168-183 | over any run truncation never moves a segment boundary: the log is the untruncated one without some leading segments |
| Bounds.SegmentsEverSealed | internal/log/log.go:89-91 | over any run the segments ever sealed, removed ones included, number at most bytes/limit + records/capacity |
| RaftStore.StoredAt | internal/log/distributed.go:421-432 | each entry's data, term and type go to those fields of the record at the next offset |
| RaftStore.StoreRoundTrip | internal/log/distributed.go:404-432 | a batch numbered on from the next offset comes back entry for entry across rollovers; no earlier index changes |
| RaftStore.RaftBatchRoundTrip | internal/log/distributed.go:395-432 | after any legal run from initial offset 1, a batch numbered on from last index + 1 comes back entry for entry; no earlier index changes |
| RaftStore.IndexArithmetic | internal/log/distributed.go:395-402 | last index + 1 is the next index, and last + 1 - first the count, if and only if the log is not empty at offset 0 |
| RaftStore.EmptyAtZero | internal/log/distributed.go:395-402 | the failing input: a log created at 0 with no record claims one entry |
| RaftStore.RaftStoreCounts | internal/log/distributed.go:51-53 | over every legal run from initial offset 1 the next index is last + 1 and the count is last + 1 - first |
| RaftStore.DeleteRangeExact | internal/log/distributed.go:435-437 | for every request: independent of min; a segment is left if and only if max+1 is below the next index; then a range with a live entry is deleted exactly if and only if min is at or below the first index and max+1 is a segment base, a range without one if and only if the first segment stays; else exactly if and only if nothing live is below min |
| RaftStore.SuffixDeletionLosesAll | internal/log/distributed.go:435-437 | the failing input Raft sends for a conflicting suffix: from min above the first index to the last index, no segment is left and the entries below min are gone too |
| RaftStore.DeleteRangeMisses | internal/log/distributed.go:435-437 | the failing input, on a byte-level log opened without limits: two small entries, the first to be deleted; it still reads back |
| RaftStore.LogStore.Get | internal/log/distributed.go:404-414 | the entry at the index, or the log's error |
| RaftStore.LogStore.StoreAll | internal/log/distributed.go:421-432 | appends the whole batch in order |
| RaftStore.LogStore.Delete | internal/log/distributed.go:435-437 | truncates at the upper bound |
| Fsms.CommandRoundTrip | internal/log/distributed.go:165-181 | a framed append command decodes to the produced record |
| Fsms.ApplyAnswers | internal/log/distributed.go:294-316 | an unknown type does and answers nothing, a malformed request answers its error, any other appends its record and answers its offset |
| Fsms.ReplicaState | internal/log/distributed.go:294-316 | a replica's records are the effects of the commands, whatever its segment limits |
| Fsms.ReplicasAgree | internal/log/distributed.go:294-316 | replicas at any two points of one committed sequence, with any limits, return the same record at every offset both hold |
| Fsms.AgreementCondition | internal/log/distributed.go:294-316 | fed arbitrary sequences, two replicas agree everywhere if and only if one's effects are a prefix of the other's |
| Fsms.DuplicateDelivery | internal/log/distributed.go:294-316 | for every committed sequence, delivering one command twice inserts its record once more and moves all later records up by one |
| Fsms.DuplicateAgreement | internal/log/distributed.go:294-316 | the replica fed twice agrees with the other if and only if every later record is a copy of the repeated one |
| Fsms.DuplicateDisagrees | internal/log/distributed.go:294-316 | the failing input: two different records, the first delivered twice |
| Fsms.AppendReadsBack | internal/log/distributed.go:154-192 | the offset an append reports reads back the produced record on every replica that has applied it |
| Snapshots.TakeRecordIs | internal/log/distributed.go:348-363 | one turn of the loop for any length and any bytes: which error, or which record and rest |
| Snapshots.RestoreStream | internal/log/distributed.go:346-376 | the decode loop on a stream of consecutive records consumes it all and yields exactly those records at those offsets |
| Snapshots.RestoreCutShort | internal/log/distributed.go:350-359 | a stream that ends inside a frame is refused, after the whole frames before it |
| Snapshots.RestoreReproduces | internal/log/distributed.go:346-376 | restoring a log's stream reproduces it if and only if it has records or the target already agreed |
| Snapshots.RestoreKeepsTarget | internal/log/distributed.go:346-376 | the failing input: an empty source leaves the target's record in place |
| Snapshots.Fsm.Apply | internal/log/distributed.go:294-316 | decodes the command and appends its record; other types and malformed requests change nothing |
| Snapshots.Fsm.Restore | internal/log/distributed.go:346-376 | with Reset as written, succeeds if and only if the stream is empty; after one readable record it fails with the directory gone, after none it reports the read error and the log is untouched; with Reset as documented, computes the restored log or its error |
| Snapshots.RunReplica | internal/log/distributed.go:294-316 | a replica built on the byte-level log ends in the modelled state with the modelled responses |
| Readers.StreamIsPrefix | internal/log/log.go:191-208 | however reads and appends interleave, the finished stream is whole frames: the records from the lowest offset, all those present at the start, perhaps later ones of the last captured segment |
| Readers.QuiescentStream | internal/log/log.go:191-208 | with no append in between it is exactly the live records |
| Readers.ConcurrentSnapshot | internal/log/distributed.go:323-376 | a snapshot persisted during appends restores to a prefix of the log that holds everything present when it was taken |
| Readers.StreamIsSnapshot | internal/log/distributed.go:323-341 | the finished stream is the log as it was when the snapshot was taken if and only if it was drained before the first append |
| Readers.RunInterleaved | internal/log/log.go:191-208 | appends and chunked reads interleaved on real stores end in the modelled log and reader with the modelled bytes |
| Readers.InstallDuringAppends | internal/log/distributed.go:323-376 | on byte-level logs, a snapshot read out while the source appends is installed exactly when the reader was drained and the stream fits; the target then has its first offset and the records taken in, all that were there included |
| Replays.SnapshotThenReplay | internal/log/distributed.go:294-376 | installing a snapshot taken after cmds[..i] and applying cmds[i..] gives the log of a replica that applied all of cmds if and only if the stream was drained before the next append, and the source had records or the target agreed |
| Replays.QuietSnapshotThenReplay | internal/log/distributed.go:294-376 | with nothing applied while the snapshot is persisted, catching up is exact |
| Replays.ReplayExact | internal/log/distributed.go:294-316 | replaying the commands after i on any log gives the full replica if and only if that log is the replica of the first i |
| Replays.CatchUp | internal/log/distributed.go:294-376 | the same on byte-level logs: replica, interleaved reader, restore and replay end in the full replica under exactly that condition |
| Replays.PrefixThenReplay | internal/log/distributed.go:346-376 | installing the first n records of the source and replaying the rest is exact if and only if n is all of them, or none arrived and the target already agreed |
| Replays.CatchUpByCopy | internal/log/distributed.go:335-376 | on byte-level logs, with the source restarted after j commands and the snapshot drained by io.Copy: at most the records from before the restart arrive, and a target that did not already agree catches up if and only if there are records and none is newer than the restart |
| Replays.ReplayRepeats | internal/log/distributed.go:294-376 | the failing input: a command applied while the snapshot is persisted is in the stream and is appended again by the replay |
| Readers.PullProgress | internal/log/log.go:204-208 | a non-empty read always advances, and end of stream means all stores are used up |
| Readers.MultiReader.Read | internal/log/log.go:191-208 | the reader over the real stores delivers what the model of it says and leaves the log as it was |
| Readers.Persist | internal/log/distributed.go:335-341 | reading the reader of a quiescent log to its end through Read yields the frames of all live records |
| Copies.CopyFiles | internal/log/log.go:191-202 | copying the captured files one after the other delivers whole frames of a prefix of their records, none appended since the log was opened, all of them exactly if there is none such |
| Copies.PersistFiles | internal/log/distributed.go:335-341 | drained by io.Copy, the stream of a quiescent log is complete if and only if there are no records, or none is newer than its opening and it has not been copied before; it is always whole frames of a prefix |
| Copies.CopyLosesRecord | internal/log/distributed.go:335-341 | the failing input: one record appended to a new log, and the snapshot is empty |
| Copies.SecondSnapshot | internal/log/distributed.go:335-341 | the failing input: of two snapshots of one open log the second is empty, however complete the first |
| Copies.MarkBehind | internal/log/store.go:25-37 | over every legal run, the next offset at the last opening is behind the next offset if and only if something was appended since |
| Copies.SnapshotOfRun | internal/log/distributed.go:323-341 | over every run on a byte-level log opened from any clean directory, with appends between taking and persisting the snapshot: it holds a prefix of the log as it was taken, nothing newer than the last opening; with no append in between it is complete if and only if there was none since the last opening either, or no record is live |
| Readers.InstallSnapshot | internal/log/distributed.go:335-376 | reading one byte-level log through Read and restoring into another, with Reset as documented, reproduces first offset and records and leaves the source as it was |
| Servers.SentIsContiguous | internal/server/server.go:170-190 | under any interleaving with producers, truncations and restarts the records sent so far are those at start, start+1, ... without gap, repetition or reordering |
| Servers.PollSends | internal/server/server.go:170-190 | a turn of the consume loop sends if and only if the position is live, and then the record there |
| Servers.CatchesUp | internal/server/server.go:170-190 | from a live position k turns send exactly the next k records |
| Servers.OvertakenForever | internal/server/server.go:170-190 | once a truncation has passed the consumer, no continuation sends it anything |
| Servers.StuckForever | internal/server/server.go:170-190 | a consumer behind the end gets nothing in any continuation if and only if its position is below the first live offset |
| Servers.ConsumerOvertaken | internal/server/server.go:170-190 | the failing input: the first of three segments is removed while a consumer waits for its record |
| Servers.ProducersGetDistinctOffsets | internal/server/server.go:149-163 | over any interleaving of produce streams the offsets form one contiguous range in the order of the appends and each live one reads back its record |
| Servers.ResponsesAnswerInOrder | internal/server/server.go:149-163 | with receive, append and send as separate steps of each stream: its appends are of the records that arrived, unchanged, one for one and in order, its responses are of its appends, offsets strictly increase, at most one request is open |
| Servers.ServedLog | internal/server/server.go:121-190 | the log after any schedule is the log after the operations the schedule spells: each append of the next arrived record, each truncation and reopening |
| Servers.ServeLog | internal/server/server.go:121-190 | the loops run over the byte-level log produce exactly the modelled world |
| Pickers.ContainsIff | internal/loadbalance/picker.go:48-50 | a name contains exactly the strings that stand inside it |
| Pickers.ServiceRouted | internal/loadbalance/picker.go:43-65 | by the service's own method names: both produce methods get the leader, both consume methods the next follower, the rest none; without followers all get the leader |
| Pickers.CounterGoesOn | internal/loadbalance/picker.go:16-65 | over a picker's whole life the counter is the number of calls served by followers, in 64 bits: a Build does not restart the rotation |
| Pickers.NextPick | internal/loadbalance/picker.go:60-65 | the next consume call gets the follower that count comes to |
| Pickers.BuildRoutes | internal/loadbalance/picker.go:24-39 | followers are exactly the ready non-leaders, without repetition; the routed leader is a ready leader if and only if there is one, however many; otherwise the previous one stays |
| Pickers.RoutedAfterBuild | internal/loadbalance/picker.go:43-57 | after a Build and any calls, produce gets a ready leader if and only if the Build saw one, and the only one if there is one; consume gets a ready non-leader unless there is none |
| Pickers.StaleLeader | internal/loadbalance/picker.go:28-37 | the failing input: a leader that steps down and stays ready still gets the produce calls |
| Pickers.RoundRobin | internal/loadbalance/picker.go:60-65 | in any sequence of calls each follower gets floor(m/n) or ceil(m/n) of the m consume calls, whatever is mixed in, unless the m calls wrap the counter |
| Pickers.FairAcrossWraps | internal/loadbalance/picker.go:60-65 | every window of calls is fair, wraps included, if and only if the number of followers divides 2^64 |
| Pickers.ThreeFollowersRepeat | internal/loadbalance/picker.go:60-65 | the failing input: three followers, the same one picked twice running at the wrap |
| Pickers.Picker.Build | internal/loadbalance/picker.go:24-39 | the loop over the ready connections computes the routes |
| Pickers.Picker.PickFor | internal/loadbalance/picker.go:43-65 | picks and advances the counter as modelled |

## Left out

- Raft, Serf, gRPC, casbin, cmux and boltdb: libraries not part of this model; Raft appears as a committed sequence of commands.
- Protobuf beyond two messages: unknown fields are skipped and dropped, group-encoded fields are refused; only messages the program wrote itself are decoded.
- `Join`, `Leave`, `GetServers`, `WaitForLeader` and the membership handler: thin calls into those libraries.
- `StreamLayer`, the agent, configuration, command line, resolver and HTTP handlers: wiring.
- Authentication and authorization: a refusal ends a stream, which is the end of its events.
- Crashes without `Close`, I/O failures, and the content of the file behind a map before it is closed.
- Reopening with a different configuration: the rollover rule of a reopened log is that of the one closed.
- The caller's record object: `Append` stamps the offset into it in the original; here the stamped record is a new value.
- Logs.Log.Truncate: out of range it states only that the list and the directory are empty; what the dangling active segment does next is not modelled.
- Copies.CopyFiles: the files are copied in one step; an append between the copies of two files is not modelled.
- Copies.SnapshotOfRun: with appends before the snapshot is persisted it says that nothing newer than the opening arrives, not how much does: that depends on when the buffer spilled.
- Allocation limits in `Store.Read`: a corrupt length yields an error here, where the original may fail to allocate.
- `nearestMultiple` and the replicator: unused.
