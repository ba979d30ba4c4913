# JamSys: a verified model of its protocols, caches and state machines

JamSys watches a Linux desktop: a daemon samples metrics, learns baselines, raises alerts and
answers a small graphical client over a Unix socket. This project models the parts of it where
several functions have to agree with each other over time, and proves that they do:

- **D-Bus codec and framing** (`DBus*.dfy`, `Bytes.dfy`). The marshaller with its alignment and
  back-patched array lengths, the unmarshaller that reads bytes and signature together, the four
  message builders, and the receive buffer that cuts a byte stream into messages. What was written
  is what is read, at any offset, in any chunking. The layout is that of the "Marshaling (Wire
  Format)" and "Message Format" sections of the D-Bus Specification.
- **History pipeline** (`History*.dfy`). Readings become ten-second accumulators, queued rows, the
  sample table, incremental rollups, and are finally expired, over clean shutdowns, crashes and
  reopenings. A sample row is the mean of the readings its process recorded; a rollup row equals the
  batch aggregate over the means of its window, although it was computed once, from a table that
  retention keeps cutting. Where either fails, the exact condition is given.
- **Alert lifecycle** (`Alert*.dfy`, `TokenBucket.dfy`, `Dwell.dfy`). Raise, clear, retention and
  restart over the in-memory manager and the alert table: the two agree after every run;
  notifications of one alert are spaced or escalate; a restart is quiet; a clear is held; a row counts
  the firings that are apart; the id of a notification is remembered until it is overwritten.
- **Client connection protocol** (`Client*.dfy`). Connectors, callers, readers, closers, shutdown
  and the stop flag as interleaved atomic steps: no lost waiter, one outcome per call, sockets
  published, retired and closed once each, and a connected client's calls answered.
- **IPC line framing** (`IpcFraming.dfy`), **glob matching** (`Glob*.dfy`), **robust statistics**
  (`Stats*.dfy`, `Baseline.dfy`, `Reservoir.dfy`), **rate limiting** (`TokenBucket*.dfy`), **natural
  order** (`Natural*.dfy`) and the **journal deduper** (`Deduper.dfy`).

Each component has the same layout. Functions on values say what one operation does. Lemmas about
those functions, and about runs of them, carry the results. Where the source updates an object in
place, a class with the same fields has one method per source method, and its `ensures` ties the
new state to the function. What a function computes is also stated without it: by counting, by
concrete bytes and numbers, or by what a whole run achieves. `dafny verify dfyconfig.toml` checks
everything.

## Where the code and its description differ

The model follows the code; each difference below is a lemma.

- The array loop of the unmarshaller stops after item 100 001, not 100 000, and then jumps to the
  declared end of the array: longer arrays are cut without an error (`ExactIffWithinCap`). Nor is an
  array refused that claims more bytes than are left: it holds what is there (`CutArray`).
- `glob_match` documents `*` only, but `?` matches any one character. It compares characters before
  it looks for a star, so a `*` in the text can use up a star of the pattern: `*` rejects `*a`
  (`StarRejectsStarA`). A text is treated rightly by every pattern exactly if it holds no `*`
  (`RightIffNoStarInText`).
- "A restart is quiet" holds while no raise goes above the severity now on record. The severity on
  record is the latest one, not the highest, so an alert that dips and returns to the severity it
  was reloaded at notifies again after the cooldown (`DipAndReturnNotifies`). `NotifiesIff` gives
  the exact condition for every raise.
- The last notification of an open alert is said to be replaced or withdrawn later. A raise that is
  news but is not delivered (desktop off, below the least severity, rate limit) records the id 0 over
  it, and until a restart reads the id back from the table it can be neither (`ForgottenIff`,
  `EscalationForgetsId`).
- `flush_final` writes the bucket that is still open so that a shutdown loses nothing. A service that
  is started again within the same ten seconds writes that bucket a second time, and the row is
  replaced: `QuickRestartReplaces` is a run in which the readings 1 and 3 leave 3, where their mean is
  2. Each row is the mean of the readings that no restart parts from its latest (`RowsAreMeans`), and
  `ExactIffUnparted` says exactly when that is the mean of all of them.
- Retention deletes at most 250 000 rows per job and pass, and SQL leaves open which ones `LIMIT`
  takes. A window whose row has expired while some of its samples have not is built again, from too
  few of them. Such a row is always past its age already (`RowsAreBatchOrExpired`), so the same pass
  deletes it, unless more rows of its size are past their age than the job may delete:
  `LeavesRightIff` gives the exact condition for one pass that starts from right rows, and
  `AShortRowSurvives` a run under the default configuration in which a short row stays. In it one
  metric is recorded for half a year before the first maintenance pass.

## Model

| member | source | states |
|---|---|---|
| `DBusTypes.SkipsExactlyOneType` | jamsys-daemon/src/dbus.rs:272-301 | `skip_type` moves past exactly one complete type of any nesting, so the array path, which restarts the signature at each element and then skips, leaves the index where the recursive path would |
| `DBusTypes.ElemAlignmentIsAlignment` | jamsys-daemon/src/dbus.rs:261-269 | `elem_alignment`, which looks at one signature character, gives the alignment of the whole type |
| `Utf8.ValidIffEncoded` | jamsys-daemon/src/dbus.rs:179-190 | text is accepted exactly if its bytes are the UTF-8 form of some sequence of Unicode scalar values |
| `Utf8.WordLayout` | jamsys-daemon/src/dbus.rs:159-161 | a 32-bit word is laid out low byte first, and read back |
| `DBusDecode.Decode` | jamsys-daemon/src/dbus.rs:194-257 | for arbitrary bytes and signature the decoder terminates, keeps `pos` within one past the end, and on success moves `pos` not backwards and the signature index forwards, although an array resets `pos` to its declared end |
| `DBusDecode.DecodeItems` | jamsys-daemon/src/dbus.rs:227-233 | the array loop ends after at most 100 001 items |
| `DBusEncode.FixedRoundTrip` | jamsys-daemon/src/dbus.rs:198-209 | every integer, boolean and double code reads back the value whose bytes it wrote, sign included |
| `DBusEncode.EncodeMod8` | jamsys-daemon/src/dbus.rs:76-120 | the bytes of any value depend on the offset they are written at only modulo 8 |
| `DBusEncode.BackPatched` | jamsys-daemon/src/dbus.rs:106-115 | patching the length into the zero word leaves exactly the bytes of an array written with its length known in advance |
| `DBusEncode.Marshal.Align` | jamsys-daemon/src/dbus.rs:76-80 | the padding loop appends the least number of zeros that makes the length a multiple of `n` |
| `DBusEncode.Marshal.PutString` | jamsys-daemon/src/dbus.rs:93-97 | a string appends padding, length, bytes and a NUL |
| `DBusEncode.Marshal.PutSignature` | jamsys-daemon/src/dbus.rs:98-102 | a signature appends one length byte (modulo 256), bytes and a NUL |
| `DBusEncode.Marshal.BeginArray` | jamsys-daemon/src/dbus.rs:106-111 | an array starts with an aligned zero word and padding to its elements |
| `DBusEncode.Marshal.EndArray` | jamsys-daemon/src/dbus.rs:113-114 | only the four length bytes change, to the number of bytes since the first element |
| `DBusEncode.Marshal.Put` | jamsys-daemon/src/dbus.rs:76-135 | marshalling any value tree appends the tree's encoding at the current offset |
| `DBusRoundTrip.ReadStringAt` | jamsys-daemon/src/dbus.rs:179-184 | reading a string at the position it was written gives it back and ends behind its NUL |
| `DBusRoundTrip.RoundTrip` | jamsys-daemon/src/dbus.rs:194-257 | for every value tree of a well-formed type, decoding its bytes gives the value, consumes exactly those bytes, and leaves the signature index just past the type |
| `DBusRoundTrip.RoundTripElsewhere` | jamsys-daemon/src/dbus.rs:574-604 | the same when the bytes were written at a different offset, equal modulo 8, of a longer message |
| `DBusRoundTrip.ExactIffWithinCap` | jamsys-daemon/src/dbus.rs:227-233 | the receiver sees what the sender meant exactly if no array is longer than 100 001 items |
| `DBusRoundTrip.ArgsRoundTrip` | jamsys-daemon/src/dbus.rs:334-346 | `args` reads a body of any sequence of values back as those values |
| `DBusEdges.EveryPattern` | jamsys-daemon/src/dbus.rs:198-209 | every bit pattern of a fixed-size code is that of the value read; any truth value but 0 is true |
| `DBusEdges.TruthOnTheWire` | jamsys-daemon/src/dbus.rs:76-90 | truth values are written as the words 1 and 0 |
| `DBusEdges.UnknownCode` | jamsys-daemon/src/dbus.rs:254-269 | a code the decoder does not know stands for itself, takes no bytes and has no alignment |
| `DBusEdges.NotText` | jamsys-daemon/src/dbus.rs:179-184 | a string whose bytes are not UTF-8 does not decode |
| `DBusEdges.CutShort` | jamsys-daemon/src/dbus.rs:152-178 | nor does a fixed-size value whose bytes are not all there |
| `DBusEdges.VariantMustDecode` | jamsys-daemon/src/dbus.rs:213-218 | nor a variant whose signature or value does not |
| `DBusEdges.EntryMustDecode` | jamsys-daemon/src/dbus.rs:247-253 | nor a dictionary entry without its key or its value |
| `DBusEdges.FieldsMustDecode` | jamsys-daemon/src/dbus.rs:241-243 | nor the fields of a struct if the first of them, or the rest, does not |
| `DBusEdges.StructMustDecode` | jamsys-daemon/src/dbus.rs:238-246 | nor a struct whose fields do not |
| `DBusEdges.ItemsMustDecode` | jamsys-daemon/src/dbus.rs:227-229 | nor the items of an array if the first of them does not |
| `DBusEdges.ArrayMustDecode` | jamsys-daemon/src/dbus.rs:219-237 | nor an array whose items do not |
| `DBusEdges.CutArray` | jamsys-daemon/src/dbus.rs:219-237 | an array whose declared length passes the end of the buffer decodes to the elements that are there |
| `DBusUnmarshal.Unmarshal.ValueAt` | jamsys-daemon/src/dbus.rs:194-257 | the cursor method decodes, or fails, exactly as the function the round trip is proved about, and stops at the same position and signature index |
| `DBusUnmarshal.Unmarshal.ArrayAt` | jamsys-daemon/src/dbus.rs:219-237 | the array branch with its loop, its cap and its jump to the declared end |
| `DBusUnmarshal.Unmarshal.StructAt` | jamsys-daemon/src/dbus.rs:238-246 | the struct branch with its loop to the closing bracket |
| `DBusUnmarshal.Unmarshal.Args` | jamsys-daemon/src/dbus.rs:334-346 | the loop of `args` over a fresh cursor returns the sequence `ArgsRoundTrip` speaks of |
| `DBusMessages.BuildMethodCall` | jamsys-daemon/src/dbus.rs:765-807 | the message is the header, its fields in order, padding to eight and the body, with the length word patched to the fields written |
| `DBusMessages.BuildReply` | jamsys-daemon/src/dbus.rs:687-719 | the same for a reply, whose destination and signature are optional |
| `DBusMessages.BuildSignal` | jamsys-daemon/src/dbus.rs:721-741 | the same for a signal |
| `DBusMessages.BuildError` | jamsys-daemon/src/dbus.rs:743-763 | the same for an error, whose signature is always `s` |
| `DBusMessages.ParseHeader` | jamsys-daemon/src/dbus.rs:574-604 | the field loop sets the message's fields in the order they arrive and stops at the first that does not decode |
| `DBusHeaders.AnyHeader` | jamsys-daemon/src/dbus.rs:574-604 | a message with any well-typed header fields, in any order, repeated or unknown, is taken as the message they tell: each of path, interface, member, error name, reply serial, sender and signature from the last field with its code |
| `DBusHeaders.StampedRoundTrip` | jamsys-daemon/src/dbus.rs:588-602 | every message of the four kinds, with the sender the bus adds anywhere among its fields, followed by any bytes, is taken as that message with that sender |
| `DBusHeaders.HeaderFields` | jamsys-daemon/src/dbus.rs:687-807 | decoded as the array of structs it is, the header of every message holds exactly the fields the specification asks for, the destination among them exactly if there is one |
| `DBusHeaders.FixedPart` | jamsys-daemon/src/dbus.rs:687-807 | every message starts with the byte order, its type, its flags, version 1, the length of its body and its serial, and ends with its body on an eight-byte boundary |
| `DBusHeaders.ReplyOnTheWire` | jamsys-daemon/src/dbus.rs:687-719 | the shortest reply, byte by byte |
| `DBusHeaders.RefusedIff` | jamsys-daemon/src/dbus.rs:552-565 | a complete fixed part is refused exactly if it is big-endian, or declares a body beyond 64 MiB or fields beyond 1 MiB |
| `DBusMessages.Stream.ReadMessage` | jamsys-daemon/src/dbus.rs:606-668 | reading piece by piece from a stream takes the same bytes and gives the same message, refusal or end of input as cutting it from a buffer |
| `DBusStream.PacketRoundTrip` | jamsys-daemon/src/dbus.rs:552-604 | each builder's message, followed by any bytes, is cut off exactly and decodes to type, serial, path, interface, member, error name, reply serial, signature and body as given |
| `DBusStream.DrainAppend` | jamsys-daemon/src/dbus.rs:544-549 | extracting messages, then receiving more bytes and extracting again, is extracting once from all of them |
| `DBusStream.BacklogIffOver` | jamsys-daemon/src/dbus.rs:528-543 | a run of reads ends in the backlog error exactly if some call passes 8 MiB with what it carried over |
| `DBusHeaders.BacklogAt` | jamsys-daemon/src/dbus.rs:528-543 | what arrives in one piece is a backlog exactly beyond 8 388 608 bytes |
| `DBusStream.ChunkingIsInvisible` | jamsys-daemon/src/dbus.rs:528-572 | below the backlog, messages and errors do not depend on how the bytes were chunked, for arbitrary bytes |
| `DBusStream.StreamRoundTrip` | jamsys-daemon/src/dbus.rs:528-604 | any sequence of built messages, concatenated and delivered in any chunking below the backlog, comes out as exactly those messages in order with an empty buffer |
| `DBusStream.BodyRoundTrip` | jamsys-daemon/src/dbus.rs:334-346 | end to end: values marshalled into a body come out of the received message's `args` |
| `DBusStream.Connection.TakeBufferedMessage` | jamsys-daemon/src/dbus.rs:552-572 | `rbuf` loses exactly the message returned, and nothing when there is none |
| `DBusStream.Connection.TryReadMessages` | jamsys-daemon/src/dbus.rs:528-549 | the read loop and the extraction loop deliver what the run lemmas are about |
| `HistoryModel.MergeAssoc` | jamsys-daemon/src/store.rs:41-55 | accumulating readings in any grouping gives the same count, sum, minimum and maximum |
| `HistoryMeaning.ReadingsSummarize` | jamsys-daemon/src/store.rs:41-55 | the aggregate of a bucket is the count, sum, minimum and maximum of exactly the readings of its metric in its ten seconds |
| `HistoryQueue.CloseKeepsNewest` | jamsys-daemon/src/store.rs:328-335 | below 20 000 queued rows closing a bucket keeps all of them and loses nothing; from there on it drops the oldest 5 000, which are lost, and keeps the others |
| `HistoryQueue.QueuedMeans` | jamsys-daemon/src/store.rs:320-327 | what closing queues is the rows there were and, for each open metric, one with the sum of its readings over their count |
| `HistoryProofs.PushKeepsSampleInv` | jamsys-daemon/src/store.rs:298-335 | after a push every finite reading since the last final flush or opening is in the open accumulator, queued, written or counted as lost, in exactly one of them, and a row of a bucket that is elsewhere is one of readings before that |
| `HistoryProofs.WriteKeepsSampleInv` | jamsys-daemon/src/store.rs:386-402 | writing the queue moves each mean to the table once, and replaces a row only if a restart parts the readings of its bucket |
| `HistoryProofs.FinalKeepsSampleInv` | jamsys-daemon/src/store.rs:339-344 | a final flush leaves nothing open or queued, and every reading in its place |
| `HistoryProofs.ReopenKeepsSampleInv` | jamsys-daemon/src/store.rs:82-104 | so does an opening at any time after the process died, where the open and queued means are lost |
| `HistoryRollups.WindowComplete` | jamsys-daemon/src/store.rs:780-807 | every window a build writes above what is rolled already holds every mean that will ever fall into it |
| `HistoryRollups.NewRowRight` | jamsys-daemon/src/store.rs:780-807 | a row a build writes is right, or its window had a row that expired and it is past its age as it is written |
| `HistoryRollups.BuildKeepsRollInv` | jamsys-daemon/src/store.rs:780-807 | one incremental build leaves no window out and no sample uncovered, and writes no row that is neither right nor past its age |
| `HistoryRollups.RetainKeepsRollInv` | jamsys-daemon/src/store.rs:826-851 | whatever retention manages to delete, no sample that is not rolled goes, and each sample that stays is covered by a row or lies in a window past its age |
| `HistoryMeaning.RowColumns` | jamsys-daemon/src/store.rs:797-805 | a right rollup row holds the number of means of its window, the least, the greatest, their average between the two, and a p95 a twentieth of the range below the greatest |
| `HistoryMeaning.PassKeepsYoungRows` | jamsys-daemon/src/store.rs:826-868 | a pass keeps every rollup row within the configured days of its own size, unchanged, and no older one if at most 250 000 are older |
| `HistoryMeaning.PassKeepsYoungSamples` | jamsys-daemon/src/store.rs:834-836 | the same for samples and the configured hours |
| `HistoryRun.RunKeepsSampleInv` | jamsys-daemon/src/store.rs:298-402 | in every reachable state of every run of pushes, flushes, maintenance passes, final flushes and reopenings at any time, within the same ten seconds too, each reading is in one place, whatever retention is configured and manages to delete |
| `HistoryRun.RunKeepsInv` | jamsys-daemon/src/daemon.rs:524-535 | with raw retention of at least an hour the rollup invariant holds in every such state too |
| `HistoryRun.RowsAreBatchOrExpired` | jamsys-daemon/src/store.rs:780-807 | in every reachable state every rollup row equals the batch aggregate, or its window had a row that expired and it is past its age |
| `HistoryRun.RollupsEqualBatch` | jamsys-daemon/src/store.rs:780-807 | every rollup row of every bucket size equals minimum, maximum, average and count over all ten-second means written to its window, each as last written, if its row never expired, or the latest pass could delete all rows of its size past their age, or rows outlive samples and every pass could delete all samples past theirs |
| `HistoryRun.EveryMeanIsRolled` | jamsys-daemon/src/store.rs:780-807 | over all passes: every mean below the rolled mark is in a row unless that row has expired, and every mean above it is still in the table |
| `HistoryRun.CoarseRowsMergeMinutes` | jamsys-daemon/src/store.rs:780-807 | each such 5- and 15-minute row is the count-weighted merge of the minute rows under it, unless one of these has expired |
| `HistoryRestart.RowsAreMeans` | jamsys-daemon/src/store.rs:378-402 | in every reachable state each sample row whose latest readings have arrived is the mean of exactly the readings of its metric and bucket since the last final flush or opening before the latest of them |
| `HistoryRestart.EarlyIffRestart` | jamsys-daemon/src/store.rs:82-104 | there are readings the row leaves out exactly if a final flush or an opening lies between two readings of the metric in the bucket |
| `HistoryRestart.ExactIffUnparted` | jamsys-daemon/src/store.rs:339-402 | such a row is the mean of all readings of its metric and bucket exactly if no final flush or opening lies between two of them, or those before it happen to have the same mean |
| `HistoryRestart.QuickRestartReplaces` | jamsys-daemon/src/daemon.rs:322-323 | a clean shutdown and a start in the same ten seconds: the row keeps 3 where the mean of the bucket's readings is 2 |
| `HistoryRestart.FinalFlushIsExact` | jamsys-daemon/src/store.rs:339-344 | after any run that ends in a final flush every (metric, bucket) with a finite reading has a row, unless its latest mean was dropped by a full queue or died with a process, or the row expired; the row is the mean of the readings no restart parts from the latest; no other row exists |
| `HistoryQueue.NothingLost` | jamsys-daemon/src/store.rs:320-335 | in a run in which no process dies and fewer than 20 000 rows would be queued at each step, nothing is ever lost |
| `HistoryQueue.OneProcessIsExact` | jamsys-daemon/src/store.rs:298-344 | one process from its first start to its clean shutdown, its queue below 20 000: each (metric, bucket) with a reading has a row unless it expired, the row is the mean of all its readings, and there is no other |
| `HistoryOverload.AnHourIsEnough` | jamsys-daemon/src/store.rs:834-836 | in no reachable state can retention remove a sample that is not rolled, exactly if raw retention is at least one hour; below that a run shows one |
| `HistoryOverload.BuildsRightIff` | jamsys-daemon/src/store.rs:780-807 | a build leaves right rows only, exactly if it found right rows only and no window it scans into has lost a sample |
| `HistoryOverload.LeavesRightIff` | jamsys-daemon/src/store.rs:826-868 | a pass that finds right rows of a size only leaves right rows of it only, whatever rows `LIMIT` picks, exactly if at most 250 000 rows of that size are past their age or, after the flush, no window it scans into has lost a sample |
| `HistoryOverload.AShortRowSurvives` | jamsys-daemon/src/store.rs:826-868 | under the default configuration a run from empty tables exists after which a row counts fewer means than were written to its window, so that it is not the batch row |
| `HistoryOverload.RebuiltWindowIsShort` | jamsys-daemon/src/store.rs:797-805 | a window scanned after some of its samples have expired is written with too low a count |
| `HistoryLive.LiveIsLongestSuffix` | jamsys-daemon/src/store.rs:304-309 | in every reachable state each live ring is the longest suffix of its metric's readings since the store was opened within the window and 1200 points |
| `HistoryStore.Database.Reopen` | jamsys-daemon/src/store.rs:82-104 | a store opened at any time over the tables of an earlier process has lost that process's queue and accumulators, and is in a state of the runs above |
| `HistoryStore.Database.CloseBucket` | jamsys-daemon/src/store.rs:320-335 | draining the accumulators in any map order queues one mean each and drops the oldest quarter of the limit on overflow |
| `HistoryStore.Database.Push` | jamsys-daemon/src/store.rs:298-317 | the method is the push step, and ignores what is not finite |
| `HistoryStore.Database.Flush` | jamsys-daemon/src/store.rs:378-402 | the method is the flush step: close an elapsed bucket, write the queue |
| `HistoryStore.Database.FlushFinal` | jamsys-daemon/src/store.rs:339-344 | the method is the final flush of the runs above: the open bucket is closed before the flush, and the store stays in a reachable state |
| `HistoryStore.Database.LastRolled` | jamsys-daemon/src/store.rs:782-785 | the greatest rolled window start of the bucket size, or 0 |
| `HistoryStore.Database.BuildRollups` | jamsys-daemon/src/store.rs:780-807 | the method writes the rows of the complete windows since the last one |
| `HistoryStore.DeleteInChunks` | jamsys-daemon/src/store.rs:853-863 | statements of 5000 rows until one comes up short, at most 50, delete all stale rows or 250 000 |
| `HistoryStore.Database.EnforceRetention` | jamsys-daemon/src/store.rs:826-868 | each table loses stale rows only |
| `HistoryStore.Database.Maintenance` | jamsys-daemon/src/daemon.rs:524-535 | flush, three builds and retention in this order are one step of the runs above, for every retention, and keep both invariants |
| `Glob.GlobMatch` | jamsys-daemon/src/util.rs:47-72 | the loop over two indices and one remembered star computes the function the theorems are about, and terminates |
| `Glob.ScanDecides` | jamsys-daemon/src/util.rs:47-72 | from every state the loop can reach it decides the match: backtracking to the latest star only loses nothing |
| `Glob.GlobIsRight` | jamsys-daemon/src/util.rs:47-72 | for a text or a pattern without `*` the matcher answers the recursive definition of matching, case folded |
| `Glob.RightIffNoStarInText` | jamsys-daemon/src/util.rs:53-59 | a text is matched rightly by every pattern exactly if it holds no `*` |
| `Glob.StarRejectsStarA` | jamsys-daemon/src/util.rs:53-59 | the shortest wrong answer: `*` does not match `*a` |
| `GlobMeaning.StarFreePattern` | jamsys-daemon/src/util.rs:47-72 | a pattern without `*` accepts exactly the texts of its length that agree with it up to the case of A to Z, `?` standing for any character |
| `GlobMeaning.StarStandsForAnything` | jamsys-daemon/src/util.rs:47-72 | on a text without `*`, a pattern accepts exactly the texts made of one that its part before a star accepts, anything, and one that its part after the star accepts |
| `Stats.Breakdown` | jamsys-daemon/src/util.rs:75-96 | replacing at most (n-1)/2 entries by anything, NaN included, leaves the median within the untouched entries and the MAD within their range |
| `Stats.BreakdownIsSharp` | jamsys-daemon/src/util.rs:75-88 | with half of the entries replaced the median can leave that range |
| `Stats.PercentileMono` | jamsys-daemon/src/util.rs:99-113 | `percentile` is monotone in `q`, also outside 0..1 |
| `Stats.HalfIsMedian` | jamsys-daemon/src/util.rs:75-113 | `percentile(v, 0.5)` is `median(v)` |
| `StatsRanks.RankedOnce` | jamsys-daemon/src/util.rs:75-113 | an entry of a sample is determined by how many lie below and above it |
| `StatsRanks.MedianByRank` | jamsys-daemon/src/util.rs:75-88 | the median is halfway between the entries of the two middle ranks |
| `StatsRanks.MadByRank` | jamsys-daemon/src/util.rs:90-96 | the MAD is halfway between the two middle distances of the finite readings from the given point |
| `StatsRanks.PercentileByRank` | jamsys-daemon/src/util.rs:99-113 | of n finite readings the fraction k/(n-1) gives the one with at most k below it and at most n-1-k above |
| `StatsRanks.PercentileBetween` | jamsys-daemon/src/util.rs:108-112 | between two ranks the percentile moves in proportion |
| `StatsRanks.PercentileEnds` | jamsys-daemon/src/util.rs:99-113 | the fractions 0 and 1 give the least and the greatest finite reading |
| `StatsRanks.PercentileOutside` | jamsys-daemon/src/util.rs:107 | fractions beyond 0 and 1 count as these |
| `Baseline.ReachableBaseline` | jamsys-daemon/src/anomaly/baseline.rs:48-79 | after any readings the reservoir holds min(finite readings, window) values of distinct readings, the count saturates, and p05 <= median <= p95 |
| `Baseline.PublishedIsRecent` | jamsys-daemon/src/anomaly/baseline.rs:64-79 | the published median, MAD and percentiles are exactly those of the reservoir as it was `dirty` finite readings ago: none for the first 31 readings, and from there on every sixteenth brings them up to date |
| `Reservoir.KeptAreHeld` | jamsys-daemon/src/anomaly/baseline.rs:52-63 | the slots hold the readings the counting below is about |
| `Reservoir.ReservoirIsFair` | jamsys-daemon/src/anomaly/baseline.rs:56-62 | after N readings each of them, the first as much as the last, is in a reservoir of w slots in exactly w of every N ways to draw |
| `Baseline.Series.Push` | jamsys-daemon/src/anomaly/baseline.rs:48-68 | the method is the step the runs are made of, and ignores what is not finite |
| `Baseline.Series.Recompute` | jamsys-daemon/src/anomaly/baseline.rs:70-79 | median, MAD and percentiles of the reservoir are stored and `dirty` is reset |
| `TokenBucket.RateBound` | jamsys-daemon/src/anomaly/alerts.rs:32-43 | for non-decreasing times the successful takes between any two of them number at most capacity plus what is earned in between |
| `TokenBucketExact.SucceedsIff` | jamsys-daemon/src/anomaly/alerts.rs:32-43 | a take succeeds exactly if no stretch of takes that ends with it uses more than the capacity and what is earned in the stretch, nor all of them more than the tokens at the start and what was earned since |
| `TokenBucketExact.NewBucketIff` | jamsys-daemon/src/anomaly/alerts.rs:22-31 | for a new bucket: exactly if no such stretch goes beyond `burst` and one for every `refill_s` seconds it lasts |
| `TokenBucket.FailuresCounted` | jamsys-daemon/src/anomaly/alerts.rs:32-43 | every failed take is counted once |
| `TokenBucket.Bucket.TakeOne` | jamsys-daemon/src/anomaly/alerts.rs:32-43 | the method is the step, and tokens stay in 0..capacity |
| `AlertModel.SeverityRoundTrip` | jamsys-daemon/src/types.rs:73-88 | severities survive the database, and `from_i64` maps all else to critical |
| `AlertProofs.RefireEffect` | jamsys-daemon/src/store.rs:476-506 | a re-fire replaces the fingerprint's one open row by the re-fired one and leaves every other open row as it was |
| `AlertCounts.RefireCounts` | jamsys-daemon/src/store.rs:476-506 | a re-fire counts exactly if it comes at least 300 s (info, notice), 180 s (warning) or 60 s (critical) and less than six hours after the last one; it takes the new time and keeps the notification id |
| `AlertCounts.CountIsGaps` | jamsys-daemon/src/store.rs:476-506 | over any run in which an alert stays open, restarts included, its count is one and one more for each such gap between consecutive firings, and its time that of the latest firing |
| `AlertProofs.UpsertEffect` | jamsys-daemon/src/store.rs:460-517 | after an upsert the fingerprint has one open row at the new severity; it is reported new exactly if none was open or the severity rose; all other open rows are as before |
| `AlertProofs.ResolveEffect` | jamsys-daemon/src/store.rs:519-525 | resolving closes the fingerprint's open row and no other |
| `AlertCounts.ResolvedRow` | jamsys-daemon/src/store.rs:519-525 | resolving stamps the open row with the time and changes nothing else in the table |
| `AlertCounts.ClearNowCloses` | jamsys-daemon/src/anomaly/alerts.rs:199-206 | an immediate clear closes the alert in memory and in the table, and no other |
| `AlertProofs.DropEffect` | jamsys-daemon/src/store.rs:849-851 | retention of alerts never touches an open row |
| `AlertCounts.DroppedRows` | jamsys-daemon/src/store.rs:849-851 | a row goes exactly if it was chosen, is resolved and is past its age; the others stay as they are |
| `AlertProofs.RunKeepsInv` | jamsys-daemon/src/anomaly/alerts.rs:122-206 | over every run of raise, clear, immediate clear, retention and restart the `open` map is the unresolved rows with their severities, there is at most one of them per fingerprint, and `clearing` and `notified` only hold open fingerprints |
| `AlertProofs.EmptyAgrees` | jamsys-daemon/src/anomaly/alerts.rs:66-82 | the first start, over an empty table, satisfies what every run keeps |
| `AlertProofs.RestartRebuildsIff` | jamsys-daemon/src/anomaly/alerts.rs:83-97 | a restart rebuilds `open` with its severities exactly if at most 500 alerts are open |
| `AlertRuns.NotifiesIff` | jamsys-daemon/src/anomaly/alerts.rs:148-178 | a raise notifies exactly if it is not muted, is configured to, gets a token, and was never notified, is worse than last notified, or is worse than last recorded with the cooldown over |
| `AlertRuns.SpacedOrWorse` | jamsys-daemon/src/anomaly/alerts.rs:148-196 | of two notifications of one fingerprint less than 60 s apart the later has the higher severity |
| `AlertRuns.AtMostFourAMinute` | jamsys-daemon/src/anomaly/alerts.rs:148-196 | one fingerprint notifies at most four times in any stretch of less than 60 s |
| `AlertRuns.RestartIsQuiet` | jamsys-daemon/src/anomaly/alerts.rs:83-97 | after a restart a reloaded alert does not notify while it stays open and no raise goes above the severity on record |
| `AlertRuns.DipAndReturnNotifies` | jamsys-daemon/src/anomaly/alerts.rs:148-178 | but it notifies again if it dips and returns to the severity it was reloaded at once the cooldown is over |
| `AlertRuns.RestartReloadsId` | jamsys-daemon/src/anomaly/alerts.rs:86-94 | after any run in which an alert stays open, restarts included, a restart reloads the id of the last notification sent for it, so that it can be replaced or withdrawn |
| `AlertToasts.RememberedUnlessLost` | jamsys-daemon/src/anomaly/alerts.rs:148-178 | in any run, restarts included, while an alert stays open the manager remembers the id of the last notification sent for it, or 0 if a later raise was unmuted news that was not deliverable and no restart has come since |
| `AlertToasts.ForgottenIff` | jamsys-daemon/src/anomaly/alerts.rs:158-170 | for a notification with an id, that is the exact condition for forgetting it |
| `AlertToasts.EscalationForgetsId` | jamsys-daemon/src/anomaly/alerts.rs:158-161 | a warning is shown and gets critical with the desktop switched off: the id is forgotten, and the table still has it |
| `AlertRuns.ResolvesIffHeld` | jamsys-daemon/src/anomaly/alerts.rs:183-196 | a clear resolves an open alert exactly if an earlier clear, with no raise or restart since, is at least 120 s old |
| `AlertRate.NotificationsAreLimited` | jamsys-daemon/src/anomaly/alerts.rs:163-178 | over all fingerprints the notifications of one severity in any run without a restart number at most the bucket's capacity plus what it earns in that time |
| `AlertRate.RestartAllows` | jamsys-daemon/src/anomaly/alerts.rs:66-82 | after a restart each severity sends at most `burst` notifications and one more for every `refill_s` seconds |
| `AlertCounts.TotalsAddUp` | jamsys-daemon/src/anomaly/alerts.rs:122-179 | without a restart, `total_raised` counts the unmuted raises of alerts that were not open or got worse, and `total_suppressed` the muted raises and what the rate limiters refused, each once |
| `AlertManagement.AlertTable.UpsertAlert` | jamsys-daemon/src/store.rs:460-517 | the method is the upsert the lemmas are about, new-or-worse answer included |
| `AlertManagement.AlertTable.ResolveAlert` | jamsys-daemon/src/store.rs:519-525 | the open row gets its resolution time; the answer says if there was one |
| `AlertManagement.AlertTable.StoreNotifyId` | jamsys-daemon/src/store.rs:243-249 | the notification id goes to the open row only |
| `AlertManagement.AlertManager.constructor` | jamsys-daemon/src/anomaly/alerts.rs:66-99 | reloading row by row gives the open and notified maps of the restart the lemmas are about |
| `AlertManagement.AlertManager.RaiseAlert` | jamsys-daemon/src/anomaly/alerts.rs:122-179 | the method, branch by branch, is the raise step on manager and table, its answer included |
| `AlertManagement.AlertManager.ClearAlert` | jamsys-daemon/src/anomaly/alerts.rs:183-196 | the method is the clear step |
| `Dwell.TableIsRuns` | jamsys-daemon/src/anomaly/dwell.rs:24-56 | the table holds, for each key, the start of its unbroken run of true updates, and nothing else |
| `Dwell.UpdateReportsRun` | jamsys-daemon/src/anomaly/dwell.rs:24-38 | a true update reports h exactly if h is at least the requirement and is the whole seconds since that start |
| `Dwell.RunIsUnbroken` | jamsys-daemon/src/anomaly/dwell.rs:24-37 | within such a run every update of the key was true, none went back before its start, and none was a clear |
| `Dwell.Tracker.Update` | jamsys-daemon/src/anomaly/dwell.rs:24-38 | the method is the step, backward clock included |
| `ClientProofs.CloseKeepsCalls` | jamsys-ui/jamsys_ui/client.py:128-140 | taking a socket down leaves every call that was registered on it owed a message |
| `ClientRuns.RunKeepsInv` | jamsys-ui/jamsys_ui/client.py:57-266 | the protocol's invariants hold in every reachable state of every interleaving |
| `ClientRuns.ConnectedIffPublished` | jamsys-ui/jamsys_ui/client.py:102-121 | `connected` is true exactly while a socket is published, and the published socket's reader has not yet closed it |
| `ClientRuns.PublishedAndRetiredOnce` | jamsys-ui/jamsys_ui/client.py:102-135 | each socket is published once and retired once, in the same order, and all published ones but the current are retired |
| `ClientRuns.RetiredIsClosed` | jamsys-ui/jamsys_ui/client.py:128-153 | a retired socket is closed, or else exactly one thread is committed to closing it |
| `ClientRuns.StepKeepsPlaces` | jamsys-ui/jamsys_ui/client.py:57-153 | every socket ever made is connecting, published, about to be closed or closed: exactly one of these |
| `ClientRuns.OnlyOwnersRetire` | jamsys-ui/jamsys_ui/client.py:128-135 | only its own reader, one of its own calls or shutdown unpublishes a socket, so a retiring reader never unpublishes its replacement |
| `ClientRuns.PendingIsOnPublished` | jamsys-ui/jamsys_ui/client.py:177-184 | every pending entry is a call registered on the published socket that has not returned |
| `ClientRuns.NoLostWaiter` | jamsys-ui/jamsys_ui/client.py:128-140 | a call still waiting on a socket that is no longer published has a message to take, or a closing thread is committed to putting one |
| `ClientRuns.DebtIsPayable` | jamsys-ui/jamsys_ui/client.py:136-140 | the committed thread can always put the message at once, and the call can then take it |
| `ClientRuns.QueuesExist` | jamsys-ui/jamsys_ui/client.py:250-258 | readers and closers only ever hold queues of calls that were made |
| `ClientRuns.OneOutcome` | jamsys-ui/jamsys_ui/client.py:175-223 | once a call has decided on a reply or an error it keeps it, whatever races with it |
| `ClientRuns.RepliesAreOwn` | jamsys-ui/jamsys_ui/client.py:233-262 | a reply a call returns was read from the socket the call was made on |
| `ClientRuns.AnnouncementsAlternate` | jamsys-ui/jamsys_ui/client.py:114-126 | queued state announcements strictly alternate, what the interface was shown is a prefix of them, and until the stop the latest says whether a socket is published |
| `ClientRuns.NothingAfterShutdown` | jamsys-ui/jamsys_ui/client.py:264-266 | once shutdown's close has run, no socket is published, no call registered, nothing announced and nothing shown, ever |
| `ClientProgress.ConnectStarts` | jamsys-ui/jamsys_ui/client.py:57-64 | connecting makes a socket of its own exactly if the client is not stopping and nothing is published |
| `ClientProgress.PublishWorks` | jamsys-ui/jamsys_ui/client.py:102-112 | from any reachable state, a finished handshake is published unless the client is stopping: connected, with a reader, not closed, and announced unless the stop comes first |
| `ClientProgress.StoppedPublishCloses` | jamsys-ui/jamsys_ui/client.py:102-106 | when the client is stopping it is closed instead, and nobody is told |
| `ClientProgress.FailureReported` | jamsys-ui/jamsys_ui/client.py:93-100 | a failed handshake closes its socket and is announced once |
| `ClientProgress.CallRegisters` | jamsys-ui/jamsys_ui/client.py:175-184 | a call is refused without a trace exactly if nothing is published or the client is stopping; otherwise it is registered on the published socket under an id of its own |
| `ClientProgress.ReplyArrives` | jamsys-ui/jamsys_ui/client.py:250-258 | a reply read from the published socket reaches the empty queue of a call registered on it, and changes nothing else |
| `ClientProgress.StrayReplyIsDropped` | jamsys-ui/jamsys_ui/client.py:250-254 | a reply to a call that is not registered changes nothing |
| `ClientProgress.ReplacedReaderRetires` | jamsys-ui/jamsys_ui/client.py:250-252 | a reader whose socket is not the published one retires at its next reply |
| `ClientProgress.CallIsAnswered` | jamsys-ui/jamsys_ui/client.py:175-223 | from any reachable state with a published socket and its reader reading, a call that is replied to returns that reply and leaves all else as it was |
| `ClientProgress.RefusedCallKeepsSocket` | jamsys-ui/jamsys_ui/client.py:185-192 | a request that cannot be sent at all fails and leaves the socket published |
| `ClientProgress.FailedCallTakesDown` | jamsys-ui/jamsys_ui/client.py:194-219 | a call that cannot be written or is not answered fails with that, and takes its socket down: unpublished, retired, a thread committed to closing it and to telling every registered call |
| `ClientProgress.WaiterIsTold` | jamsys-ui/jamsys_ui/client.py:128-140 | when the daemon closes the connection the socket is taken down like that, and a waiting call returns the disconnection |
| `ClientProgress.CloserFinishes` | jamsys-ui/jamsys_ui/client.py:136-153 | a thread committed to closing can always tell every call it owes and then close its socket, and replaces no message that is there |
| `ClientProgress.FirstMessageWins` | jamsys-ui/jamsys_ui/client.py:254-258 | the first message put into a call's queue stays there until the call takes it, whatever is put later |
| `ClientProgress.ShutdownTakesDown` | jamsys-ui/jamsys_ui/client.py:264-266 | so does shutdown |
| `ClientProgress.ShownInOrder` | jamsys-ui/jamsys_ui/client.py:123-126 | until the stop the interface has been shown exactly the announcements whose callbacks have run, in order |
| `ClientObject.Client.ChangeState` | jamsys-ui/jamsys_ui/client.py:114-121 | `_set_state` queues an announcement unless it repeats the last or the client is stopping |
| `ClientObject.Client.BeginConnect` | jamsys-ui/jamsys_ui/client.py:58-63 | connecting goes ahead exactly if the client is not stopping and nothing is published; otherwise the answer is whether it is not stopping |
| `ClientObject.Client.PublishSocket` | jamsys-ui/jamsys_ui/client.py:102-112 | the last block of `connect`, with the stop flag arriving before or during it |
| `ClientObject.Client.ConnectFailed` | jamsys-ui/jamsys_ui/client.py:97-100 | the block after a failed handshake, with the stop flag arriving before or during it |
| `ClientObject.Client.Close` | jamsys-ui/jamsys_ui/client.py:128-140 | the block of `_close` and its puts: every queue taken ends up full, and one that was full keeps what it had |
| `ClientObject.Client.RegisterCall` | jamsys-ui/jamsys_ui/client.py:177-184 | a call is refused, or registered under a fresh id with an empty queue |
| `ClientObject.Client.FindQueue` | jamsys-ui/jamsys_ui/client.py:250-253 | the reader leaves if its socket was replaced, and otherwise finds exactly the queue of the reply's id |
| `ClientObject.Client.Forget` | jamsys-ui/jamsys_ui/client.py:221-223 | the call's entry, and no other, is removed |
| `IpcFraming.LinesAppend` | jamsys-daemon/src/ipc.rs:111-131 | splitting in two goes, carrying the unterminated tail, is splitting at once |
| `IpcFraming.ChunkingIsInvisible` | jamsys-daemon/src/ipc.rs:81-133 | while each call stays below 1 MiB, a connection is rejected exactly if some line, complete or not, exceeds 64 KiB; otherwise the lines served are the newline split of everything received and `inbuf` is its tail; a run with a call beyond 1 MiB is always rejected |
| `IpcFraming.OneLineRun` | jamsys-daemon/src/ipc.rs:81-117 | a line that arrives in one piece is served up to 65 536 bytes, too long from there, and a backlog from 1 048 576 |
| `IpcFraming.RequestsAreParsed` | jamsys-daemon/src/ipc.rs:111-131 | every line the parser takes for a request is served once, in order, and nothing else is |
| `IpcFraming.RepliesAreFramed` | jamsys-daemon/src/ipc.rs:124-130 | every malformed line is answered once, in order, on a line of its own |
| `IpcFraming.Connection.ReadRequests` | jamsys-daemon/src/ipc.rs:81-133 | the method serves the lines of the run lemmas in order, hands each to the parser, and queues the parser's errors |
| `IpcFraming.Connection.Send` | jamsys-daemon/src/ipc.rs:135-140 | the frame and a newline join the queue, as much of it is written as the socket accepts, and the send succeeds exactly if at most 4 MiB stay queued |
| `IpcFraming.Connection.Flush` | jamsys-daemon/src/ipc.rs:144-162 | a flush writes as much of the queue as the socket accepts, loses, repeats and reorders no byte, and fails exactly if more than 4 MiB stay queued |
| `NaturalOrder.NaturalCmp` | jamsys-daemon/src/sysfs.rs:63-94 | the two-iterator loop compares the token sequences: digit runs by saturated value, other characters singly |
| `NaturalOrder.TotalPreorder` | jamsys-daemon/src/sysfs.rs:63-94 | the order is total, flips when swapped, is transitive, and is equal exactly on equal token sequences |
| `NaturalOrder.NumberedNames` | jamsys-daemon/src/sysfs.rs:63-94 | after a common name, numbers order by value |
| `NaturalNames.NumbersInOrder` | jamsys-daemon/src/sysfs.rs:63-94 | after a common name numbers in decimal notation order by value, up to the largest u64 |
| `NaturalNames.HugeNumbersAreEqual` | jamsys-daemon/src/sysfs.rs:72-83 | numbers from there on are all equal |
| `NaturalNames.FirstDifferenceDecides` | jamsys-daemon/src/sysfs.rs:86-91 | after a common name the first differing character decides, unless both are digits |
| `NaturalNames.PrefixFirst` | jamsys-daemon/src/sysfs.rs:63-70 | a name comes before every longer name that starts with it |
| `Deduper.Conservation` | jamsys-daemon/src/journal.rs:282-298 | calls = reports + suppressed counts they carried + the count still pending, per key |
| `Deduper.ReportsAreSpaced` | jamsys-daemon/src/journal.rs:282-298 | two reports of one key are at least a window apart, for any clock without collection |
| `Deduper.ReportsIff` | jamsys-daemon/src/journal.rs:282-298 | a call reports exactly if its key was never reported or was last reported at least a window ago, and then says how many calls there were since |
| `Deduper.ReportsAreSpacedWithGc` | jamsys-daemon/src/journal.rs:282-306 | and for a clock that does not go back with any collections in between |
| `Deduper.GcIsInvisible` | jamsys-daemon/src/journal.rs:300-306 | collection anywhere in a run never changes which calls report |
| `Deduper.CollectedIff` | jamsys-daemon/src/journal.rs:302-305 | collection keeps a key, as it is, exactly for ten windows after its last report |
| `Deduper.Table.AdmitKey` | jamsys-daemon/src/journal.rs:282-298 | the method is the step |

## Left out

What the theorems above assume, or say less about:

- HistoryRun.RunKeepsInv: clock readings do not go backwards, are at least 15 minutes after the epoch, and one maintenance pass uses one reading, where `flush` and `build_rollups` each read the clock; raw retention is at least an hour, see `AnHourIsEnough`.
- HistoryRestart.RowsAreMeans: what a queue dropped, or died with a process, has no row or keeps the one written before it.
- HistoryOverload.AShortRowSurvives: which rows `LIMIT` takes is chosen freely, as SQL allows; SQLite's present order is not modelled.
- HistoryRun.RollupsEqualBatch: the p95 column is the code's own approximation, from minimum and maximum (`RowColumns`), and is compared as such.
- DBusRoundTrip.RoundTrip: doubles are carried as their eight bytes.
- AlertProofs.RunKeepsInv: store operations succeed; restarts with more than 500 open alerts are excluded, see `RestartRebuildsIff`; row ids are never used again, where SQLite may use the id of a deleted row.
- AlertRuns.AtMostFourAMinute: runs contain no restart and no immediate clear, which only tests call.
- ClientRuns.NoLostWaiter: threads are not forced to make progress; a committed thread's step is always possible, but when it runs is left open, and so are the ten-second deadlines, which may fire whenever the queue is empty.
- ClientRuns.OneOutcome: a caller that gives up may leave before the thread that closes its socket has filled all queues, which the source does not do; this only adds behaviours.
- IpcFraming.ChunkingIsInvisible: of a run with a call beyond the backlog it does not say which of the two errors it ends in.

What is not modelled at all:

- Sockets, epoll, SASL, the kernel and `/proc` readers, NVML: foreign calls. Where bytes arrive, the chunks are parameters.
- SQLite, JSON and TOML: tables are maps keyed by primary key, and the line parser is a parameter.
- Rounding, NaN and infinities inside computations: values are `real`, and what is not finite is dropped where the code drops it; the 32-bit floats of the live rings are not modelled.
- Width of counters that only count (`count`, `suppressed`, the deduper's count); message serials and lengths keep their 32 bits.
- Interning of metric ids, the event and baseline tables, history queries.
- Suppression rules: whether an alert is muted is an input of each raise. Delivery of a notification: its id is an input, and withdrawing it from the screen has no model.
- `theil_sen_slope`, `robust_z`, `Baselines::evaluate`, `observe`, `freeze`, `export` and `import`: single formulas and map plumbing. The reservoir's pseudo-random draw is an input; `ReservoirIsFair` counts over all draws.
- The IPC client table (`accept`, eviction of idle clients, `broadcast`): it would only add easy members.
- Threshold rules, cause texts, reports, widgets, and the keyboard, power and helper programs.
