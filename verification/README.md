# Verification of Nile's message log and message pump

Nile keeps the messages for a long-running helper process, the neb, in a segmented write-ahead log
and hands them to it one at a time, in order, over JSON-RPC lines. This project models that core and
proves, of all its runs, when what was appended is what is delivered, when nothing is skipped or
lost, and what holds on disk. Where the code keeps a promise only under a condition, the condition is
part of the theorem, and where it can be it is exact.

Models are taken in the form of the code: what changes fields or buffers is a class or a method with
loops (`Record.Reader`, `Cursor.JSONCursor`, `Wal.Disk`, `Wal.Log`, `Manager.Manager`,
`Transport.Stdio`), and each method is proved against functions on values about which the lemmas are
proved. The manager runs over the log, and the log over the bytes of its files.

## How the modules build on each other

- `Bits`, `Crc32`, `Record`, `Segment`, `Names`: bytes, the IEEE CRC-32 of section 8 of RFC 1952, the
  record codec, segment files and their names. `Division` and `CheckValue` say which checksum it is:
  a remainder of polynomials, and what it is of the digits from 1 to 9.
- `LogState`, `Recovery`, `Refresh`, `Packing`: the disk (segment files by base), the in-memory index
  and the three ways it is built, as values. A *layout*, consecutive chunks of messages, is the
  abstract log; `FilesOf` and `MemOf` give its disk and memory.
- `Store`: the log as the pump sees it. What is on disk (messages, where segments begin) is kept apart
  from what the process knows (which segments, what it answers for each offset), because a look at
  the disk can miss messages. `Store.Safe` says when it does not.
- `View`: the memory of a log, after any looks, shows such a store, and looking, reading and the
  appends of others do to it what `Store` says.
- `Cursor`, `Snapshot`, `Wal`: the classes over a disk. `Wal.Log.Abs` is the store a log stands for,
  and every method is proved to be the operation of `Store` on it.
- `Senders`: a process that appends through one log that it keeps open, as `nile send` does, and what
  becomes of it when the log is truncated meanwhile.
- `States`, `Pump`: the lifecycle manager as a state machine, one step for each interaction with the
  store, the neb or the stop channel. A sender opens a log or appends before any step, the neb
  succeeds or fails, the process ends between any two steps and a new one, with a configuration of
  its own, starts on what is on disk. A dead letter is two steps, writing and saving the cursor.
  Truncations number the *epochs*: offsets start again at 0 in each.
- `Delivery`, `Looks`, `Ledger`, `Conservation`, `Order`, `Retries`, `Draining`, `PostProcessing`,
  `Retention`, `Trace`: theorems about all runs of that machine (`Pump.IsRun`, `Pump.Reachable`).
  `Faults`: runs that lose sight of a message. `Transitions`: runs that make each legal state change.
- `Manager`: the manager's code over `Wal.Log`, with other processes appending by `Wal.Log.Send`,
  proved to take the machine's steps and to send its requests; `RunProcess` carries the theorems over.
- `Damage`: an open log whose files are altered, cut or removed. `Leftover`: a log whose first segment
  files are gone. `TornTruncate`: what a truncation leaves that does not come to its end. `StaleLog`:
  what a log does that was open at a truncation.
- `Transport`: requests and responses over the neb's pipes. `Outage`: the machine over a transport
  that has timed out.

## Where the code falls short of its promises

- `refresh` adds new segments instead of re-reading the one that was last: it agrees with recovery
  exactly when not both has that segment grown and a segment been added
  (`Refresh.RefreshRefinesRecovery`). Otherwise the pump delivers a later message in place of the one
  that is due and skips that one (`Refresh.UnsafeRefreshSkips`, `Faults.LookDecidesDelivery`), as in
  the run of `Faults.MessageSkipped`, where another process with segments of the default size appends
  a message that fills the last one and then one more. At-least-once delivery holds exactly when the
  cursor is never saved past such an answer (`Delivery.DeliveredExactly`), which for messages that
  differ from each other is when no process saves it beyond what it knew before an unsafe look
  (`Looks.DeliveredByLooks`); so it holds whenever all looks of the run are safe
  (`Delivery.AtLeastOnceDelivery`). After an unsafe look a pump that is left alone may panic instead of
  draining the log (`Draining.DrainsOrPanics`).
- `Snapshot` holds the known segments and `Truncate` deletes all: what is deleted was handled or
  retained exactly when every truncation finds nothing on disk beyond its snapshot
  (`Conservation.DeletedExactly`), which is when no segment was unknown at the snapshot and nothing was
  appended until the truncation (`Conservation.LosesByEvents`); `Faults.MessageLost` is a run with a
  loss.
- Nothing tells a log that is open that another process has truncated the directory. `Append` goes on
  to return offsets, but its messages are in no file until the last segment is full, and after that in
  the directory under numbers that nobody finds: a message is there under its offset exactly if there
  was no truncation since the log was opened, or the log was empty (`StaleLog.OpenAcrossTruncation`,
  `StaleLog.StaleAnswers`). `nile send` keeps one log open for all its messages, so nothing at all is
  lost exactly when truncations find nothing new and nobody appends to a log truncated since it was
  opened (`Conservation.NothingLost`); `Faults.MessageVanished` is a run with such a loss.
- `Append` does not check the payload size that reading refuses: `Record.RoundTrip` and
  `Segment.AppendedReads` hold exactly for payloads of at most 64 MiB.
- Recovery reopens a torn segment without cutting the torn tail: messages appended behind a tail can
  be read exactly when the tail is empty (`Segment.AppendBehindTail`).
- `refresh` leaves the writable segment as it was: a message appended afterwards can be read exactly
  when that segment is still the last one or is full (`Recovery.AppendThenRead`).
- `Truncate` deletes the files one by one before it saves the cursor: if it ends in between, the next
  process numbers what is left from 0 and answers with later messages, or panics
  (`TornTruncate.TornTruncateAnswers`), if not at once then on the next message to be appended
  (`TornTruncate.TornThenAppended`), or skips new ones (`TornTruncate.EmptiedSkips`).
- After one timeout the transport refuses all requests, and the manager goes on with it: every message
  it passes from then on is dead-lettered (`Outage.OutageBuries`).
- A look reads the files of segments that are new, and of the last one, again: damage to another one is
  not noticed until a message in it is read (`Damage.LooksAtDamaged`, `Damage.DamagedAnswers`).
- A negative `MaxRetries` dead-letters every message unsent (`Retries.NegativeRetriesNeverSend`).
- File names that parse like a segment's but differ from it, such as `seg-5.wal`, are listed under
  another file's number (`Names.ForeignName`); listings are right exactly when each number belongs to
  one file (`Names.ListedExactly`).

## Model

| member | source | states |
|---|---|---|
| `Crc32.RegisterFeeds` | pkg/wal/record.go:28 | The byte-wise checksum register is the shift register fed with the message's bits one at a time, low bits first. |
| `Division.ChecksumIsRemainder` | pkg/wal/record.go:28 | The checksum is the complement of the remainder modulo x^32 + x^26 + x^23 + x^22 + x^16 + x^12 + x^11 + x^10 + x^8 + x^7 + x^5 + x^4 + x^2 + x + 1 of the message's bits followed by 32 zeros, with its first 32 bits complemented. |
| `Division.RemainderIsUnique` | pkg/wal/record.go:28 | Long division by that polynomial leaves r of everything that is a multiple of it plus r, for any r of degree below 32. |
| `Division.Divides` | pkg/wal/record.go:28 | Everything is a multiple of it plus what long division leaves. |
| `CheckValue.ChecksumReads` | pkg/wal/record.go:28 | The checksum is the one computed with 32-bit words by shifting right and adding 0xEDB88320. |
| `CheckValue.ChecksumOfDigits` | pkg/wal/record.go:28 | The checksum of the nine bytes of 123456789 is 0xCBF43926. |
| `Crc32.UnfeedAll` | pkg/wal/record.go:61 | The register can be run backwards: equal registers after n <= 32 bits, whatever the bits, agree from bit n on before them. |
| `Crc32.BurstDetected` | pkg/wal/record.go:61-63 | Two messages of one length whose bits differ, and only within 32 consecutive bits, have different checksums. |
| `Crc32.FourBytesBurst` | pkg/wal/record.go:61-63 | Altering up to four consecutive bytes is such a burst of bits. |
| `Record.RoundTrip` | pkg/wal/record.go:25-65 | Decoding an encoded payload with anything behind it gives the payload and leaves the rest, if and only if the payload is at most 64 MiB. |
| `Record.TooLargeRefused` | pkg/wal/record.go:15-51 | A length of more than 67108864 is refused as too large, whatever follows it, however little. |
| `Record.HeaderBytes` | pkg/wal/record.go:25-31 | The first four bytes are the length and the next four the checksum, each with the lowest byte first, and the payload is behind them. |
| `Record.DecodedIsEncoded` | pkg/wal/record.go:37-65 | Whatever decodes is, byte for byte, the encoding of what it decodes to, followed by the rest. |
| `Record.CutRecord` | pkg/wal/record.go:33-59 | A record cut short decodes as truncated, and cut to nothing as the end of the file. |
| `Record.BurstRefused` | pkg/wal/record.go:61-63 | A record with a burst of at most 32 bits in its payload is refused as corrupt. |
| `Record.EncodeRecord` | pkg/wal/record.go:25-31 | The buffer written in one call holds length and checksum, little-endian, and the payload. |
| `Record.PutUint32` | pkg/wal/record.go:27-28 | Four bytes of the buffer become the number modulo 2^32, little-endian; the others stay. |
| `Record.Reader.ReadFull` | pkg/wal/record.go:39-44 | Reads exactly n bytes, or what there is and then tells an empty rest from a short one. |
| `Record.DecodeRecord` | pkg/wal/record.go:37-65 | Reading from a stream takes one record off its front, or fails with the error that decoding the rest of the stream gives. |
| `Segment.ReadAllRecords` | pkg/wal/segment.go:103-125 | The reading loop returns the records and the error that the recursive definition gives. |
| `Segment.ReadEncoded` | pkg/wal/segment.go:80-125 | What was written record after record is read back, in order and without error. |
| `Segment.ReadIsPrefix` | pkg/wal/segment.go:100-125 | Every file at all is the encoding of the records read from it, followed by a tail from which no record can be read and which gives the error. |
| `Segment.ReadConcat` | pkg/wal/segment.go:103-125 | Reading a cleanly ended file followed by another is reading the one and then the other. |
| `Segment.TornTail` | pkg/wal/segment.go:100-119 | A file cut at any byte reads, without error, as its first n messages, n being the most whose encodings fit before the cut; `Segment.Whole` finds it. |
| `Segment.AppendedReads` | pkg/wal/wal.go:111-129 | A message written behind others is read back if and only if it is at most 64 MiB. |
| `Segment.TooLargeStops` | pkg/wal/segment.go:103-131 | Behind a record of more than 64 MiB nothing of a file is read, and reading returns that error. |
| `Segment.AppendBehindTail` | pkg/wal/wal.go:473-482 | Behind an unread tail, every message appended is read back if and only if the tail is empty. |
| `Segment.CorruptionDetected` | pkg/wal/segment.go:102-124 | A burst of at most 32 bits in the payload of record j: exactly the first j records are read, with the corruption error. |
| `Segment.FourBytesDetected` | pkg/wal/segment.go:102-124 | The same for up to four consecutive payload bytes of record j, given by their place in the file. |
| `Names.NameRoundTrip` | pkg/wal/segment.go:26-42 | A segment's name parses as its base if and only if the base is below 2^64. |
| `Names.ParsesExactly` | pkg/wal/segment.go:31-43 | A name is parsed as n if and only if it is seg-, a decimal numeral of n below 2^64, and .wal. |
| `Names.SixDigitsLong` | pkg/wal/segment.go:25-28 | Numbers below a million are written with six digits, others without a zero first. |
| `Names.NameExamples` | pkg/wal/segment.go:25-28 | Segment 0 is seg-000000.wal and segment 1234567 is seg-1234567.wal. |
| `Names.NamesDiffer` | pkg/wal/segment.go:26-28 | Segments with different bases have different names. |
| `Names.ForeignName` | pkg/wal/segment.go:30-42 | Other names parse too: seg-5.wal as 5, though segment 5 has another name. |
| `Names.ListSegments` | pkg/wal/segment.go:139-156 | The listing is ascending and has, as often as the directory, the numbers of the files named like segments. |
| `Names.ListedExactly` | pkg/wal/segment.go:138-156 | Whatever the order of the directory, the listing is exactly the given bases, strictly ascending, if and only if each is the number of just one file and no file has another number. |
| `Names.DirectoriesSkipped` | pkg/wal/segment.go:145-148 | A directory changes nothing in a listing, whatever its name. |
| `Names.ListingExact` | pkg/wal/segment.go:138-156 | So in a directory that holds the files of the given segments among others the listing is exactly their bases, strictly ascending. |
| `Names.ForeignNameBreaksListing` | pkg/wal/segment.go:30-42 | With such a file beside the segment's own the listing is never that of the segments. |
| `Recovery.AppendInStep` | pkg/wal/wal.go:111-138 | Appending changes files, segment list, index, nextIdx and active segment from those of the log before to those of the log with the message. |
| `Recovery.RollsOnto` | pkg/wal/segment.go:63-77 | A file that has the new segment's name already keeps what it has, the message goes behind it, and the segment counts the message only. |
| `Recovery.IndexFinds` | pkg/wal/wal.go:56-65 | The index entry of offset o names the segment and the record in it that hold the o-th message. |
| `Recovery.RecoverInStep` | pkg/wal/wal.go:428-486 | Recovery from the files of a log builds its segments with sizes, index, nextIdx and active segment. |
| `Recovery.RecoverReads` | pkg/wal/wal.go:428-486 | With torn tails behind any segments, recovery builds the log of the records before the tails; only the sizes count the tails. |
| `Recovery.RecoveredNext` | pkg/wal/wal.go:428-486 | Of any directory that can be read the next number is behind the last record of every segment, and right behind that of one. |
| `Recovery.RebuildEqualsIncremental` | pkg/wal/wal.go:111-138 | After any appends and reopenings, with any segment sizes, the log holds the old and the new messages in order and recovery of its files gives exactly its memory. |
| `Recovery.ReadsAppended` | pkg/wal/wal.go:163-187 | A log, however far behind its disk, reads every message it knows as it was appended. |
| `Recovery.RecoverStopsAt` | pkg/wal/wal.go:450-453 | A segment that cannot be read ends recovery there with its error. |
| `Recovery.AlteredSegmentStopsRecovery` | pkg/wal/wal.go:450-453 | With up to four consecutive payload bytes of a segment altered the log does not open at all, with the corruption error. |
| `Recovery.AppendThenRead` | pkg/wal/wal.go:119-138 | A message appended through the i-th segment can be read at its offset if and only if that is the last segment or full; otherwise the read reports an inconsistent index. |
| `Damage.DamagedAnswers` | pkg/wal/wal.go:140-188 | If one segment's file has other contents, an open log answers the offsets in it with what is read there, the error of reading, or an inconsistency, and every other offset with its message, whatever was appended since. |
| `Damage.AlteredIsCorrupt` | pkg/wal/wal.go:163-172 | If up to four consecutive payload bytes of a segment are altered, an open log fails as corrupt on all of its offsets, and on no others. |
| `Damage.MissingIsNotFound` | pkg/wal/wal.go:163-172 | If a segment's file is gone, an open log fails on all of its offsets, and on no others. |
| `Damage.LooksAtDamaged` | pkg/wal/wal.go:321-410 | A look fails with the error of a file that cannot be read if and only if its segment is new to the log or the last one; otherwise it finds what it would have found. |
| `Damage.CaughtUpFails` | pkg/wal/wal.go:152-161 | Then a caught-up log returns that error, and not that there are no messages. |
| `Damage.LastMissing` | pkg/wal/wal.go:375-385 | A caught-up log fails if the file of its last segment is gone, and finds nothing if it is another's. |
| `Refresh.RefreshNewSegments` | pkg/wal/wal.go:337-373 | After segments were added refresh has the true index with a gap for what the segment known as last has gained, although nextIdx counts it. |
| `Refresh.RefreshSameSegments` | pkg/wal/wal.go:375-407 | After the last segment has grown refresh has exactly the memory of the new log. |
| `Refresh.RefreshRefinesRecovery` | pkg/wal/wal.go:321-410 | Refresh leaves the segments, index and nextIdx that recovery builds if and only if not both the last known segment grew and segments were added. |
| `Refresh.UnsafeRefreshSkips` | pkg/wal/wal.go:337-388 | Otherwise, each offset from the first new one on is answered with a message further on, and the last offsets with none. |
| `Refresh.NextDelivers` | pkg/wal/wal.go:140-188 | The next message is number consumed of the disk, or none if there is none; only a caught-up log looks at the disk. |
| `Refresh.NextRepeats` | pkg/store/store.go:20-28 | Asked again before the cursor moves, the answer is the same, whatever was appended meanwhile. |
| `View.LookShows` | pkg/wal/wal.go:321-410 | Refresh succeeds on a sound disk, and whatever looks came before, safe or not, it adds to the answers the messages from the first new segment on, or from nextIdx if there is none, and takes all for known. |
| `View.NextShows` | pkg/wal/wal.go:144-188 | NextUnprocessed returns what the store answers: nothing, the answer at the cursor, or a panic by an index out of range. |
| `View.ReaderSees` | pkg/wal/wal.go:111-138 | A message appended by another process changes what is on disk by that message, rolled or not, and nothing of what an open log answers. |
| `View.SafeAlike` | pkg/wal/wal.go:337-388 | For a log that had read everything, a look is safe as the store has it exactly when not both its last segment has grown and one was added. |
| `Store.LookDecides` | pkg/wal/wal.go:152-163 | A caught-up reader that looks is given the message at the cursor if and only if the look is safe, or the first message of the new segments is the same; and it goes on answering rightly if and only if the look is safe. |
| `Store.MarksForward` | pkg/wal/wal.go:190-203 | The consumed offset becomes the larger of where it was and the one behind the message, and is saved if saving succeeds. |
| `Store.PostMarksForward` | pkg/wal/wal.go:205-218 | The post-processed offset becomes the larger of the two, and is saved if saving succeeds. |
| `Store.DepthCounts` | pkg/wal/wal.go:276-284 | Depth and consumed add up to the known messages; the depth is 0 if and only if there is nothing to answer; appending deepens it by one, processing the next message takes one off. |
| `Store.Snapshot` | pkg/wal/snapshot.go:72-77 | A snapshot holds every known message, and all messages if and only if every segment is known. |
| `Store.Reopened` | pkg/wal/wal.go:67-103 | A new process answers every message on disk and has the saved cursor. |
| `Store.Grow` | cmd/nile/main.go:354-372 | Appending adds the messages in order, keeps the segments there are, and leaves what a process knows alone. |
| `TornTruncate.TornRecovers` | pkg/wal/wal.go:254-264 | After a truncation that has removed only the first segments, recovery succeeds and numbers the records that are left from 0. |
| `TornTruncate.TornTruncateAnswers` | pkg/wal/wal.go:254-273 | The next process then answers the offset at the old cursor with a message further on, by as many as were removed, or panics, or finds nothing if the cursor is at the end; so rightly if nothing was removed, and otherwise only if the two messages are the same. |
| `TornTruncate.TornThenAppended` | pkg/wal/wal.go:152-187 | With the cursor at the end, it gives the first message appended afterwards if no segment was removed, and panics on it otherwise; and so does any process opened after that. |
| `TornTruncate.EmptiedSkips` | pkg/wal/wal.go:266-273 | If all files are gone but the cursor is not saved, the next process starts with the new message at the old cursor, so with the first one if and only if that was 0. |
| `Leftover.FilesAppended` | pkg/wal/wal.go:110-138 | A log that has the last segment for its own leaves the files that appending leaves of the later chunks, whichever of the first segments are gone, all of them included. |
| `Leftover.LeftFound` | pkg/wal/wal.go:321-410 | A log without any memory that looks at what is left builds the memory that recovery builds. |
| `StaleLog.StaleAppends` | pkg/wal/wal.go:110-138 | A log that was open at a truncation goes on as if nothing had happened, for any messages; the directory gets the segments that it begins afterwards, and no others. |
| `StaleLog.StaleAnswers` | pkg/wal/wal.go:140-188 | Every process that opens that directory, and the one that truncated it, then answers only the messages in those segments, the last ones sent, numbered from 0, and panics at the offsets behind them that the sender was told. |
| `StaleLog.OpenAcrossTruncation` | pkg/wal/wal.go:240-274 | A message appended by an open log is in the directory under the offset that Append returns if and only if the directory has not been truncated since the log was opened, or the log had no messages. |
| `StaleLog.SenderFollows` | cmd/nile/main.go:354-372 | The sender of the machine is told the numbers of that log, and is stray exactly when the log has begun a segment in the directory. |
| `StaleLog.DetachIs` | pkg/wal/wal.go:240-274 | A truncation leaves the machine's sender with the next number and the filled bytes of its log. |
| `Cursor.SavesAreAtomic` | pkg/wal/cursor.go:51-61 | After any saves, each cut off by a crash at any of its steps or complete, the file holds the cursor of the last complete one, or what it held if there was none. |
| `Packing.TotalIsRecords` | pkg/wal/wal.go:286-296 | The segments' sizes add up to 8 + length over all messages. |
| `Packing.RunPacks` | pkg/wal/wal.go:119-124 | Messages appended to a fresh log with one segment size: every segment but the last reaches the size, none does without its last record, so (segments - 1) * size is less than the bytes of all records. |
| `Cursor.JSONCursor.Load` | pkg/wal/cursor.go:38-49 | The saved cursor, consumed and post-processed both 0 if there is no file, and an error if and only if the file is unreadable or does not decode. |
| `Cursor.JSONCursor.Save` | pkg/wal/cursor.go:51-61 | The new cursor is loaded afterwards if the save succeeds and the old one if it fails, and the files are in one of the states a crash may leave. |
| `Snapshot.ReadSnapshotHeader` | pkg/wal/snapshot.go:30-42 | The version, with the reader behind the header, or none if the file is short or has another magic. |
| `Snapshot.HeaderIs` | pkg/wal/snapshot.go:10-25 | The header is the bytes of NILE and the version 1 in four bytes, the lowest first. |
| `Snapshot.VersionExactly` | pkg/wal/snapshot.go:27-45 | A version is read if and only if there are eight bytes that begin with NILE, and as the number of the next four. |
| `Snapshot.HeaderReads` | pkg/wal/snapshot.go:21-42 | Reading a written header gives version 1 and leaves the rest. |
| `Snapshot.SnapshotRoundTrip` | pkg/wal/snapshot.go:44-77 | Reading a snapshot back gives the version and all messages of the segments it was made of, in order; of the whole log if these are all its segments. |
| `Wal.Disk.ListSegments` | pkg/wal/segment.go:138-156 | Strictly ascending, and exactly the bases of the segment files. |
| `Wal.Disk.RemoveSegments` | pkg/wal/wal.go:254-264 | The files are removed in ascending order of their bases, up to a removal that fails; success is no file left. |
| `Wal.Log.Open` | pkg/wal/wal.go:67-103 | A log opened on a sound directory is in step with it, answers all messages and has the saved cursor; an error is that of the cursor file or of recovery. |
| `Wal.Log.OpenEmpty` | pkg/wal/wal.go:67-103 | The log of a new directory has no messages and a cursor with two zeros. |
| `Wal.Log.Recover` | pkg/wal/wal.go:428-486 | The loop builds the memory, and stops with the error, that the recursive definition of recovery gives. |
| `Wal.Log.RollSegment` | pkg/wal/wal.go:412-426 | A segment with base nextIdx is added and active; an existing file of that name keeps its contents. |
| `Wal.Log.WriteRecord` | pkg/wal/segment.go:79-90 | One record goes behind the active segment's file, and its size, the index and nextIdx follow. |
| `Wal.Log.Append` | pkg/wal/wal.go:110-138 | The message is added at the end of the disk's messages at the offset returned, and a log in step stays so and answers it; a closed log, or one whose files a failed truncation has closed and that need not roll, changes nothing and returns an error. |
| `Wal.Log.Refresh` | pkg/wal/wal.go:321-410 | The loop over new segments and the re-reading give the memory and error of the definition of refresh. |
| `Wal.Log.Reread` | pkg/wal/wal.go:375-407 | The last segment's new records are indexed. |
| `Wal.Log.NextUnprocessed` | pkg/wal/wal.go:140-188 | On a sound disk the log looks as the store does and returns what the store then answers, for any looks before, safe or not; otherwise it fails as the code does. |
| `Wal.Log.ReadOne` | pkg/wal/wal.go:163-187 | The message that the index names for the offset, the error of reading its segment, or a panic where the index is out of range. |
| `Wal.Log.MarkProcessed` | pkg/wal/wal.go:190-203 | The cursor goes to behind the offset and never back, in memory always and on disk if saving succeeds. |
| `Wal.Log.MarkPostProcessed` | pkg/wal/wal.go:205-218 | The highest post-processed offset, in the same way. |
| `Wal.Log.WriteDead` | pkg/wal/retention.go:44-57 | The payload is written behind the dead letters, and the cursor is where it was. |
| `Wal.Log.DeadLetter` | pkg/wal/retention.go:28-64 | The payload is written behind the dead letters, also when saving the cursor then fails, and the cursor goes past the message. |
| `Wal.Log.ReadDeadLetters` | pkg/wal/retention.go:66-79 | The records that the dead letter file reads as, so all whole records before a torn tail; on a sound disk all dead-lettered payloads in order. |
| `Wal.Log.RetentionExceeded` | pkg/wal/retention.go:9-26 | True exactly when consumed exceeds MaxMessages or the segments' sizes exceed MaxBytes, of those that are positive; on a sound disk the sizes are those of the records that are answered. |
| `Wal.Log.TotalBytes` | pkg/wal/wal.go:286-296 | The sum of the segments' sizes. |
| `Wal.Log.Depth` | pkg/wal/wal.go:276-284 | The messages that are not consumed: depth and consumed add up to nextIdx, and for a log in step to the messages on disk; 0 with a cursor beyond nextIdx. |
| `Wal.Log.Snapshot` | pkg/wal/wal.go:227-238 | A file with the version from which the messages of the known segments are read, all of them as they are on disk; nothing is left when a segment is missing. |
| `Wal.Log.Truncate` | pkg/wal/wal.go:240-274 | All segment files are gone, known or not, and memory and cursor are reset, on disk too if saving succeeds; if a removal fails the files before it are gone, and the log keeps its memory but has closed its files. |
| `Wal.Log.Close` | pkg/wal/wal.go:305-319 | The log is closed and otherwise unchanged. |
| `Wal.Log.Send` | cmd/nile/main.go:354-372 | Another process that opens the directory appends its messages, with no truncation in between; a reader with an open log, whatever it has read, stays valid and sees the same store grown by the messages. |
| `Pump.StartKeeps` | pkg/lifecycle/manager.go:136-173 | The init call: the loop head is reached idle if it succeeds, otherwise Start fails. |
| `Pump.HeadKeeps` | pkg/lifecycle/manager.go:193-246 | A stop, a failing read, or a look of a caught-up reader and what it answers: no message, the first attempt of a message, or a panic. |
| `Pump.WaitKeeps` | pkg/lifecycle/manager.go:231-236 | A tick or a stop, when nothing is to be done. |
| `Pump.SendKeeps` | pkg/lifecycle/manager.go:294-304 | One more call with the message: on to marking, to a backoff while attempts are left, or to the dead letters. |
| `Pump.BackoffKeeps` | pkg/lifecycle/manager.go:280-290 | A stop during a backoff leaves the message unconsumed. |
| `Pump.MarkKeeps` | pkg/lifecycle/manager.go:306-337 | Only a successful call moves the cursor, past the message just sent; then retention begins exactly if it is due. |
| `Pump.MarkPostKeeps` | pkg/lifecycle/manager.go:323-337 | Post-processing leaves consumed alone. |
| `PostProcessing.SavedIsHighest` | pkg/wal/wal.go:205-218 | In every run the saved post-processed offset is the highest for which marking it succeeded in the epoch, 0 if none. |
| `PostProcessing.OnlyIfAsked` | pkg/lifecycle/manager.go:323-332 | An offset is so marked only if the neb has just acknowledged its message and asked for post-processing. |
| `Pump.DeadWriteKeeps` | pkg/wal/retention.go:52-57 | The dead letter is the message at the cursor, and the cursor has not moved. |
| `Pump.DeadSaveKeeps` | pkg/lifecycle/manager.go:348-356 | The cursor moves past a message that is in the dead letter file. |
| `Pump.SnapshotKeeps` | pkg/lifecycle/manager.go:374-389 | The snapshot holds the messages of the known segments as they are on disk. |
| `Pump.RetainKeeps` | pkg/lifecycle/manager.go:391-399 | The snapshot counts as taken over only if the retain call succeeds. |
| `Pump.TruncateKeeps` | pkg/lifecycle/manager.go:401-418 | The epoch ends, and with it what is on disk. |
| `Pump.ShutdownKeeps` | pkg/lifecycle/manager.go:421-439 | The shutdown call ends in state stopped whatever its outcome. |
| `Pump.Step` | pkg/lifecycle/manager.go:187-439 | Every step keeps the invariant (cursor within the known messages and saved unless the process has ended, requests numbered, interaction about the answer at the cursor) and changes store and histories only as the interaction says. |
| `Pump.Restart` | pkg/wal/wal.go:67-103 | A new process on any disk of a run answers every message there is and goes on at the saved cursor. |
| `Pump.ActReaches` | pkg/lifecycle/manager.go:63-93 | Reachable states are closed under steps and restarts, each process with a configuration of its own, as long as no sender begins a segment after a truncation. |
| `Delivery.DeliveredExactly` | pkg/lifecycle/manager.go:279-356 | In every run with any crashes, each message below the saved cursor was sent with its offset and payload and acknowledged, or is in the dead letter file, if and only if in this epoch the cursor was never saved past a wrong answer. |
| `Looks.DeliveredByLooks` | pkg/wal/wal.go:321-410 | If the messages of the epoch differ from each other, this holds if and only if no process has, in this epoch, saved its cursor beyond what it knew before a look that missed messages. |
| `Delivery.AtLeastOnceDelivery` | pkg/lifecycle/manager.go:279-356 | If every look of the run is safe, each message below the saved cursor was so acknowledged or is in the dead letter file. |
| `Delivery.FaithfulExactly` | pkg/wal/wal.go:321-410 | The store has answered rightly at every moment of a run if and only if all its looks were safe. |
| `Faults.LookDecidesDelivery` | pkg/wal/wal.go:152-187 | In any reachable state whose answers were right, after a look that finds something and the delivery of what it finds, every message below the saved cursor was handled if and only if the look was safe, or the message it found happens to be the one that was due. |
| `Faults.MessageSkipped` | pkg/wal/wal.go:110-138 | A run in which two appended messages, of which the first fills a segment of the default 1 MiB, leave the first below the saved cursor, neither acknowledged nor dead. |
| `Conservation.NothingLost` | pkg/lifecycle/manager.go:360-418 | Every message for which Append returned an offset is in the log under it, or was handled or retained, if and only if no truncation that succeeded found more messages on disk than its snapshot holds and none was appended to a log truncated since it was opened. |
| `Conservation.LosesByEvents` | pkg/wal/wal.go:240-274 | A truncation comes two steps after its snapshot, and finds more if and only if a segment was unknown at the snapshot or messages were appended in the two steps. |
| `Conservation.Conserved` | pkg/lifecycle/manager.go:360-418 | With safe looks, no such truncation and no such append, each message ever appended has the offset it was given, and is yet to be delivered, or was handled, or is in a snapshot taken over. |
| `Conservation.DeletedExactly` | pkg/lifecycle/manager.go:360-418 | Every message that was deleted had been handled or retained if and only if no truncation that succeeded found more messages on disk than its snapshot holds. |
| `Ledger.RunRecords` | pkg/wal/wal.go:110-138 | The messages of all epochs are those for which Append returned their offset, and the others are behind the end of their epoch; there are none of those if and only if nobody appended to a log truncated since it was opened. |
| `Faults.MessageLost` | pkg/wal/wal.go:254-264 | A run in which a message is deleted that was neither sent, dead-lettered nor retained. |
| `Faults.MessageVanished` | cmd/nile/main.go:366-372 | A run in which all answers were right and all that was deleted had been handled or retained, and yet a message is lost: it was sent over a log that had been truncated since it was opened. |
| `Order.FirstCallStarts` | pkg/lifecycle/manager.go:213-246 | The first message call of a process is for the offset of the saved cursor it found, or after a truncation for offset 0. |
| `Order.NextCallContinues` | pkg/lifecycle/manager.go:213-304 | From one message call of a process to its next: in one epoch the next offset, or the same one if the call failed; in a later epoch offset 0. |
| `Order.CallsCarryMessages` | pkg/store/store.go:20-22 | If every look of the run is safe, every message call of every process carries what was appended at its offset. |
| `Order.StrictOrder` | pkg/store/store.go:3-6 | In one process and epoch only message calls come between two message calls, and offsets never go down. |
| `Retries.DeadOnlyAfterRetries` | pkg/lifecycle/manager.go:279-350 | A process sends no message more than MaxRetries + 1 times, and what it dead-letters it has sent exactly so often, always in vain; never, with a negative MaxRetries. |
| `Retries.NegativeRetriesNeverSend` | pkg/lifecycle/manager.go:279 | With a negative MaxRetries no message is ever sent. |
| `Draining.DrainsOrPanics` | pkg/lifecycle/manager.go:187-356 | Left alone, whatever its looks miss, the pump has nothing left to deliver within a bounded number of steps, even if the neb fails every message, and then the depth is 0, or it has panicked. |
| `Draining.Drains` | pkg/lifecycle/manager.go:187-356 | With right answers so far and a safe look to come it does not panic, so it has nothing left to deliver then, and goes on. |
| `Draining.StaysDrained` | pkg/lifecycle/manager.go:217-237 | And it stays 0. |
| `Draining.DrainsAll` | pkg/lifecycle/manager.go:187-418 | In a run with safe looks in which no truncation found more than its snapshot and nobody appended to a truncated log, a process that is left alone with every segment known has, within that many steps, handled every message ever appended or handed it over in a snapshot. |
| `Draining.StopReturns` | pkg/lifecycle/manager.go:187-439 | Once a stop was requested, Start returns nil after at most 8 interactions if only message calls fail, whatever is appended meanwhile. |
| `Retention.ProcessBound` | pkg/wal/retention.go:10-13 | A process that finds the cursor within MaxMessages takes it at most one beyond and has it within at every loop head. |
| `Retention.CursorBound` | pkg/wal/retention.go:10-13 | Over any run the cursor exceeds the largest MaxMessages by at most one, and one more for each restart. |
| `Retention.RetentionsDoNotRepeat` | pkg/lifecycle/manager.go:217-252 | Every retention that completes has deleted some message, so between two there was an append. |
| `Trace.EveryChangeLegal` | pkg/lifecycle/states.go:42-52 | In every run every assignment to the state, checked or not, is in the table of legal changes. |
| `Transitions.TableIsTaken` | pkg/lifecycle/states.go:41-61 | A change is legal if and only if some process makes it, or it is that of a failed copt that starts again; every other is refused. |
| `Trace.ReachableCallsFit` | pkg/lifecycle/manager.go:112-173 | Requests are numbered from 1, begin with the only init, which succeeded if anything follows, and nothing follows a shutdown. |
| `Trace.CallTrace` | pkg/lifecycle/manager.go:137-439 | Start returns nil if and only if the calls are a successful init, messages and retains, and a shutdown, and if and only if the state is stopped; in every other case no shutdown was sent. |
| `Manager.Manager.constructor` | pkg/lifecycle/manager.go:63-93 | The configuration has the MaxRetries given, three if it is zero; the state is created, and nothing was sent. |
| `Manager.Manager.Interact` | cmd/nile/main.go:354-372 | Before each interaction a sender may open a log and append, and the manager's log sees the same store grown by what gets into the directory. |
| `Manager.Manager.Send` | pkg/lifecycle/manager.go:112-134 | The request goes out under the next number. |
| `Manager.Manager.Transition` | pkg/lifecycle/manager.go:102-110 | The state changes exactly if the change is legal. |
| `Manager.Manager.Backoff` | pkg/lifecycle/manager.go:280-292 | The wait goes on to the next attempt, or a stop ends the message with the cursor unmoved. |
| `Manager.Manager.SendMessage` | pkg/lifecycle/manager.go:296-304 | One message call, with the offset and payload it was given, and what follows from its outcome and the attempts left. |
| `Manager.Manager.MarkDone` | pkg/lifecycle/manager.go:306-338 | After a result the log's cursor is marked, and post-processing and the return to idle follow as the machine has it. |
| `Manager.Manager.Bury` | pkg/lifecycle/manager.go:340-356 | Dead-lettering in the log takes the machine's two steps. |
| `Manager.Manager.ProcessMessage` | pkg/lifecycle/manager.go:258-357 | The retry loop ends where the machine is, with the machine's requests sent. |
| `Manager.Manager.TakeSnapshot` | pkg/lifecycle/manager.go:374-382 | The file that the log writes is read back as the messages of the known segments. |
| `Manager.Manager.DoRetention` | pkg/lifecycle/manager.go:359-419 | Snapshot, retain and truncate take the machine's steps, up to the first that fails, with the machine's requests sent. |
| `Manager.Manager.Shutdown` | pkg/lifecycle/manager.go:421-439 | The shutdown request is sent, the state is stopped and nil is returned. |
| `Manager.Manager.Look` | pkg/lifecycle/manager.go:213-246 | A look at the log, and a message, a wait or a panic as it answers. |
| `Manager.Manager.Pump` | pkg/lifecycle/manager.go:186-254 | The endless loop takes the machine's steps and ends only where the machine has returned or panicked. |
| `Manager.Manager.Start` | pkg/lifecycle/manager.go:136-173 | Start returns nil where the machine has returned without error and an error where it has failed, with the same requests sent, states gone through and store left. |
| `Manager.RunProcess` | pkg/lifecycle/manager.go:136-173 | A process on the disk of any reachable state, with any events that leave no sender stray, leaves the disk of a reachable state, in which the machine has sent the same requests and gone through the same states; its requests are numbered, contiguous per epoch and offset, and complete if and only if nil is returned; it tries a message at most four times with a MaxRetries of 0, never with a negative one and MaxRetries + 1 times otherwise, and what it dead-letters just so often, in vain. |
| `Manager.RunFirst` | pkg/lifecycle/manager.go:136-173 | All this holds of a process that starts on a new directory. |
| `Transport.Stdio.ReadLine` | pkg/transport/stdio.go:90-132 | The next line, or the end of the stream, or a timeout that marks the transport broken and leaves a reader behind; a wait without end only without a timeout. |
| `Transport.Stdio.NebActs` | pkg/transport/stdio.go:107-116 | Between calls the neb writes lines, and a reader left behind takes one of them at any time. |
| `Transport.Stdio.Send` | pkg/transport/stdio.go:44-88 | One request is written and one line taken, unless closed, broken or unwritable; errors as in the code. |
| `Transport.Stdio.Close` | pkg/transport/stdio.go:134-140 | Closed, unless a call still holds the lock. |
| `Transport.SendReturns` | pkg/transport/stdio.go:44-132 | After any calls, a request that is written returns the neb's line of its number if there is one in time and it decodes; each error, and waiting forever, has its exact condition. |
| `Transport.AllAnswered` | pkg/transport/stdio.go:44-88 | With a neb that answers each request by a line with its id, in order and in time, every request is answered with its own id. |
| `Transport.ClosedForGood` | pkg/transport/stdio.go:49-51 | After Close, which waits for no call, every request is refused as closed. |
| `Transport.ReaderLeavesWithOne` | pkg/transport/stdio.go:107-116 | A reader that a timeout left behind takes one line, if there is one and it is late enough, and is gone. |
| `Transport.LineOfItsRequest` | pkg/transport/stdio.go:45-88 | Whatever the neb writes and whenever, the response to the k-th request written is the neb's k-th line. |
| `Transport.ResponsesArePaired` | pkg/transport/stdio.go:45-132 | A response has its request's id if and only if the neb's line of the same number has; with a neb that answers in order, all do. |
| `Transport.SilentForGood` | pkg/transport/stdio.go:49-54 | Once closed, timed out or stuck, no request is written and no response returned any more; at most one line is still taken, by a reader that a timeout left behind. |
| `Transport.NeverStuck` | pkg/transport/stdio.go:107-131 | With a timeout no call waits forever. |
| `Transport.StaleIfForgotten` | pkg/transport/stdio.go:86-88 | Without the broken flag a transport that is behind would return an earlier request's line, so the wrong response of a neb that answers in order, unless the reader left behind takes that line first. |
| `Outage.OutageBuries` | pkg/transport/stdio.go:49-54 | With its requests going over a transport that has timed out, a process gets no result any more, retains and truncates nothing, and every message it passes is among the dead letters. |

## Left out

- Pump.ActReaches: runs end where a sender begins a segment after its log was truncated; what is then in the directory, and what becomes of it, is `StaleLog.StaleAnswers`.
- Pump.TruncateKeeps: takes a truncation that fails to have deleted nothing, and no crash falls inside one; what happens otherwise is the module `TornTruncate`, about the process that comes next.
- Pump.HeadKeeps: a read that fails leaves what the process knows as it was; on a sound disk a read does not fail.
- Delivery.AtLeastOnceDelivery: has safe looks as its hypothesis, which the code does not ensure; the exact condition is `Delivery.DeliveredExactly`.
- Conservation.Conserved: has safe looks, truncations that find nothing new and no append to a truncated log as its hypotheses; the exact conditions are `Delivery.DeliveredExactly` and `Conservation.NothingLost`.
- Order.CallsCarryMessages: has safe looks as its hypothesis; without one, `Faults.LookDecidesDelivery` says which message a look gives.
- Looks.DeliveredByLooks: for messages of which some are the same, only `Delivery.DeliveredExactly` is exact.
- Draining.DrainsOrPanics: speaks of one process, without a stop, appends, or failures other than the neb's on messages.
- Draining.Drains: has right answers and a safe look to come as its hypotheses; without them it is `Draining.DrainsOrPanics`.
- Manager.Manager.Backoff: how long a wait takes, and poll intervals and message timeouts, are not modelled; a stop may come during any wait.
- Manager.Manager.Pump: the branch for a state other than idle at the loop head is proved unreachable instead of modelled.
- Manager.Manager.Interact: one sender is there at a time, which appends by a log of its own for each message as long as its log is the directory's (`StaleLog.OpenAcrossTruncation`); no event may leave it stray.
- Manager.Manager.Send: what the transport does with a request is its outcome only; the two classes are not run together, the machine and the transport are in `Outage`. A retain request carries the messages read back from the snapshot in place of its path.
- Manager.Manager.TakeSnapshot: the time in the name of a snapshot is left out.
- Wal.Log.Append: offsets and sizes are unbounded numbers where the code has 64 bits, and writing and syncing do not fail.
- Wal.Log.MarkProcessed: does not model the wrap-around of offset + 1 at 2^64 - 1.
- Wal.Log.Open: a failure to create directories is not modelled.
- Wal.Log.NextUnprocessed: what it answers is stated for a disk whose segments end on record boundaries; behind torn tails, reading is `Recovery.RecoverReads` and appending `Segment.AppendBehindTail`.
- Wal.Log.Send: its appends do not interleave with those of a third process or with a truncation; two writers at once are not modelled, and appends after a truncation are `StaleLog.StaleAppends`.
- StaleLog.StaleAppends: nobody else has appended since the truncation, so no file has the name of one that was removed.
- Wal.Log.Truncate: how a removal fails is not told, and closing files does not fail.
- Wal.Log.WriteDead: a write cut short is not modelled; behind the torn tail it leaves, dead letters are read as `Segment.AppendBehindTail` says of any file.
- Wal.Log.DeadLetter: opening, writing and closing the dead letter file do not fail.
- Wal.Log.ReadDeadLetters: that it returns all dead letters is stated for a file without a torn tail.
- Wal.Disk.ListSegments: segment files are keyed by their base; that names and bases correspond is `Names.ListedExactly`.
- View.LookShows: every segment on disk holds a message; the empty last segment that a sender leaves which ends between creating it and writing to it is left out here and wherever `View.NonEmpty` is assumed, and covered by `Recovery.AppendInStep` and `Refresh.RefreshRefinesRecovery`.
- Cursor.JSONCursor.Save: the cursor's JSON is not modelled, a file holds a cursor, part of one, or what is not one.
- Damage.LooksAtDamaged: the log has read everything at some time and one file is damaged; logs whose looks have missed messages are in `View`.
- PostProcessing.OnlyIfAsked: that the neb asked is the event's; results are not decoded.
- Cursor.JSONCursor.Load: which error made the file unreadable is not told.
- Names.ListSegments: sorting stands for the library's, and the directory is a sequence of entries.
- Transport.Stdio.Send: a failed write is taken to have written nothing, and a line of 1 MiB or more, which the scanner refuses, counts as the end of the stream; JSON is not modelled.
- Mutexes: each method of the log and the transport is one atomic operation.
- Directory syncs, partial effects of failing system calls other than the cuts and crashes above, and damage to record headers.
- The contents of results and errors of the neb beyond success, failure and the request for post-processing.
- `MaxDepth`, which the code declares but does not enforce.
- Starting one manager twice: a manager that has returned is not started again.
- The command line, status and watch output, services and templates, telemetry and logging, the sandbox, the registry and the message envelope.
