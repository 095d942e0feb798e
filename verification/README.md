# A verified model of the recorder, its exporters and its streaming protocols

This project models the parts of the NVR firmware where much state, much arithmetic or several parties
meet, in Dafny 4.11, and proves what they promise. `dafny verify dfyconfig.toml` checks all of it.
Objects whose methods change fields in the C code are classes here, arrays updated in place are arrays,
and each such method is proved against a function on values; what the code is for is proved about those
functions, over every input and every run.

## What is modelled

**The raw-disk recorder** (`components/recorder/src`). A disk is an array of bytes. `RecorderFormat` is
the packed layout of its tables, headers and slots, `Layout` and `Format` what formatting writes,
`StorageDev`, `Index`, `Recorder`, `Player` and `Group` the operations on values, and `Device`,
`IndexImpl`, `Writer`, `PlayerImpl` and `GroupImpl` the same operations on objects. The block cipher and
the header checksum are arbitrary functions, so nothing below depends on their strength.
`Layouts` says where every field, slot and record is on the disk, byte by byte.
`Faithful` ties a disk image to the history of the segments started on it, `SlotOrder` and `IndexRing` add
the second ring, that of index slots, `Recording` and `Retention` carry both over whole runs of any number
of writers on any number of disks, and `Sessions` over closing and reopening the disks. `History` says what
every call adds to the history and `Answers` what a query returns and a player shows, both in terms of the
frames given and the channel, type and times asked for. Put together:
whatever a query returns replays as it was recorded, and nothing recorded is lost before its chunk comes
round again while the index has one slot per chunk and one for every further writer on the disk. What goes
wrong otherwise is shown by runs: `SlotsShort` with one slot less, `Lapping` when the ring hands out a chunk
still open, `RefusedWriter` when a group writer goes on after a refusal. `OneDisk` follows runs on one
disk, `PlaybackEnds` (with `Walks` and `FiniteSets`) says on any disk when players come to an end.
`Balance` is the choice of disk, `GroupSeek` seeking across segments, `MetaRing` the ring of metadata
records, `Crypto` counter mode.

**Exporting** (`rsdk_backup.c`). `NalScan`, `Boxes`, `Mp4`, `Mp4File`, `FragMp4`, `FragRun`, `FragTimes`
and `FragOrder` specify both formats together with readers that follow ISO/IEC 14496-12 and know nothing
of the writer; `Mp4Writer` and `FragWriter` are the muxers with their growing buffers and patched sizes.
`Mp4Tells` reads the file by its box names alone. `Backup`, `BackupImpl` and `ExportTells` join recorder,
players and muxers: what a reader of an exported file finds is what was recorded.

**The clip recorder** (`svc_record.c`). `SegmentRecord` is the state machine of continuous and event
recording, `SegmentRecorder` its object with the two rings of `Ring`. `EventClips` and `ContinuousClips` say
which clips come out, and with which tags, of the list of inputs alone.

**The hubs** (`svc_event.c`, `nop_media.c`). `EventHub` interleaves any number of threads, one critical
section or one call of a sink at a time; sinks may subscribe, unsubscribe and publish. `EventBarrier`
says when an unsubscribe returns, `EventHubImpl` holds the critical sections on the arrays.

**Streaming.** `Rtp`, `RtpStream` and `RtpSender` packetize access units and read them back by RFC 6184
(sections 5.6 and 5.8) and RFC 7798 (sections 4.4.1 and 4.4.3); `RtspReader` and `RtspConn` are the reader of
requests and interleaved data (section 10.12 of RFC 2326). `RtpTells` and `RtspUnits` say the same of the bytes
on the connection, frame by frame and unit by unit. `Ts`, `TsRun` and `TsMux` are the transport
stream writer with a demultiplexer by sections 2.4.3.2 to 2.4.3.7 of ISO/IEC 13818-1, `TsSlices` what it
finds in a slice, `Crc` both checksums, and `CrcDivision` what they are: remainders of polynomials. `Ble` and `BleSession` are framing and reassembly on the BLE link.

Device contents, keys, salts, results of opening files, the application's callbacks, and where reads
of a socket cut the stream are parameters.

## Where the code and its comments disagree

The model follows the code.

- Both hubs say in a comment that a sink may unsubscribe re-entrantly
  (`components/nop/src/media/nop_media.c:97-99`, `components/nop/src/services/svc_event.c:108-109`). It
  may subscribe and publish; an unsubscribe from inside a sink never returns
  (`EventHub.NeverReturnsInsideSink`), and from then on none does, from whatever thread
  (`EventBarrier.CaughtOutside`). `EventBarrier.ReturnsIff` says exactly which calls can return.
- Formatting wraps the data key under the caller's serial number, while opening and rekeying use the
  default one; so the key comes back, whatever the cipher, only where the two agree
  (`Format.FormatKeepsKeyExactly`).
- A group writer changes disk before it knows whether the new disk has room
  (`components/recorder/src/rsdk_rec.c:33-42`). `Balance.RefusedStart` says exactly what is left behind,
  `Balance.FrameAfterRefusal` and `RefusedWriter.DamageIs` what a further frame then does, and
  `RefusedWriter.RefusedOverwrites` is a run that writes into another writer's frame.
- A stop group is meant to fill every disk. With fewer than 100000 chunks a disk it does; from there on
  the tie threshold lets it refuse early (`Balance.StopRefusal`, `Balance.StopRefusesEarly`).
- With slots nearly as large as the chunks themselves the four layout rounds can end without any index slot
  (`Layout.SlotsRunShort`); `Layout.EnoughSlotsExactly` says exactly when there is a slot for every chunk.
- One index slot per chunk is enough for one writer (`Retention.OneWriterLosesNothing`), and every further
  writer takes one more (`Retention.LiveSegmentsAreFound`, `SlotsShort.OneSlotShort`).
- The ring hands out chunks without looking whether a writer still has them open; a viewer then gets another
  writer's frames (`Lapping.LappedViewer`). `Recording.StartExact`, `Recording.CloseExact` and
  `Recording.LapShows` say exactly when.
- Damaged headers can keep players and exports going for ever, since the offset wraps in 32 bits
  (`PlaybackEnds.StuckForEver`); `PlaybackEnds.PlayEndsExactly` says exactly when.
- A frame that makes a group writer move on is checked against the disk it leaves, not the one picked
  (`Recording.FreshFits`).
- The name of a clip is its channel, stream and start time only, so a clip can overwrite an older one
  (`SegmentRecord.ClashingRun`); `SegmentRecord.RunFilesExactly` says exactly when none does.
- Behind a tear-down the RTSP reader still handles what it has buffered, so where reads cut the stream can
  matter; `RtspReader.CutMattersExactly` says exactly when.
- The header of the BLE module speaks of packets from 40 bytes on; the code takes any size from 7 to 512.
- A BLE message announces its length in 16 bits, so one of 65536 bytes and more can come out cut off
  (`Ble.ArrivesIff`).
- A fragmented export writes fragments before its movie box, or without one, when the parameter sets come
  late; `FragOrder.MovieFirstExactly` says exactly when.
- The fill behind a short key picture, the length field of an audio frame of 65528 bytes or more, and the
  decode times of samples that do not rise in time differ from what the standards expect;
  `TsRun.UnitParses`, `Mp4.TimesExact` and `FragTimes.FragTimesExact` say exactly when.

## Model

| member | source | states |
|---|---|---|
| Recording.QueryReplays | components/recorder/src/rsdk_index.c:44-66 | In every state a run of opens, frames, rotations, type changes and closes can reach, from blank disks and over any number of overwrite laps, each slot a query returns belongs to a segment that still owns its chunk, and the player delivers exactly the leading frames of that segment the slot counts, each with its own fields and payload and in order, then ends |
| Recording.GroupQueryReplays | components/recorder/src/rsdk_balance.c:57-116 | Playing any answers of a group query, in any order and across disks, shows exactly the frames recorded in the segments they stand for, each with its own fields and payload and from its disk, one segment after the other, and ends |
| Answers.QueryAnswers | components/recorder/src/rsdk_index.c:44-66 | In every reachable state every answer to a query stands for a segment that still owns its chunk, closed under the type asked for, of the channel asked for, with first and last times that meet the span asked for; it says its id, channel, type, times, number of frames and bytes; and playing it delivers exactly these frames in order, each with its own channel, stream, codec, kind, times, number and payload |
| Answers.QueryFinds | components/recorder/src/rsdk_index.c:44-66 | Where nothing is lost, a closed segment that still owns its chunk is among the answers to a query that does not fill up if and only if it is of the channel, type and time asked for, and it is there once |
| Answers.GroupQueryAnswers | components/recorder/src/rsdk_balance.c:57-116 | Any answers of the pool, in any order, stand for such segments of the disks they name, and playing across disks delivers exactly their frames with their fields, each from the disk named |
| Answers.GroupQueryFinds | components/recorder/src/rsdk_balance.c:57-72 | And such a segment is among the answers of the pool, under its disk, if and only if it is asked for |
| Answers.MatchIsTimes | components/recorder/src/rsdk_index.c:52-60 | A sound slot matches a query exactly when its times meet the span, an end of 0 meaning for ever and an open end the end of the span, and channel and type are those asked for where they are not negative |
| History.GiveRecords | components/recorder/src/rsdk_rec.c:99-143 | A frame without payload is refused, as is one longer than a chunk; otherwise it becomes the last frame of the writer's segment if header and payload, rounded up to 128 bytes, fit behind those there; if not, that segment is closed and the frame is the first of a new one for the same channel and type; and it is refused if there is no room for a new one. Nothing else in the history changes |
| History.OpenRecords | components/recorder/src/rsdk_rec.c:74-97 | Opening a writer starts one empty segment for its channel and type, on its disk, or changes nothing |
| History.RetypeRecords | components/recorder/src/rsdk_rec.c:145-150 | Changing the type closes the segment under the old type and starts an empty one under the new; where there is no room only the type changes |
| History.CloseRecords | components/recorder/src/rsdk_rec.c:152-163 | Closing a writer closes its segment under its type and leaves all other writers and segments alone |
| History.TakenIsRecorded | components/recorder/src/rsdk_rec.c:74-163 | Over a whole run the frames a writer took since it was opened are exactly those recorded in the segments it has had, each once and in the order given, all of the channel asked for; while it is open its type is the one asked for last |
| Recording.StepKeepsInv | components/recorder/src/rsdk_rec.c:33-163 | Every step of an allowed run keeps the invariant tying the disk images to the history of segments: ring position, geometry, records of all live segments, slots, and the writers' places |
| Recording.StepIsOperation | components/recorder/src/rsdk_rec.c:74-163 | The steps of a run are the writer's own operations: same disks, same writer fields, same status, failures included |
| Recording.CountersUnique | components/recorder/src/rsdk_crypto.c:122-148 | On disks of at most 2^24 data chunks no two cipher blocks recorded in live segments use the same counter block, in any reachable state |
| Recording.LappedIffNext | components/recorder/src/rsdk_storgedev.c:208-223 | The chunk handed out next is that of a live segment exactly when that segment is the oldest one on the ring |
| Recording.FreshFits | components/recorder/src/rsdk_rec.c:103-109 | After a rotation the frame that forced it fits the new chunk exactly when it is not longer than the chunks of the picked disk; on the writer's own disk it always fits |
| Recording.StartExact | components/recorder/src/rsdk_rec.c:33-52 | A start that succeeds keeps the invariant of the whole system if and only if the chunk handed out is not one that another writer still has open |
| Recording.CloseExact | components/recorder/src/rsdk_rec.c:54-72 | After closing a segment, every answer to every query still belongs to a live segment if and only if the segment closed still owns its chunk (on rings of at most 2^24 chunks, fewer than 2^24 segments behind it) |
| Recording.LapShows | components/recorder/src/rsdk_rec.c:33-72 | What a start does to another writer of the disk, seen by a query: once that writer has closed, all answers belong to live segments if and only if the start did not take its chunk |
| Lapping.LappedViewer | components/recorder/src/rsdk_storgedev.c:208-223 | On every blank overwriting disk there is a run of one writer for each chunk after which one more writer takes the chunk of the first; when that writer closes, a query for everything returns a slot of its segment, which is no longer live, and playing it shows the other writer's frame |
| Retention.LiveSegmentsAreFound | components/recorder/src/rsdk_rec.c:33-163 | With any number of writers on a disk, one index slot per chunk and one more for every writer beyond the first, every closed segment that still owns its chunk is returned by a query for everything that does not fill up, with all its frames, and by exactly one slot; each segment being closed while the backward search still gets to its slot |
| Retention.OneWriterLosesNothing | components/recorder/src/rsdk_rec.c:33-163 | With one writer at a time on each disk, one slot per chunk is enough and nothing is asked of the search |
| Retention.SmallRingsLoseNothing | components/recorder/src/rsdk_index.c:25-35 | With several writers nothing is asked of the search either while chunks and further writers together are at most 8192 and fewer than 2^24 segments have been started on a disk |
| SlotsShort.OneSlotShort | components/recorder/src/rsdk_index.c:18-42 | With one slot less it fails, for every number of chunks from 2 on and every number of writers up to it: a run on a blank disk that laps nobody and closes every segment within reach of the search loses a closed segment that still owns its chunk |
| Retention.StepTidy | components/recorder/src/rsdk_rec.c:33-163 | Every step of such a run keeps every live segment's slot at the place where it was appended, no other slot in use, and the segments no writer has open closed with all their frames |
| Retention.SettledSlot | components/recorder/src/rsdk_index.c:18-42 | A closed live segment with frames has exactly one valid slot, counting all its frames |
| SlotOrder.SlotsBehind | components/recorder/src/rsdk_rec.c:110-115 | Slots are appended with first frames, chunks handed out with starts: behind the slot of a segment come at most the slots of segments started after it and of those other writers had open when it was |
| IndexRing.IndexAfterFirst | components/recorder/src/rsdk_index.c:25-41 | The first frame of a segment, whichever was started last, appends its slot, and every live segment still has its own slot where it was appended: the place taken belonged to none of them |
| IndexRing.SearchExact | components/recorder/src/rsdk_index.c:25-35 | The backward search finds the slot of a live segment if and only if it was appended at most 8192 slots ago and no slot on the way is one of a dead segment with id 0 |
| IndexRing.FoundAtOnce | components/recorder/src/rsdk_index.c:27-35 | With one writer the first place the backward scan looks at is the open segment's slot, so closing it rewrites that slot and appends nothing |
| IndexRing.FinalizeSlots | components/recorder/src/rsdk_rec.c:68-72 | Closing a segment whose slot the search gets to changes that slot to the closed one and no other, and does not move the write position |
| IndexRing.PositionsDiffer | components/recorder/src/rsdk_index.c:36-38 | Different live segments have different slots |
| IndexRing.NotNext | components/recorder/src/rsdk_index.c:36-38 | While an open segment waits for its first frame, the place written next belongs to no live segment |
| IndexRing.RecycledChunk | components/recorder/src/rsdk_storgedev.c:214-218 | The chunk an allocation hands out is that of a live segment only if that segment stops being live by it |
| IndexRing.IdTells | components/recorder/src/rsdk_rec.c:27-31 | A segment's id is its channel modulo 256 in the top byte and, below it, modulo 2^24, how many segments had been started on the disk for the channel modulo 32, this one included |
| IndexRing.SameId | components/recorder/src/rsdk_rec.c:27-31 | Two segments have the same id exactly when their channels agree modulo 256 and their numbers on the channel's counter agree modulo 2^24 |
| IndexRing.LiveIdsDiffer | components/recorder/src/rsdk_rec.c:27-31 | On a ring of at most 2^24 chunks no two live segments have the same id, however long the run |
| Faithful.SlotReplays | components/recorder/src/rsdk_play.c:14-64 | On a disk in order, opening the slot of a live segment and asking for frames until there are no more yields exactly the leading frames it counts, each with the channel, stream, codec, kind, times, number and payload it was given with |
| Faithful.AllocNth | components/recorder/src/rsdk_storgedev.c:208-225 | Allocation number n succeeds unless the disk is exhausted (a stop disk that has handed out every chunk, or no chunks); it yields chunk n modulo the ring size, and the disk counts as wrapped from the last fresh chunk of lap one on |
| Faithful.StartKeepsInv | components/recorder/src/rsdk_rec.c:33-52 | Starting a segment succeeds exactly when the disk is not exhausted; then the segment is appended to the history, its predecessor on the chunk stops being live together with its slots, and the rest stays; a refusal changes nothing |
| Faithful.RecycledSlots | components/recorder/src/rsdk_index.c:68-83 | After the invalidation every slot still valid is unchanged and describes a segment that stays live |
| Faithful.PutFrameKeepsInv | components/recorder/src/rsdk_rec.c:110-142 | A frame put into the current segment extends that segment by exactly this frame and disturbs no other live segment or slot |
| Faithful.WriteRecordKeepsInv | components/recorder/src/rsdk_rec.c:117-136 | Header and protected payload land in the free rest of the segment's own chunk |
| Faithful.FinalizeKeepsInv | components/recorder/src/rsdk_rec.c:54-72 | Finalizing publishes a slot that describes the segment with all its frames so far |
| Faithful.ChunkExtents | components/recorder/src/rsdk_storgedev.c:220-221 | Data chunks lie inside the data area of the disk and do not overlap |
| Index.WriteIndexAt | components/recorder/src/rsdk_index.c:18-42 | An index write stores the slot with its checksum at one position, leaves every other slot, the geometry and the ring state, and never leaves the index area |
| Index.InvalidateAt | components/recorder/src/rsdk_index.c:68-83 | Invalidation clears exactly the valid or open slots that start on the chunk |
| Index.CollectSound | components/recorder/src/rsdk_index.c:44-66 | The answer holds matching slots only, and all of them when it does not fill up |
| Index.CollectPlaces | components/recorder/src/rsdk_index.c:44-66 | The answer is one slot for each of some places, from the first place on; every matching place is among them, up to the last one when the answer is full |
| IndexImpl.Query | components/recorder/src/rsdk_index.c:44-66 | The answer is a permutation of the matching slots, sorted by start time; what stands before it in the array is untouched |
| IndexImpl.SortByStart | components/recorder/src/rsdk_index.c:62-64 | The exchange sort leaves the stretch sorted by start time, a permutation of what it was, and the rest of the array alone |
| IndexImpl.Search | components/recorder/src/rsdk_index.c:25-35 | The loop finds the nearest slot of the segment behind the write position, unless an unwritten slot or the limit of 8192 comes first |
| IndexImpl.WriteIndex | components/recorder/src/rsdk_index.c:18-42 | The method on the device has exactly the effect of the specification, flush included |
| IndexImpl.InvalidateChunk | components/recorder/src/rsdk_index.c:68-83 | The loop over the slots clears what the specification clears |
| IndexImpl.FindEarliest | components/recorder/src/rsdk_index.c:85-96 | The least start time among valid slots, nothing exactly when none is below 2^32 - 1 |
| Device.Device.AllocChunk | components/recorder/src/rsdk_storgedev.c:208-223 | The method changes write pointer and epoch as the specification says and returns its chunk or refusal |
| Device.Device.Flush | components/recorder/src/rsdk_storgedev.c:196-206 | Backup tables first, then the main ones, with fresh checksums |
| Device.Device.Rekey | components/recorder/src/rsdk_storgedev.c:242-255 | The same data key is wrapped again under a key from a new salt, or the call is refused |
| Device.OpenDisk | components/recorder/src/rsdk_storgedev.c:143-174 | Opens with the main tables, or with the backup when a magic is wrong; refuses a bad format or checksum; the key is there when it unwraps |
| StorageDev.FlushThenOpen | components/recorder/src/rsdk_storgedev.c:143-206 | A flushed disk opens as the same device: ring position, epoch, index position, counters, geometry and key |
| Sessions.ReopenIsExact | components/recorder/src/rsdk_storgedev.c:143-206 | Once all writers of a run are closed, opening the disks again finds exactly the devices that were in use, whichever writers wrote to them; only the group's turn starts over |
| Sessions.StepSession | components/recorder/src/rsdk_rec.c:33-163 | Every step keeps each disk either as its own tables say or within the reach of an open writer |
| Sessions.SessionsReplay | components/recorder/src/rsdk_index.c:44-66 | Whatever a query returns after any number of sessions of runs, closings and reopenings replays as it was recorded, in this session or an earlier one |
| Sessions.SessionsLoseNothing | components/recorder/src/rsdk_rec.c:33-163 | No closed segment that still owns its chunk is lost, whichever session recorded it |
| StorageDev.RekeyKeepsKey | components/recorder/src/rsdk_storgedev.c:242-255 | Rekeying succeeds exactly for a disk that is encrypted and whose key unwraps, and the disk then opens with the data key it had |
| RecorderFormat.HdrRoundTrip | components/recorder/include/rsdk_types.h:116-133 | Decoding the 64 bytes of a frame header gives every field back |
| RecorderFormat.SlotRoundTrip | components/recorder/include/rsdk_types.h:135-154 | Decoding the 64 bytes of an index slot gives every field back |
| RecorderFormat.SbRoundTrip | components/recorder/include/rsdk_types.h:65-93 | Decoding the 512 bytes of a superblock gives every field back |
| RecorderFormat.StRoundTrip | components/recorder/include/rsdk_types.h:95-114 | Decoding the 4096 bytes of a system table gives every field back, the 32 channel counters included |
| Layouts.HdrLayout | components/recorder/include/rsdk_types.h:116-133 | Every field of a frame header is at its offset in the packed structure, low byte first |
| Layouts.SlotLayout | components/recorder/include/rsdk_types.h:135-154 | So is every field of an index slot |
| Layouts.SbLayout | components/recorder/include/rsdk_types.h:65-93 | And every field of a superblock |
| Layouts.StLayout | components/recorder/include/rsdk_types.h:95-114 | And every field of a system table, with the entries of the 32 channels |
| Layouts.Names | components/recorder/include/rsdk_types.h:19-24 | Magic numbers and the default serial number spell what they should |
| Layouts.TablePlaces | components/recorder/src/rsdk_storgedev.c:196-206 | After a flush sectors 1 and 2 hold the superblock, sectors 3 and 11 on the system table, each with the checksum over itself with a zero in its place |
| Layouts.SlotBytes | components/recorder/src/rsdk_index.c:6-16 | Slot i is the 64 bytes at 64 i of the index area |
| Layouts.FilledSlot | components/recorder/src/rsdk_rec.c:54-66 | The slot of a segment field by field: mark 4 and no end while open, mark 1 and the last time when closed, mark 2 for anything but continuous recording |
| Layouts.RecordBytes | components/recorder/src/rsdk_rec.c:117-136 | On a disk in order the bytes of every frame of a live segment are where its number on the ring and the frames before it put them: magic, every field at its offset, and behind 64 bytes the payload, enciphered under segment and frame number where the disk has a key |
| Layouts.FullDisk | components/recorder/src/rsdk_storgedev.c:208-223 | At the end of its chunks a disk in mode 1 refuses, any other starts again and counts the lap; the chunk given is that of the write pointer |
| Layouts.HeaderTaken | components/recorder/src/rsdk_play.c:27-34 | A header is taken if and only if its 64 bytes begin with the magic and carry the checksum of themselves; which error otherwise |
| Layouts.FrameTaken | components/recorder/src/rsdk_play.c:45-64 | What the player gives at its place, read off the bytes: the payload, deciphered where the header says so, an error without a key, and the next place in 32 bits |
| Layouts.OpensWhen | components/recorder/src/rsdk_storgedev.c:151-158 | A disk opens if and only if sector 1, or else sector 2, begins with the magic and that sector carries its own checksum; which error otherwise |
| Layouts.BackupOpens | components/recorder/src/rsdk_storgedev.c:151-161 | With the first copy of the superblock or of the system table destroyed a flushed disk opens as the same device |
| Writer.Writer.StartSegment | components/recorder/src/rsdk_rec.c:33-52 | The method moves a group writer to the picked disk, allocates, invalidates on a wrapped disk, and resets every counter as the specification says; on refusal the writer has moved all the same |
| Writer.Writer.WriteFrameRecord | components/recorder/src/rsdk_rec.c:117-136 | Header with checksum and payload, enciphered in the writer's buffer where there is a key, at the writer's place |
| Writer.Writer.PutRecord | components/recorder/src/rsdk_rec.c:110-142 | A frame into the current chunk, the first one behind an open slot; all counters advance |
| Writer.Writer.Room | components/recorder/src/rsdk_rec.c:105-109 | The writer moves to a new segment exactly when the frame does not fit behind what the current one holds |
| Writer.Writer.WriteFrame | components/recorder/src/rsdk_rec.c:99-143 | Refuses empty and oversized frames, rotates when the frame does not fit, then writes; status, disks and writer as specified on every path |
| Writer.Writer.ChangeType | components/recorder/src/rsdk_rec.c:145-150 | Finalizes and starts a segment of the new type; the type changes even if the start is refused |
| Writer.Writer.Close | components/recorder/src/rsdk_rec.c:152-163 | Finalizes, then flushes the writer's disk or, for a group, all disks |
| Writer.OpenOn | components/recorder/src/rsdk_rec.c:74-83 | A writer exists only if its first chunk could be allocated |
| Writer.OpenInGroup | components/recorder/src/rsdk_rec.c:85-94 | The same for a group, on the disk the group picks |
| PlayerImpl.SegPlayer.Next | components/recorder/src/rsdk_play.c:47-64 | The next frame, deciphered in the player's buffer, or the specified error, with the position moved on only on success |
| PlayerImpl.SegPlayer.SeekPts | components/recorder/src/rsdk_play.c:34-45 | Whenever the walk over the headers ends, seeking returns, and rests on the last header of the leading run with times at most the request, or on the start of the slot |
| Playback.SeekTargetNearest | components/recorder/src/rsdk_play.c:34-45 | For frames in time order that frame is the last one not later than the request |
| Playback.GroupPlaysAll | components/recorder/src/rsdk_balance.c:79-116 | The group player delivers the concatenation of the segments' frames, each from the disk its slot names, and ends |
| Playback.GroupCollectExact | components/recorder/src/rsdk_balance.c:57-65 | Every answer is a match of the disk it names, renamed to that disk; when the answer does not fill up, every match of every disk is there |
| PlayerImpl.GroupQuery | components/recorder/src/rsdk_balance.c:57-70 | The merged answer is a permutation of the disks' answers, sorted by start time |
| PlayerImpl.GroupPlayer.Next | components/recorder/src/rsdk_balance.c:105-116 | The next frame of the current segment or of the first later one that has any, with the disk it came from |
| PlayerImpl.GroupPlayer.SeekPts | components/recorder/src/rsdk_balance.c:118-132 | The seek opens the last segment of the leading run of segments whose first frames read and begin at or before the request, or the first one, and seeks within it; ended where its disk is not there |
| PlaybackEnds.SeekLands | components/recorder/src/rsdk_play.c:34-45 | On a slot of a recorded segment seeking ends, on the last frame of the leading run with times at most the request, or on the first frame, whatever the position before |
| GroupSeek.GroupSeekLands | components/recorder/src/rsdk_balance.c:118-132 | On answers that stand for recorded segments it ends in the target segment, on the target frame |
| PlaybackEnds.PlayEndsExactly | components/recorder/src/rsdk_play.c:47-64 | On any contents of the disk, playing a slot ends if and only if the player never stands at the same offset twice |
| PlaybackEnds.AcrossEndsExactly | components/recorder/src/rsdk_balance.c:102-116 | Playing answers across disks ends if and only if every segment before the first whose disk is not there plays to an end |
| PlaybackEnds.StuckForEver | components/recorder/src/rsdk_play.c:47-64 | A readable frame whose length leaves the 32-bit offset where it is is delivered for ever |
| PlaybackEnds.StandsStill | components/recorder/src/rsdk_play.c:61-63 | Which lengths do so: those above 2^32 - 192 and at most 2^32 - 64, at every aligned offset, and no others |
| PlaybackEnds.LeadsOn | components/recorder/src/rsdk_play.c:61-63 | From an aligned offset the next one is later if and only if the frame ends by 2^32 - 128, or its length is above 2^32 - 64 and the offset is not the last one |
| PlaybackEnds.ForwardPlayEnds | components/recorder/src/rsdk_play.c:47-64 | Where every good header up to the end of the slot leads to a later offset, playing ends |
| PlaybackEnds.ForwardSeekEnds | components/recorder/src/rsdk_play.c:34-45 | And so does seeking |
| GroupSeek.SeekShows | components/recorder/src/rsdk_balance.c:118-132 | Playback after the seek shows the whole list of frames from the target on, to its end |
| GroupSeek.SeekIsNearest | components/recorder/src/rsdk_balance.c:118-132 | Where the times of all frames rise, the target is the last frame not later than the request, or the first frame when all are later |
| GroupSeek.FirstFrameReads | components/recorder/src/rsdk_balance.c:122-129 | Looking at a segment costs one frame, and it is the segment's first |
| Group.Pick | components/recorder/src/rsdk_balance.c:35-47 | The picked disk is one of the group and its load is within the threshold of the least |
| Group.BestLoadLeast | components/recorder/src/rsdk_balance.c:38-39 | The best load is the least of the loads, capped at 2 |
| Group.TieSetIs | components/recorder/src/rsdk_balance.c:41-43 | The disks to choose from are the first 64, in order, that are at most 1/100000 above every other load |
| Group.PicksGoRound | components/recorder/src/rsdk_balance.c:44-45 | As the turn moves on each of them is picked once before any is picked again |
| GroupImpl.DiskGroup.BalancePick | components/recorder/src/rsdk_balance.c:35-47 | The loops find the tied disks, the turn among them decides, and the turn moves on |
| Balance.BalanceBound | components/recorder/src/rsdk_balance.c:11-47 | For disks of equal size, whatever a group's writers do, until the first disk wraps no write pointer is ahead of another by more than 1 + n/100000 of n chunks |
| Balance.PickIsLow | components/recorder/src/rsdk_balance.c:35-47 | The picked disk is at most n/100000 chunks ahead of any other |
| Balance.RefusesWhenPickFull | components/recorder/src/rsdk_balance.c:35-47 | A group of stop-when-full disks refuses a segment exactly when the disk it picks is full |
| Balance.StopRefusal | components/recorder/src/rsdk_storgedev.c:208-213 | A full group refuses; and with fewer than 100000 chunks a disk it refuses only when every disk is full |
| Balance.StopRefusesEarly | components/recorder/src/rsdk_balance.c:40-44 | From 100000 chunks on it can refuse although a disk has room: a group just opened, its turn at 0, over a full disk and one a chunk short |
| Balance.RefusedStart | components/recorder/src/rsdk_rec.c:33-42 | A refused start leaves every disk as it was, but the writer now names the picked disk; it is unchanged exactly when that was its disk already |
| Balance.FrameAfterRefusal | components/recorder/src/rsdk_rec.c:33-42 | A frame that still fits the old segment then goes to the picked disk, at the offset the segment has on its own disk, which does not change |
| RefusedWriter.DamageIs | components/recorder/src/rsdk_rec.c:110-142 | On a full stop disk of the same layout that frame changes bytes only in the chunk of the number the writer's own chunk has, which belongs to a live segment of that disk, and its header and payload stand there |
| RefusedWriter.RefusedOverwrites | components/recorder/src/rsdk_rec.c:99-143 | A run that does it: two equal stop disks of one chunk in a group, filled by two writers; the second one is refused on the first one's disk and its next frame is written into the payload of the first one's frame, which without encryption no longer reads |
| Crypto.XcryptTwice | components/recorder/src/rsdk_crypto.c:122-150 | Processing a buffer twice gives it back (section 6.5 of NIST SP 800-38A) |
| Crypto.XcryptPieces | components/recorder/src/rsdk_crypto.c:122-150 | Processing a buffer in two pieces cut at any byte, the second from the offset of the cut, is processing it whole; by repetition, in any pieces |
| Crypto.CounterInjective | components/recorder/src/rsdk_crypto.c:141-143 | Counter blocks are equal exactly for the same segment, frame and block number |
| Crypto.CounterIs | components/recorder/src/rsdk_crypto.c:141-143 | The counter block is the number of 128 bits with the segment on top, then the frame, then the block |
| Crypto.XcryptIs | components/recorder/src/rsdk_crypto.c:122-148 | Byte 16 n + j of a frame is combined with byte j of the cipher's image of the block that has the number of segment, frame and n |
| Crypto.KekIs | components/recorder/src/rsdk_crypto.c:153-163 | The key-encryption key is made of the images of the zero block and of the complement of that image, under a key of salt and serial number, each combined with 0x5A |
| Crypto.WrappedIs | components/recorder/src/rsdk_crypto.c:165-173 | The data key is wrapped with the key stream of segment 0xA5A5A5A5; the check value is half the image of the zero block |
| Crypto.XcryptInPlace | components/recorder/src/rsdk_crypto.c:139-148 | The loop over cipher blocks, entered in the middle of one for an odd offset, XORs the first len bytes with the key stream and touches no other |
| Crc.TableCrc | components/recorder/src/rsdk_util.c:4-19 | The table-driven checksum equals the bit-by-bit one on every byte string |
| Crc.TableByte | components/recorder/src/rsdk_util.c:17-17 | One table step is eight steps of the shift register |
| Crc.ComputeMpegCrc | components/cloud_uploader/src/ts_mux.c:41-50 | The loop computes the shift register over the bytes, highest bit first |
| Crc.SectionChecks | components/cloud_uploader/src/ts_mux.c:53-107 | A section followed by its own big-endian checksum checks to 0 |
| CrcDivision.CrcDivides | components/cloud_uploader/src/ts_mux.c:40-50 | For every section the checksum is the remainder of dividing its polynomial, behind a register of ones and before 32 zeros, by the generator written out power by power |
| CrcDivision.RemainderUnique | components/cloud_uploader/src/ts_mux.c:40-50 | No other word is a remainder of that division |
| CrcDivision.BitCrcDivides | components/recorder/src/rsdk_util.c:4-19 | The checksum of the recorder's structures is the same division with the bits of every byte, and of the result, in the other order and the result complemented |
| CrcDivision.OneBit | components/cloud_uploader/src/ts_mux.c:40-50 | One bit through an empty register leaves 0x04C11DB7; the checksum of nothing is 0xFFFFFFFF; the other register has 0xEDB88320 |
| Layout.CountsBracket | components/recorder/src/rsdk_storgedev.c:47-59 | Of the four rounds' counts, c1 <= c3 <= c4 <= c2 <= c0; and no round subtracts below zero exactly when the first one does not |
| Layout.OverheadExactly | components/recorder/src/rsdk_storgedev.c:51-59 | That is so if and only if what is reserved for as many chunks as the disk could hold is no more than these chunks |
| Layout.NextAntitone | components/recorder/src/rsdk_storgedev.c:51-59 | More chunks never move the data area down and leave no more room for chunks |
| Layout.SmallOverheadSuffices | components/recorder/src/rsdk_storgedev.c:51-59 | A per-chunk overhead that leaves 11 KiB of the chunk is enough for that; one of at most a quarter of it, in chunks of 44 KiB or more, leaves half of the disk |
| Layout.SmallDisk | components/recorder/src/rsdk_storgedev.c:51-59 | A disk of one chunk ends up with none |
| Layout.LayoutSound | components/recorder/src/rsdk_storgedev.c:43-63 | Superblocks, system tables, bitmap, index, data chunks and metadata region follow one another without overlap and end within the disk |
| Layout.EnoughSlotsIf | components/recorder/src/rsdk_storgedev.c:52-62 | There are at least as many index slots as chunks when the first round leaves at least one chunk in slots_per_chunk |
| Layout.EnoughSlots | components/recorder/src/rsdk_storgedev.c:52-62 | So it is from two slots per chunk on, for a per-chunk overhead of at most a quarter of the chunk |
| Layout.EnoughSlotsExactly | components/recorder/src/rsdk_storgedev.c:52-62 | There is a slot for every chunk if and only if the chunks are no more than the slots for the third round's count, up to a whole sector; with no more chunks than slots per chunk that is so if and only if there are no chunks or one more chunk fits behind the area reserved in the third round |
| Layout.SlotsRunShort | components/recorder/src/rsdk_storgedev.c:52-62 | It fails for 80 MiB, chunks of 1 MiB and 16382 slots per chunk (79 chunks, no index slot), and for 16390 MiB with 16383 slots per chunk (16388 chunks, 16384 slots) |
| Layout.ComputeLayout | components/recorder/src/rsdk_storgedev.c:42-63 | The loop of four rounds computes the plan, in sectors |
| Format.FormatThenOpen | components/recorder/src/rsdk_storgedev.c:65-174 | A formatted disk opens, is blank, and has the geometry of its plan, sound enough for recording |
| Format.FormatRoomy | components/recorder/src/rsdk_storgedev.c:65-174 | With at least two slots per chunk and at most 2^24 chunks it also meets the conditions under which one writer loses no live segment |
| Format.FormatRoomyFor | components/recorder/src/rsdk_storgedev.c:65-174 | A formatted disk meets the conditions for a given number of writers if and only if its plan has that many slots more than data chunks, less one, and at most 2^24 data chunks |
| Format.FormatKeepsKey | components/recorder/src/rsdk_storgedev.c:100-108 | Formatted under the serial number that opening uses, the disk gives its data key back |
| Format.FormatLosesKey | components/recorder/src/rsdk_storgedev.c:100-171 | Formatted under any other serial number without zero bytes, there is a cipher with which opening finds no key |
| Format.FormatKeepsKeyExactly | components/recorder/src/rsdk_storgedev.c:100-171 | So, for serial numbers without zero bytes, an encrypted disk gives its key back whatever the cipher if and only if the serial number is the one opening uses |
| Format.GeometryOfPlan | components/recorder/src/rsdk_storgedev.c:85-124 | The tables written describe areas inside the disk and an unused ring |
| Format.FormatDisk | components/recorder/src/rsdk_storgedev.c:65-141 | Refuses and leaves alone a disk below 64 MiB; otherwise clears the reserved area and writes both copies of both tables |
| Format.FreshSuperBlock | components/recorder/src/rsdk_storgedev.c:85-113 | Every field of the superblock written, from the plan and the options |
| Format.FreshSysTab | components/recorder/src/rsdk_storgedev.c:115-126 | Every field of the system table written |
| Format.ChunkSizes | components/recorder/src/rsdk_storgedev.c:34-40 | Chunks of 8 MiB up to 4 TiB, 16 up to 16 TiB, 32 beyond, or as asked for |
| Format.MetaShare | components/recorder/src/rsdk_storgedev.c:81-82 | Metadata gets its share of the chunks, rounded down, but one where there are five or more; none without the feature |
| Format.MetaBehindData | components/recorder/src/rsdk_storgedev.c:81-124 | The metadata region begins where the data chunks end and lies on the disk |
| MetaRing.AllocRecord | components/recorder/src/rsdk_storgedev.c:227-238 | The method places a record in the metadata region and flushes, as specified |
| MetaRing.AllocPlaces | components/recorder/src/rsdk_storgedev.c:230-236 | Refused exactly without a region or for a record larger than it; else placed at the write position, or at the start when the rest is too small |
| MetaRing.AllocIs | components/recorder/src/rsdk_storgedev.c:227-238 | A request gets a multiple of 16 bytes behind the last record, or at the first byte of the region if there is not that much left; nothing without a region or for one too small |
| MetaRing.PiecesWithin | components/recorder/src/rsdk_storgedev.c:227-238 | Whatever is asked for in whatever order, every record a run of allocations hands out lies within the metadata region |
| MetaRing.PiecesSurvive | components/recorder/src/rsdk_storgedev.c:227-238 | None is written over by a later one before more than the region's size has been stored since, counting once more the record at which the region started over |
| Backup.ExportedSegment | components/recorder/src/rsdk_backup.c:348-366 | Exporting any slot a query returns, in any reachable state of the recorder: playback ends, and a reader of the file, if below 4 GiB, finds exactly the recorded frames the slot counts that have coded pictures, in order, in either format |
| Backup.ExportedGroup | components/recorder/src/rsdk_backup.c:368-385 | The same for any answers of a group query, across disks |
| BackupImpl.Drive | components/recorder/src/rsdk_backup.c:348-357 | Whenever playback ends, the loop returns and has fed everything the player delivers to the muxer of the format; without a frame it fails |
| BackupImpl.DriveGroup | components/recorder/src/rsdk_backup.c:378-384 | The same for a group player |
| BackupImpl.ExportSegment | components/recorder/src/rsdk_backup.c:359-366 | The export of one slot, whenever its playback ends |
| BackupImpl.ExportGroup | components/recorder/src/rsdk_backup.c:368-385 | The export of the answers to a query, at most 256 of them, by start time, whenever each of them plays to an end; not found when there are none |
| BackupImpl.ReachableAnswersEnd | components/recorder/src/rsdk_backup.c:379-381 | In every reachable state the loop of the export comes to an end |
| BackupImpl.ReachableSlotEnds | components/recorder/src/rsdk_backup.c:348-366 | And so does that of one slot |
| NalScan.ScanNals | components/recorder/src/rsdk_backup.c:31-45 | The scan computes the list of units between three-byte start codes, trailing zeros cut |
| NalScan.ScanJoin | components/recorder/src/rsdk_backup.c:31-45 | Any number of well-formed NAL units behind start codes of three or four bytes comes out as it went in |
| Boxes.BoxesReadBack | components/recorder/src/rsdk_backup.c:18-20 | A list of boxes below 4 GiB, read by the size fields alone, is the list written |
| Boxes.Buf.End | components/recorder/src/rsdk_backup.c:19-20 | Closing a box patches the size so that header and body are one whole box |
| Boxes.Buf.Need | components/recorder/src/rsdk_backup.c:12-12 | Room for more bytes, the contents kept |
| Mp4.SizedReadsBack | components/recorder/src/rsdk_backup.c:67-69 | Length-prefixed NAL units below 4 GiB in all are read back as they were written |
| Mp4.TimesExact | components/recorder/src/rsdk_backup.c:178-185 | Sample j decodes at pts_j - pts_0 for all j when the times rise strictly by less than 2^32 and, unless the default duration is 0, only then |
| Mp4.SttsReads | components/recorder/src/rsdk_backup.c:145-152 | The run-length time table expands to the durations |
| Mp4.StssReads | components/recorder/src/rsdk_backup.c:153-158 | The sync table lists exactly the key samples, from 1 |
| Mp4.RangesRead | components/recorder/src/rsdk_backup.c:159-165 | Chunk, size and offset tables together give every sample its offset and size (sections 8.7.3 to 8.7.5 of ISO/IEC 14496-12) |
| Mp4File.TableRead | components/recorder/src/rsdk_backup.c:189-212 | Each table of the finished file is found by following the nested boxes |
| Mp4File.ExportReadsBack | components/recorder/src/rsdk_backup.c:92-216 | A file below 4 GiB, read by its own tables: one sample per added frame with coded pictures, in order, holding exactly that frame's coded NAL units and key mark, and the time table giving the durations |
| Mp4Tells.FileTells | components/recorder/src/rsdk_backup.c:50-216 | A file below 4 GiB, its boxes found by their four letters: one sample for every frame with a coded slice by table 7-1 of H.264 or H.265, in order, holding just its coded slices; the samples listed to begin at are those of frames called key or holding a slice decoding can begin with |
| Mp4Tells.HeadersFound | components/recorder/src/rsdk_backup.c:189-203 | Movie, track and media header are where a player looks, and the file begins with its type |
| Mp4Tells.MovieHeader | components/recorder/src/rsdk_backup.c:190-193 | The movie header word by word: time scale 1000, the duration in it, the identity matrix |
| Mp4Tells.TrackHeader | components/recorder/src/rsdk_backup.c:195-199 | The track header word by word: track 1, enabled, its duration, width and height |
| Mp4Tells.MediaHeader | components/recorder/src/rsdk_backup.c:200-203 | The media header word by word: time scale and duration of the samples |
| Mp4Tells.Versions | components/recorder/src/rsdk_backup.c:144-165 | The tables are of version 0, sizes are listed one by one, and there is one chunk |
| Mp4Tells.SpsIs | components/recorder/src/rsdk_backup.c:57-64 | What counts as a sequence parameter set: type 7 of H.264 or 33 of H.265, below 512 bytes |
| Mp4Tells.FlagsAre | components/recorder/src/rsdk_backup.c:283-283 | A fragment marks a key sample as depending on no other and any other as no place to begin |
| Mp4Tells.FragmentHeaders | components/recorder/src/rsdk_backup.c:275-279 | By their four letters: the number of a fragment, track 1 with offsets from the fragment's start, and its time in two words |
| Mp4Tells.FixedBoxes | components/recorder/src/rsdk_backup.c:204-209 | The brands, a handler of video, and the data in the file itself |
| ExportTells.ExportShows | components/recorder/src/rsdk_backup.c:50-216 | In every reachable state what an answer plays becomes a file from which a player gets the coded slices of exactly the recorded frames the answer counts, codec 1 meaning H.265 and frame type 0 a key frame |
| Mp4Writer.Muxer.AddFrame | components/recorder/src/rsdk_backup.c:50-100 | A frame adds its coded units behind their lengths and one sample, or nothing at all |
| Mp4Writer.Muxer.Finish | components/recorder/src/rsdk_backup.c:171-216 | Fills in the size of the media box and appends the movie box |
| Mp4Writer.Muxer.ComputeDurations | components/recorder/src/rsdk_backup.c:178-185 | The loop computes each duration from the next time, the previous duration or the default |
| Mp4Writer.PutStts | components/recorder/src/rsdk_backup.c:145-152 | Runs of equal durations, their number patched in |
| Mp4Writer.PutStss | components/recorder/src/rsdk_backup.c:153-158 | The numbers of the key samples, their number patched in |
| Mp4Writer.PutStbl | components/recorder/src/rsdk_backup.c:140-167 | The six tables in one box |
| Mp4Writer.PutMoov | components/recorder/src/rsdk_backup.c:189-211 | The movie box with all nested boxes sized |
| FragMp4.FragmentReadsBack | components/recorder/src/rsdk_backup.c:269-290 | A fragment is read back by the standard: number, time, payload at the data offset, cut into the samples by the run table with nothing left over |
| FragRun.FlushKeepsInv | components/recorder/src/rsdk_backup.c:269-293 | Flushing moves the waiting samples into a fragment and loses none |
| FragRun.AddKeepsInv | components/recorder/src/rsdk_backup.c:313-326 | So does adding a frame; the file never shrinks |
| FragRun.FragmentsReadBack | components/recorder/src/rsdk_backup.c:269-330 | A finished file below 4 GiB: the fragments hold every added frame with coded pictures once, in order; fragment k is numbered k + 1, starts at the sum of all earlier durations, covers its payload exactly and, after the first, begins with a key frame |
| FragTimes.DurationsReadBack | components/recorder/src/rsdk_backup.c:269-293 | In the fragments of a finished file every sample lasts until the next one of its fragment, the last one of a fragment the default; differences that are not positive count as the default |
| FragTimes.FragTimesExact | components/recorder/src/rsdk_backup.c:269-293 | Every sample decodes at its frame's time after the first frame if and only if inside a fragment times rise strictly by less than 2^32 and across fragments by exactly the default |
| FragOrder.MovieFirstExactly | components/recorder/src/rsdk_backup.c:269-330 | In a finished file the movie box comes before every fragment if and only if no frame has a picture, or some frame brings a sequence parameter set below 512 bytes before or with the frame that closes the first fragment |
| FragWriter.FragMuxer.AddOne | components/recorder/src/rsdk_backup.c:313-326 | The method adds one frame as specified, closing the fragment before a key frame |
| FragWriter.FragMuxer.FlushFragment | components/recorder/src/rsdk_backup.c:269-293 | The method writes the waiting samples as specified |
| FragWriter.FragMuxer.FinishFile | components/recorder/src/rsdk_backup.c:327-330 | The file is the list of boxes of the run |
| FragWriter.MakeMoof | components/recorder/src/rsdk_backup.c:275-287 | The header with the data offset patched to the payload behind it |
| FragWriter.CollectAu | components/recorder/src/rsdk_backup.c:294-305 | The coded units behind their lengths, the key mark, and whether a sequence parameter set came |
| SegmentRecord.RunSliced | components/nop/src/services/svc_record.c:290-395 | In every run of frames and detections, failures to open and pending triggers included, every segment is a contiguous stretch of the accepted frames that begins with a keyframe; no frame is in two, and the segments are in order |
| SegmentRecord.ContinuousComplete | components/nop/src/services/svc_record.c:294-308 | In continuous mode with every file opened, the segments joined are all frames from the first keyframe on |
| SegmentRecord.RotationExact | components/nop/src/services/svc_record.c:294-307 | In continuous mode a segment ends at, and only at, the first keyframe at least the segment duration after its start |
| EventClips.ClipsExact | components/nop/src/services/svc_record.c:318-395 | In event mode, over every run and said of the list of inputs: a clip opens at the first input that can open one, a detection with a keyframe in the pre-roll or the keyframe a detection waits for; holds the pre-roll from its first keyframe on and every frame from then to its end; ends at, and only at, the first frame after its opening that is the post-roll's length after the later of its opening and the media time of the last detection since, or the greatest length after its start; and is tagged with exactly the kinds of the detections from the first that asked for it to its end. There are no other clips |
| ContinuousClips.StretchesExact | components/nop/src/services/svc_record.c:294-363 | In continuous mode likewise: a segment starts at the first keyframe since the last ended for which a file can be opened, holds every frame up to its end, which is the first keyframe a segment's length after its start, and is tagged with exactly the kinds of the detections in between |
| SegmentRecord.RunFiles | components/nop/src/services/svc_record.c:85-157 | As long as no file is opened under the name of a segment that still has one, the directory holds exactly the files of the last max_segments closed segments and of the open one, each with all its frames |
| SegmentRecord.RunFilesExactly | components/nop/src/services/svc_record.c:85-157 | And only as long: every state of a run has these files if and only if no step of it opens such a name |
| SegmentRecord.StepFilesExact | components/nop/src/services/svc_record.c:290-395 | Step by step: a frame or detection keeps every segment's file its own if and only if it opens no such name |
| SegmentRecord.OpenExact | components/nop/src/services/svc_record.c:111-137 | A segment opened and filled has a file beside all others if and only if no segment that still has a file started at its time |
| SegmentRecord.CloseKeepsFiles | components/nop/src/services/svc_record.c:85-109 | Closing a segment and giving up the oldest file keeps all other files |
| SegmentRecord.ContinuousSuffices | components/nop/src/services/svc_record.c:294-308 | In continuous mode with every file opened the rotation itself keeps the names apart, whatever the times of the frames |
| SegmentRecord.ClashingRun | components/nop/src/services/svc_record.c:313-329 | In event mode it can fail: a clip closed, then a pending trigger whose key frame has the old start time; the first clip stays in the index while its file holds the second clip |
| SegmentRecord.DistinctFramesSuffice | components/nop/src/services/svc_record.c:111-137 | No such name is opened when no two frames have the same time |
| SegmentRecord.ReclaimExact | components/nop/src/services/svc_record.c:87-96 | Giving up the oldest file, even one a later segment has overwritten, leaves exactly the other segments' files if and only if no other segment has the same start time, and so the same file name |
| SegmentRecord.Resolve | components/nop/src/services/svc_record.c:399-450 | Defaults give a positive segment duration and count, a clip limit above zero and within its maximum, and a pre-roll within its maximum |
| SegmentRecord.Wishes | components/nop/src/services/svc_record.c:409-450 | The defaults and limits in figures: 60 seconds, 48 segments, 30 seconds, 10 minutes, 30 frames a second and at most 900 |
| SegmentRecorder.Recorder.constructor | components/nop/src/services/svc_record.c:399-454 | A new recorder is the empty one with the defaults resolved |
| SegmentRecorder.Recorder.OnFrame | components/nop/src/services/svc_record.c:290-343 | The method on rings and fields has the effect of the specification, in every mode and state |
| SegmentRecorder.Recorder.OnDetection | components/nop/src/services/svc_record.c:357-395 | So has a detection; `EventClips.ClipsExact` and `ContinuousClips.StretchesExact` say what that comes to over runs |
| SegmentRecorder.Recorder.AddToIndex | components/nop/src/services/svc_record.c:85-107 | The index ring holds the last max_segments closed segments; when it is full the oldest file is removed |
| SegmentRecorder.Recorder.Close | components/nop/src/services/svc_record.c:148-157 | Closing indexes the segment, once |
| SegmentRecorder.Recorder.PreAdd | components/nop/src/services/svc_record.c:173-200 | The pre-roll ring holds the last frames pushed, as many as it has room for |
| SegmentRecorder.Recorder.Flush | components/nop/src/services/svc_record.c:236-267 | The pre-roll is written from its first keyframe on, in order, and emptied |
| SegmentRecorder.Recorder.EarliestKeyframe | components/nop/src/services/svc_record.c:202-218 | The time of the first buffered keyframe, or the fallback |
| SegmentRecorder.Recorder.HasKeyframe | components/nop/src/services/svc_record.c:220-234 | Whether one is buffered |
| SegmentRecorder.Recorder.StartPending | components/nop/src/services/svc_record.c:313-329 | The awaited keyframe opens the clip and is its first frame; a failed open changes nothing |
| SegmentRecorder.Recorder.StartWithPreroll | components/nop/src/services/svc_record.c:376-386 | A detection opens the clip at the first buffered keyframe and writes the pre-roll; a failed open changes nothing |
| SegmentRecorder.Recorder.Recent | components/nop/src/services/svc_record.c:504-517 | The newest indexed segments, newest first, as many as asked for and there are |
| Ring.PushKeepsLast | components/nop/src/services/svc_record.c:190-199 | A push keeps a ring equal to the last pushes of the list of all |
| Ring.Push | components/nop/src/services/svc_record.c:173-200 | The same for the array updated in place |
| Ring.NewestAt | components/nop/src/services/svc_record.c:510-514 | Walking back from the head meets the newest first |
| EventHub.RunKeepsInv | components/nop/src/services/svc_event.c:64-140 | Over any interleaving of any number of threads, sinks that subscribe, unsubscribe and publish included, the counter is the number of publishes in flight |
| EventHub.UnsubscribeIsBarrier | components/nop/src/services/svc_event.c:85-140 | Once unsubscribe has returned, no thread ever calls the removed callback again, unless it is subscribed again or still is in another slot, whoever re-uses the slot while the barrier waits |
| EventHub.ReturnDrains | components/nop/src/media/nop_media.c:76-93 | When an unsubscribe returns, a callback is about to be called by nobody exactly if it is not in the table |
| EventHub.GoneStays | components/nop/src/media/nop_media.c:54-123 | A callback that is gone stays gone and uncalled through every step but its own subscription |
| EventHub.PublishDelivers | components/nop/src/services/svc_event.c:106-140 | A publish calls each callback subscribed when it began once, in slot order, with its own event, whatever other threads and its own sinks do meanwhile |
| EventHub.EightSlots | components/nop/src/services/svc_event.c:14-29 | There are eight slots, whatever happens |
| EventHub.FromInsideSink | components/nop/src/services/svc_event.c:98-102 | An unsubscribe called from a sink waits for its own publish |
| EventHub.NeverReturnsInsideSink | components/nop/src/services/svc_event.c:98-102 | Such a call never returns, whatever the other threads do |
| EventBarrier.DrainsIff | components/nop/src/services/svc_event.c:85-140 | In any reachable state the publishes in flight can still come to an end if and only if no thread waits in an unsubscribe for a publish of its own |
| EventBarrier.ReturnsIff | components/nop/src/services/svc_event.c:85-104 | An unsubscribe called in any reachable state can return if and only if it is not called from inside a sink and no thread waits in one for a publish of its own |
| EventBarrier.CaughtOutside | components/nop/src/services/svc_event.c:85-104 | So a caller outside all sinks can be caught as well: once a sink of another thread has unsubscribed |
| EventHubImpl.HubObject.AddSink | components/nop/src/services/svc_event.c:64-83 | The first free slot is taken; refused exactly when there is none |
| EventHubImpl.HubObject.ClearSink | components/nop/src/services/svc_event.c:85-104 | The slot is cleared, and the barrier passed exactly when nothing is in flight |
| EventHubImpl.HubObject.Enter | components/nop/src/services/svc_event.c:116-132 | Stores the event, takes the snapshot of the subscribers in slot order, counts the publish |
| EventHubImpl.HubObject.Leave | components/nop/src/services/svc_event.c:137-139 | Counts it out |
| EventHubImpl.HubObject.Recent | components/nop/src/services/svc_event.c:153-170 | The newest stored events, newest first, as many as asked for and kept |
| Ts.PacketReadsBack | components/cloud_uploader/src/ts_mux.c:134-186 | A receiver by section 2.4.3.2 of ISO/IEC 13818-1 reads a packet back: identifier, start mark, counter, adaptation field, payload |
| Ts.StreamReadsBack | components/cloud_uploader/src/ts_mux.c:31-31 | A stream is whole packets of 188 bytes, read back one by one |
| Ts.PtsReadsBack | components/cloud_uploader/src/ts_mux.c:122-127 | The five bytes hold the time modulo 2^33 with the marker bits set (section 2.4.3.7) |
| Ts.PcrReadsBack | components/cloud_uploader/src/ts_mux.c:147-153 | The clock reference is the time modulo 2^33, with the random access mark (section 2.4.3.5) |
| Ts.PesReadsBack | components/cloud_uploader/src/ts_mux.c:113-127 | Header and what follows come apart again |
| Ts.PesArrives | components/cloud_uploader/src/ts_mux.c:129-187 | The packets of one PES start once, count by 1 modulo 16 and carry header and data in order; only behind a key picture that leaves room in its first packet there is fill |
| Ts.PatReadsBack | components/cloud_uploader/src/ts_mux.c:67-81 | A receiver finds program 1 and its map; `CrcDivision.CrcDivides` is what makes the checksum it checks the standard's |
| Ts.PmtReadsBack | components/cloud_uploader/src/ts_mux.c:83-107 | And in the map the video of the chosen type, which has the clock, and the audio |
| TsRun.RunCounts | components/cloud_uploader/src/ts_mux.c:190-211 | Over any run of pictures, audio frames and slices, each identifier counts by 1 modulo 16 across slices, and every slice with something in it begins with the tables |
| TsRun.SliceArrives | components/cloud_uploader/src/ts_mux.c:195-211 | Out of a slice a receiver takes exactly the pictures, and exactly the audio frames, of that slice, in order |
| TsRun.SliceBytesArrive | components/cloud_uploader/src/ts_mux.c:195-211 | The same from the bytes of the slice |
| TsRun.UnitParses | components/cloud_uploader/src/ts_mux.c:110-188 | Each gives back its time modulo 2^33 and its data, with fill behind exactly for key pictures below 162 bytes; an audio length field is right exactly below 65536 |
| TsSlices.SliceTells | components/cloud_uploader/src/ts_mux.c:31-208 | From the bytes of a slice alone a receiver finds the program, the map and the streams by their numbers, and exactly the pictures and audio frames written since the slice began, in order, with stream, time and bytes; key pictures, and no others, are marked as places to begin and carry the clock; a slice without any is empty |
| TsMux.PlainPacket | components/cloud_uploader/src/ts_mux.c:134-186 | A packet without clock, stuffed to 188 bytes |
| TsMux.ClockPacket | components/cloud_uploader/src/ts_mux.c:142-184 | The first packet of a key picture |
| TsMux.Writer.EmitPes | components/cloud_uploader/src/ts_mux.c:110-188 | The loop writes the packets specified and gives the next counter |
| TsMux.Writer.EmitPsi | components/cloud_uploader/src/ts_mux.c:52-65 | One table in one packet, the counter stepped |
| TsMux.Writer.WriteVideo | components/cloud_uploader/src/ts_mux.c:195-201 | One picture, behind the tables at the start of a slice; an empty one is refused |
| TsMux.Writer.WriteAudio | components/cloud_uploader/src/ts_mux.c:202-208 | One audio frame |
| TsMux.Writer.NextSlice | components/cloud_uploader/src/ts_mux.c:211-211 | A new slice keeps all counters |
| TsMux.Writer.Ensure | components/cloud_uploader/src/ts_mux.c:22-30 | Room for more bytes, the contents kept |
| Rtp.NalArrives | components/nop/src/media/rtsp_server.c:125-175 | A NAL unit of either codec, sent whole or in fragments, comes out of a receiver by RFC 6184 or RFC 7798 as it went in, whatever the receiver held |
| Rtp.NalShape | components/nop/src/media/rtsp_server.c:125-175 | No payload exceeds 1400 bytes; a fragmented unit has at least two, the start bit on the first only and the end bit on the last only |
| Rtp.SplitJoin | components/nop/src/media/rtsp_server.c:177-223 | Well-formed NAL units behind start codes of either length are split as they were joined if and only if there are at most 64 of them |
| RtpStream.PacketReadsBack | components/nop/src/media/rtsp_server.c:87-123 | A receiver reads channel, marker, type, sequence number, time, source and payload back |
| RtpStream.WireReadsBack | components/nop/src/media/rtsp_server.c:87-123 | And a whole run of packets out of the byte stream |
| RtpStream.AuShape | components/nop/src/media/rtsp_server.c:191-224 | The packets of a frame have consecutive sequence numbers modulo 2^16 and one time; the marker is on the last only |
| RtpStream.FrameArrives | components/nop/src/media/rtsp_server.c:191-224 | A client that reads the bytes of a frame of up to 64 NAL units gets exactly these units |
| RtpTells.PacketSeen | components/nop/src/media/rtsp_server.c:87-123 | A packet read byte by byte gives channel, marker, type, number, time, source and payload |
| RtpTells.FrameTells | components/nop/src/media/rtsp_server.c:191-224 | From the bytes of a frame of up to 64 units a client gets packets of type 96, numbered on, all with the frame's time at 90 kHz or 3000 ticks after the last without one, the marker on the last only, with at most 1400 bytes of payload, and from these exactly the units |
| RtpSender.FindStartCode | components/nop/src/media/rtsp_server.c:177-189 | The first start code and its length |
| RtpSender.Conn.SendRtp | components/nop/src/media/rtsp_server.c:87-123 | One packet onto the stream, the sequence number stepped; too long a payload is refused |
| RtpSender.Conn.SendNal | components/nop/src/media/rtsp_server.c:125-175 | One unit, whole or in fragments |
| RtpSender.Conn.SendAccessUnit | components/nop/src/media/rtsp_server.c:191-224 | A whole frame, with its own or the connection's time |
| RtspReader.ServeIsWhole | components/nop/src/media/rtsp_server.c:342-390 | For every stream and every way reads cut it, the requests and talk audio handled are those of the whole stream parsed at once, up to a tear-down; overflow of the buffer included |
| RtspUnits.UnitReadsBack | components/nop/src/media/rtsp_server.c:351-371 | A unit written out, packet or request, is the unit read, whatever follows it |
| RtspUnits.ServedAsWritten | components/nop/src/media/rtsp_server.c:342-390 | For every list of requests and packets a client writes out, with part of one more at the end, and for every cut of the bytes into reads: what is handled, up to and with a request that tears down, is every request below 2048 bytes and, of every packet of more than 12 bytes on the talk channel, what follows these |
| RtspReader.CutDoesNotMatter | components/nop/src/media/rtsp_server.c:342-390 | So without a tear-down two cuts of the same stream give the same |
| RtspReader.CutMattersAfterTeardown | components/nop/src/media/rtsp_server.c:348-381 | After a tear-down the cut can matter: an input where a request already buffered behind it is handled with one cut and not with another |
| RtspReader.CutMattersExactly | components/nop/src/media/rtsp_server.c:342-390 | All cuts of a stream handle the same units if and only if no request tears down, or nothing within the rest of the buffer behind the first that does would be handled |
| RtspReader.ServeTear | components/nop/src/media/rtsp_server.c:342-390 | Every cut handles what comes up to the tear-down and the complete units of some stretch that follows it within one buffer |
| RtspReader.LeastCut | components/nop/src/media/rtsp_server.c:342-390 | Reads that end with the tear-down handle nothing behind it |
| RtspReader.MostCut | components/nop/src/media/rtsp_server.c:342-390 | Reads that fill the buffer from the tear-down on handle all complete units in it |
| RtspConn.Conn.Run | components/nop/src/media/rtsp_server.c:342-390 | The loop of reads and handling on the fixed buffer does what the specification says |
| RtspConn.Conn.DrainBuffer | components/nop/src/media/rtsp_server.c:350-381 | The inner loop handles the complete units buffered and keeps the rest |
| RtspConn.Conn.Compact | components/nop/src/media/rtsp_server.c:366-379 | Moving the rest to the front keeps it |
| Ble.RoundTrip | app/ble/nvr_ble.c:37-153 | Whatever the receiver was in the middle of, the packets of a message of at most 16384 bytes deliver exactly one message, the same bytes and mark, with the last packet, and leave it idle |
| Ble.ArrivesIff | app/ble/nvr_ble.c:116-153 | A message of any length arrives if and only if it has at most 16384 bytes; of longer ones those up to 16384 bytes beyond a multiple of 65536 come out cut off to that many bytes, and the others are lost; the receiver is idle afterwards |
| Ble.PacketsOnAir | app/ble/nvr_ble.c:37-71 | Every packet of a message in full: marks, length, encipherment, and which of its bytes |
| Ble.AnyPieces | app/ble/nvr_ble.c:116-153 | After any first packet and any others behind it the message announced comes out, cut to its length, with the packet that completes it, and until then all of it is kept |
| Ble.RefusedIff | app/ble/nvr_ble.c:116-147 | Exactly which packets are refused, and that only one announcing more than 16384 bytes changes anything |
| Ble.PacketsFit | app/ble/nvr_ble.c:37-71 | Every packet fits the clamped size; their number is 1 + ceil(rest / (size - 1)); the kinds are first, middle, last |
| Ble.Conversation | app/ble/nvr_ble.c:37-153 | Messages sent one after the other come out one after the other |
| BleSession.FrameEncode | app/ble/nvr_ble.c:37-71 | The loop hands over the packets until the link refuses one; it returns their number or -1 |
| BleSession.Session.OnRx | app/ble/nvr_ble.c:116-153 | One packet changes the buffer, total, mark and activity as specified, refuses what is refused, and delivers a complete message |
| BleSession.Session.Deliver | app/ble/nvr_ble.c:98-114 | The message goes out once, the reply comes back in packets, the receiver is idle |
| BleSession.Session.Reserve | app/ble/nvr_ble.c:74-83 | Room for more bytes, the contents kept |

## Left out

- Recording.QueryReplays: runs that hand out a chunk another writer still has open, in which a group writer goes on after a refusal on another disk or moves to a disk with chunks too small for the frame, or whose epoch counter would pass 2^64 are outside; `Lapping.LappedViewer`, `RefusedWriter.RefusedOverwrites` and `Recording.FreshFits` show that it fails there. So are chunks of 2 GiB and more, where 32-bit offsets wrap. The statement covers the leading frames a slot counts, which are all of them once the segment is closed.
- Recording.GroupQueryReplays: the same runs.
- Answers.QueryAnswers: the same runs; so are those of `Answers.GroupQueryAnswers`, `History.TakenIsRecorded` and `ExportTells.ExportShows`.
- Answers.QueryFinds: the same runs as `Retention.LiveSegmentsAreFound`; so for `Answers.GroupQueryFinds`.
- Retention.LiveSegmentsAreFound: for rings of at most 2^24 chunks, beyond which segment ids of live segments can repeat (`IndexRing.SameId`), and segments closed while the search gets to their slot (`IndexRing.SearchExact` says when it does). A segment closed later gets a second slot, which is not followed further.
- PlayerImpl.SegPlayer.SeekPts: where the walk over damaged headers goes round for ever, the C loop does not return, and nothing is said; `PlaybackEnds.ForwardSeekEnds` and `PlaybackEnds.SeekLands` say when it ends.
- PlayerImpl.GroupPlayer.SeekPts: likewise.
- BackupImpl.Drive: where playback of damaged data does not end, the C loop does not return, and nothing is said; `PlaybackEnds.PlayEndsExactly` says when it ends.
- BackupImpl.DriveGroup: likewise; `PlaybackEnds.AcrossEndsExactly` says when it ends.
- BackupImpl.ExportSegment: as `BackupImpl.Drive`.
- BackupImpl.ExportGroup: as `BackupImpl.DriveGroup`.
- Retention.StepTidy: the same runs as `Retention.LiveSegmentsAreFound`.
- Recording.CountersUnique: for rings of at most 2^24 chunks; beyond, ids and so counter blocks of live segments can repeat (`IndexRing.SameId`).
- Balance.BalanceBound: loads are exact rationals, not doubles.
- Layout.EnoughSlotsIf: sufficient only, in the form used for formatted disks; `Layout.EnoughSlotsExactly` is the exact condition.
- Layout.EnoughSlots: likewise, for an overhead of at most a quarter of the chunk.
- Layout.SmallOverheadSuffices: sufficient only; `Layout.OverheadExactly` is the exact condition.
- Layout.LayoutSound: products of sizes are not reduced modulo 2^64; the subtraction of the last step is.
- Format.FormatDisk: the share of the metadata region is an exact real, and random bytes are parameters; for a share whose product leaves 64 bits the C conversion is undefined.
- StorageDev.FlushThenOpen: whole writes only. Power loss between or inside the writes of a flush is not modelled; opening falls back to a backup on a wrong magic only, so no stronger recovery would hold.
- Crypto.XcryptInPlace: the software loop; the hardware path through a device file, the key schedule and the cipher itself are not modelled.
- Mp4File.ExportReadsBack: the sample entry with the parameter sets is a parameter, as is the movie box of the fragmented format; files of 4 GiB and more have sizes that do not fit their fields.
- Mp4Writer.Muxer.Finish: writing to the file always succeeds.
- SegmentRecord.RunSliced: each operation holds the recorder's lock and is one step; writing a frame to an open file succeeds; a failure to open, for whatever reason, is one outcome.
- EventHub.RunKeepsInv: the pause between two looks at the counter is any number of steps of other threads; a subscription is the slot it points to. The media hub is the same protocol without the store of recent events.
- RtpSender.Conn.SendRtp: writing to the socket succeeds; a failed write only marks the connection dead.
- RtspReader.ServeIsWhole: the handler of a request is a function from its text to whether it sets up the talk channel and whether it tears down; response text, SDP and headers are not modelled.
- RtspUnits.ServedAsWritten: behind a request that tears down more can be handled, depending on the cut; `RtspReader.CutMattersExactly` and `RtspReader.ServeTear` say what.
- Group.PicksGoRound: as long as the turn does not pass 2^32 meanwhile.
- BleSession.Session.Deliver: the application gets the message, and its reply is a function of it; the terminating zero byte is not modelled.
- The reclaim callback of a writer (`rsdk_rec_set_reclaim`) belongs to the SQLite metadata and is not called here.
- Failing allocations, except that a pre-roll copy that cannot be allocated would be one frame less in the input of `SegmentRecord`.
- The SQLite code (`nvr_settings.c`, `rsdk_meta.c`, `rsdk_cloud.c`, most of `rsdk_pic.c`): its behaviour is in SQL.
- HTTP, libcurl, sockets, netlink, system commands, the TUTK, ONVIF and HAL adapters: calls into libraries that are not part of this model.
- The contents of the avcC and hvcC boxes, picture sizes beyond their fields, JPEG, wall-clock handling.
- Status and name tables, capability masks, registries, configuration loaders, throttling and back-off, preview layout: each a table or one comparison.
