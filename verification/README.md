# Verified model of the t20-rtspd camera daemon

t20-rtspd records H.264 into rotating MKV files, uploads finished files over a
kept-alive TLS connection, switches between day and night from the sensor's
exposure, and reads its settings from an INI file. This project models the
parts of it that are state machines, parsers or arithmetic loops, and proves
properties of them for all inputs and all runs. `dafny verify dfyconfig.toml`
checks everything.

| file | models |
|---|---|
| `CLib.dfy` | C characters and terminated strings in buffers |
| `IniSpec.dfy`, `CText.dfy`, `IniParser.dfy`, `IniRoundTrip.dfy` | `ini.c`: the meaning of a text, the in-place helpers, the buffered parser, writing and reading back |
| `HttpFraming.dfy`, `HttpDivision.dfy`, `HttpReply.dfy`, `HttpNet.dfy`, `HttpClient.dfy` | `https_client.c`: reading a response from pieces, when the cut into pieces matters, what a written reply is read as, the outside world, the cached connection with its one retry |
| `UploadRate.dfy`, `Uploader.dfy` | `file_uploader.c`: adaptive rate and pacing in 32- and 64-bit integers, the chunk loop and deletion |
| `DarkSkip.dfy`, `AutoNight.dfy` | `imp-common.c`: the 512-slot exposure ring, the day/night and LED controller |
| `MkvTimestamps.dfy`, `MkvFastPath.dfy`, `MkvRecorder.dfy`, `MkvMonitor.dfy`, `MkvSafety.dfy` | `mkv_recorder.c`: timestamp fix-up, the fast path, chunk rotation under interleaved video and audio, a monitor that every session passes, and what passing it guarantees |
| `Base64.dfy` | `base64_encode` of `grafana_push.c` and a decoder after section 4 of RFC 4648 |
| `PollTable.dfy` | the register-read table of `tools/vpu-capture.c` and its exchange sort |

How the model is built:

- Code that updates variables, buffers or globals is a class or a method with
  the same branches, proved against a specification function; the lemmas are
  about that function.
- Characters stand for bytes and `'\0'` for the terminator. An INI handler is a
  function of all calls made so far, so it may keep any state.
- Sockets, files, clocks and FFmpeg answer nondeterministically within a stated
  contract: `ssl_write` returns at least 1 or an error, `ssl_read` delivers the
  peer's bytes in order and in pieces of any size and ends only when nothing is
  left, `usleep` never returns early, a mode that is set is the mode that is
  read back.
- Every request is recorded on a wire: the connection, the body bytes that
  `ssl_write` took and the bytes that `ssl_read` delivered. What is claimed of an
  upload is claimed of that record. Failures of the disk and of the network are
  counted, so a contract can say that nothing else keeps a chunk from being
  acknowledged.
- The clock records the sleep that was asked for beside the time that passes, so
  the sleep is bounded from both sides; the checks of `g_running` are recorded
  in order.
- The recorder's lock makes each video and audio call atomic, so a run is any
  sequence of them; the shutdown, which takes no lock, is a call of its own
  after all others.

Where the code and what is written about it differ, the model follows the code,
and the difference is stated exactly:

- A file can be deleted as uploaded after only some of its chunks, when shutdown
  clears `g_running` between two of them (`Uploader.ShutdownDeletesPartialUpload`;
  the exact condition is in `Uploader.DeletedAfterFullAcknowledgement`).
- A connection that is kept is meant to have no unread bytes of a response. That
  holds exactly for the replies of `HttpFraming.Framed`
  (`HttpFraming.FramedExactly`): a reply whose body brings up a length that its
  header lacks can be taken for complete early (`HttpFraming.NotFramed`).
- The header search also scans body bytes that have already arrived, so the cut
  into pieces can matter (`HttpDivision.FragmentationMatters`); exactly when is
  in `HttpDivision.DivisionsAgree`.
- `imp-common.h` promises that only chunks whose every sample was dark are
  judged dark; the code uses a percentage. The promise holds on windows of n
  samples exactly when n * (100 - ratio) < 100 (`DarkSkip.PromiseKept`).
- The exposure range printed as "since start" is that of the current report
  window (`AutoNight.PrintedWindow`,
  `AutoNight.AllTimeOnlyBeforeFirstReport`).
- With `IR_LED_OFF` set and a positive threshold, the hysteresis band of the LEDs
  becomes a band in which they toggle on every poll
  (`AutoNight.InvertedOscillates`, `AutoNight.LedSwitchingIsBounded`).
- The configured rate cap is exceeded exactly when it is below 10 KB/s
  (`UploadRate.CapObeyed`).
- An IDR frame that is empty or cannot be buffered opens a chunk without a key
  frame (`MkvSafety.FirstPacketNotKey`), and nothing else does
  (`MkvSafety.OpeningFrame`, `MkvSafety.FirstPacketIsKey`).
- A negative first timestamp of a chunk is taken for "not set"
  (`MkvTimestamps.NegativeOriginIsLost`); exactly when that shows in the DTS is
  in `MkvTimestamps.FirstIsOrigin`.
- The fast path can lose an IDR flag or a parameter set; exactly when is in
  `MkvFastPath.SkippedFrame`.
- The register-read table misses addresses exactly when more than 4096 were read
  (`PollTable.KnownAddresses`).

## Model

| member | source | states |
|---|---|---|
| IniSpec.LinesPartition | ini.c:294-317 | splitting a text into physical lines loses nothing: the pieces join to the text, none is empty, and a newline ends each piece except possibly the last |
| IniSpec.FirstError | ini.c:166-269 | the result is 0 iff no physical line errs, else the 1-based number of the first one that does, judged on the state before it; the line counter ends at the number of physical lines; parsing continues past errors |
| IniSpec.StepError | ini.c:168-177 | a line that does not fit the buffer always errs, and an earlier error is never overwritten |
| IniParser.StringStream.Read | ini.c:294-317 | delivers the text up to and including the newline or up to num - 1 characters, terminated, and advances by exactly that |
| IniParser.StringStream.DiscardLine | ini.c:168-177 | the 16-byte abyss consumes exactly to the end of the physical line and tells whether anything was left |
| IniParser.Parser.FetchLine | ini.c:145-177 | the buffer holds the line cut to 199 bytes, the stream stands at the next line, and an overlong line is noted as an error |
| IniParser.Parser.ParseLine | ini.c:179-257 | in-place cutting of the buffer has the meaning that the pure line classification gives the cut line |
| IniParser.Parser.SplitPair | ini.c:226-236 | name and value cut out of one buffer: the name right-trimmed, the value up to an inline comment and trimmed, neither damaging the other |
| IniParser.Parser.ParseStream | ini.c:98-270 | for every NUL-free text and every handler, the calls and the result are those of the pure parse, whose meaning is fixed by `ParseRendered`, `FirstError` and `StepError` |
| IniParser.ParseString | ini.c:320-333 | the same for a string argument |
| CText.RStrip | ini.c:50-55 | in place, removes exactly the trailing white space and touches nothing outside the string |
| CText.FindCharsOrComment | ini.c:68-83 | finds the first delimiter or white-space-prefixed semicolon, or the terminator |
| CText.CopyText | ini.c:87-95 | copies the string or its first size - 1 characters, always terminated |
| IniRoundTrip.ParseRendered | ini.c:179-257 | a document of sections, entries in any layout, continuation lines, comments, and broken lines (no delimiter, no closing bracket), written out and parsed, makes exactly its calls in order, names and sections cut to their buffers; the result is the number of the first line that is broken or whose call was refused, and 0 iff there is none |
| IniRoundTrip.ParseBom | ini.c:181-186 | a byte-order mark before a text whose first line still fits changes neither the calls nor the result |
| IniRoundTrip.ValueInLayout | ini.c:230-236 | padding and a trailing comment come off a value, whatever both contain |
| IniRoundTrip.WriteAndRead | ini.c:320-333 | the round trip through the buffered parser, with the number of the first faulty line |
| HttpFraming.FramedExactly | https_client.c:504-551 | whatever the reads deliver, a connection that is kept has nothing of its reply left unread, iff the reply is framed: cut behind its header and first length option, it does not look complete before its end within the buffer, or it asks to close |
| HttpFraming.TakeKeepsReading | https_client.c:530-551 | a piece of a framed reply that makes the connection reusable is the last of the reply |
| HttpFraming.NotFramed | https_client.c:538-550 | a reply without a header length whose body brings one up is kept with a byte unread |
| HttpDivision.SameLength | https_client.c:533-545 | the announced length does not depend on how many bytes had arrived when the header was found |
| HttpDivision.HonestIsFramed | https_client.c:533-551 | a server that announces a length and never sends more than it sends framed replies |
| HttpDivision.DivisionsAgree | https_client.c:496-566 | for every reply that fits the buffer, all divisions into reads give the same reuse decision iff there is no header or three of them do; if the reply leaves room in the buffer, iff there is no header or the body does not change what the header says about closing |
| HttpDivision.FragmentationInvariant | https_client.c:496-566 | for a whole reply of honest length whose body does not change what the header says about closing, every division gives the same status and the same decision, namely keep iff no close was asked and the end is known |
| HttpDivision.CleanBody | https_client.c:533-545 | honest length and a body without `content-length:` and `connection:` suffice for that |
| HttpDivision.CleanIsFramed | https_client.c:533-551 | a clean reply is framed as well |
| HttpDivision.DoneAtLength | https_client.c:547-551 | a clean reply with a length is complete with its last byte, without waiting for the end of the stream, and the connection is kept iff no close was asked |
| HttpDivision.FragmentationMatters | https_client.c:538-543 | a reply for which two divisions lead to different decisions |
| HttpReply.CiAtMeans | https_client.c:316-331 | two texts match iff they agree letter by letter up to the case of A to Z and in all else exactly |
| HttpReply.AtoiReads | https_client.c:540-540 | a decimal number behind white space and a sign is read back as that number |
| HttpReply.ReplyRead | https_client.c:496-566 | a reply with a status, a length and a connection option, named in any letter case, is read completely and no further, however the network cuts it up; its status is the one written, and the connection is kept iff the option does not begin with close in any letter case |
| HttpClient.CiStrStr | https_client.c:316-331 | finds the first case-insensitive occurrence, or none, in the text before the terminator |
| HttpClient.SuccessMeans | https_client.c:643-644 | success is a status of three digits that begins with 2 |
| HttpClient.ReplyDecides | https_client.c:496-644 | for a written reply in any division, the client reports success iff its three-digit status begins with 2, and keeps the connection iff it does not ask to close |
| HttpClient.NoStatusNoSuccess | https_client.c:553-560 | a response without a blank has status 0 and is no success |
| HttpClient.ChunkMeans | https_client.c:593-595 | the chunk is the file from its offset on, of the size asked for, or the rest of the file if that is less or no size is given |
| HttpClient.ReadResponse | https_client.c:496-566 | reads until the reader is done and no longer, loses no byte, and puts on the wire's record what it got; with a framed reply, a connection is called usable only when nothing is left unread; the status is that of the bytes received |
| HttpClient.SendBody | https_client.c:468-493 | for all short reads and short writes, the bytes that go out on the wire are the start of the slice of the file, and all of it unless a write or a read failed |
| HttpClient.SendChunk | https_client.c:437-569 | one request on the wire, with these bytes; on a connection with nothing left over its status comes from its own reply, and if that is framed, a connection left usable has no unread bytes |
| HttpClient.Client.Drop | https_client.c:368-377 | releases the live connection once; every other connection stays released exactly once |
| HttpClient.Client.Connect | https_client.c:389-431 | a failed set-up is released at once, a successful one is the live connection |
| HttpClient.Client.Acquire | https_client.c:616-632 | the cached connection is reused iff it is held, was used within 20 s and is bound to this host and port; otherwise the result is a new one |
| HttpClient.Client.PostChunk | https_client.c:571-661 | at most two sends; the first reuses the held connection iff it was last used at most 20 s ago by the clock and is bound to this server, and is otherwise on a new one; the second is on a new one after the held one failed; success iff a 2xx was read from what the last request on the wire received, which is its own reply; that request carries the start of the slice, and all of it unless a read of the file failed; the connection is kept iff the response allows it; an initialized client gets an answer unless the disk or the network failed; the return after the loop is not reached |
| HttpClient.Client.Cleanup | https_client.c:94-107 | afterwards every connection ever set up has been released exactly once |
| UploadRate.SmoothBetween | file_uploader.c:44-50 | the average stays between its old value and the sample |
| UploadRate.RateBounded | file_uploader.c:52-58 | the rate is at least 10 and at most 1024000000 for every measurable throughput |
| UploadRate.CapObeyed | file_uploader.c:23-25 | the cap bounds the rate for every measurement iff it is at least 10 |
| UploadRate.AdaptiveRate.Update | file_uploader.c:40-59 | no 64-bit or 32-bit overflow; the average lies within the range of all samples so far; the rate is the capped and floored share of it |
| UploadRate.Pace | file_uploader.c:63-70 | the sleep is what is missing to the rate and fits 32 bits |
| UploadRate.ThroughputBound | file_uploader.c:61-70 | over any run of chunks paced at up to r, bytes * 10^6 <= r * 1024 * (time + number of chunks) |
| UploadRate.RawMeans | file_uploader.c:42-42 | the measured throughput is the whole number of bytes in a second, and 0 when no time passed |
| UploadRate.RateMeans | file_uploader.c:52-58 | the rate is the share of the average in whole KiB per second, at most the cap and at least 10 |
| UploadRate.SmoothConverges | file_uploader.c:44-50 | after n measurements of the same, higher throughput, 7^n / 10^n of the distance to it is left, up to 3 bytes per second of rounding |
| UploadRate.SleepMeans | file_uploader.c:63-70 | with the sleep, a chunk takes the time that its rate needs, to the microsecond, and a sleep never takes it beyond that |
| Uploader.BodiesArePrefix | file_uploader.c:322-375 | the acknowledged bodies in order are the first n MiB of the file if all went out whole, and else shorter |
| Uploader.UploadThread.AfterChunk | file_uploader.c:384-415 | an open probe adds up bytes and time and feeds the average once, when it has seen 512 KiB or the file ends; after it, exactly the sleep for the measured rate is asked for, in a repeated probe that for twice the rate within the cap, in a first probe none, without adaptive rate that for the fixed limit or else 0.1 s; the doubled probe rate does not overflow |
| Uploader.UploadThread.UploadChunks | file_uploader.c:322-416 | every acknowledgement is a request of its own on the wire, in order, to this server: it carried the start of the chunk, all of it if no read failed, and its 2xx is in what that request received, which, as long as the replies are framed, is a reply to that chunk; the fate follows from the checks of `g_running` and the posts; a file is kept only if the client was never set up, the disk or the network failed, or the last response was no success; the chunks after the probe are paced at the measured rate |
| Uploader.UploadThread.ProcessFile | file_uploader.c:298-427 | skipped iff the dark verdict holds; with the thread running and no failed read, a file is deleted as uploaded only when the bodies of its requests on the wire, put together, are the file; throughput stays within the limit, and after the probe within the measured rate, cap or none; no more sleep is asked for than the rates need |
| Uploader.DeletedComplete | file_uploader.c:341-422 | deletion comes after all chunks iff every check found the thread running |
| Uploader.ShutdownDeletesPartialUpload | file_uploader.c:341-422 | for every file of more than one chunk, a run that deletes it with only the first chunk acknowledged |
| Uploader.DeletedAfterFullAcknowledgement | file_uploader.c:322-426 | of a deleted file, the acknowledged bodies equal the file iff the thread was never told to stop and every chunk went out whole |
| DarkSkip.Ring.Note | imp-common.c:1177-1187 | the ring is always exactly the last min(n, 512) samples, oldest first |
| DarkSkip.Ring.RangeIsDark | imp-common.c:1189-1263 | the verdict of the loop over the ring is the verdict over those samples |
| DarkSkip.VerdictMeans | imp-common.c:1189-1263 | dark iff the chunk is at least as old as the minimum age, its first sample comes within one poll interval of its start, and the share of samples whose exposure or gain is below the dark level is at most what the ratio tolerates |
| DarkSkip.RingSuffices | imp-common.c:1203-1261 | it is the verdict over the unbounded history whenever nothing was evicted or a retained sample predates the window |
| DarkSkip.DarkMeansCovered | imp-common.c:1220-1243 | with a dark verdict, every evicted sample of the window lies within one poll interval of its start |
| DarkSkip.PromiseKept | imp-common.h:360-361 | for windows of n samples in the ring, polled at their interval, a dark verdict means that every one was dark, iff n * (100 - ratio) < 100 |
| AutoNight.Controller.Poll | imp-common.c:1394-1574 | one pass of the loop body leads to the state and the effects of the tick function, which `LedsFollow`, `NightForced`, `DayForced`, `EncoderFollowsMode` and `VerdictAfterGrace` describe |
| AutoNight.SwitchingIsBounded | imp-common.c:1440-1505 | over any run, k mode switches need a total travel of the average of (k - 1) * (night - day + 2), and the encoder is set at most k + 1 times |
| AutoNight.EncoderFollowsMode | imp-common.c:1448-1505 | ISP mode, recorded mode and encoder mode agree after every tick; at least one and at least as many encoder settings as switches |
| AutoNight.LedSwitchingIsBounded | imp-common.c:1507-1531 | the same bound for the LEDs, with the band from 3/4 of the threshold to the threshold, holds in every run iff the LEDs are not inverted or their threshold is not positive |
| AutoNight.LedsFollow | imp-common.c:1510-1531 | for every tick: above the threshold the LEDs are on, at 3/4 of it and below they are off, and in between they stay; with `IR_LED_OFF` the reverse, and in between they toggle |
| AutoNight.LedsForced | imp-common.c:1507-1531 | from dark LEDs, constant light c turns them on iff c rounded down to a multiple of 4 exceeds the threshold |
| AutoNight.InvertedOscillates | imp-common.c:1510-1530 | from the start and in constant light inside the band, inverted LEDs are switched on every tick though the average never moves |
| AutoNight.OneVerdictPerOn | imp-common.c:1551-1574 | health verdicts never exceed the times the LEDs were switched on, and one is pending only while they are on and in grace |
| AutoNight.VerdictAfterGrace | imp-common.c:1518-1574 | LEDs that go on and stay on get a verdict at the last tick of the grace and not before, and it is a fault iff the average is still above the day threshold |
| AutoNight.EmaBetween | imp-common.c:1440-1446 | one step of the shift average never overshoots the sample |
| AutoNight.AverageInRange | imp-common.c:1440-1446 | over any run the average lies between the least and the greatest sample |
| AutoNight.Geometric | imp-common.c:1440-1446 | under constant light 4^n * (D_n - 3) <= 3^n * (D_0 - 3) |
| AutoNight.SettlesWithin3 | imp-common.c:1440-1446 | it settles within 3 of the light, after at most D_0 ticks |
| AutoNight.NightForced | imp-common.c:1475-1482 | from day, constant light c leads to night iff c rounded down to a multiple of 4 exceeds the threshold |
| AutoNight.DayForced | imp-common.c:1483-1491 | from night, constant light c leads to day iff c / 4 * 4 + 3 is below the threshold |
| AutoNight.PrintedWindow | imp-common.c:1380-1438 | both printed ranges are the range of the samples since the last report |
| AutoNight.AllTimeOnlyBeforeFirstReport | imp-common.c:1391-1437 | the printed maximum is that of the whole run, for all runs, iff no earlier poll printed a report; and so is the printed minimum |
| AutoNight.ReportEvery | imp-common.c:1418-1438 | a report is printed at every p-th poll, p being the number of intervals that first takes up the report period, and then covers exactly p samples |
| MkvTimestamps.StrictlyIncreasing | mkv_recorder.c:410-419 | whatever the encoder delivers, DTS start at 0 and strictly increase |
| MkvTimestamps.ClosedForm | mkv_recorder.c:403-416 | for all timestamps, with m the first frame of nonnegative timestamp: before m the DTS count the frames, and from m on DTS n is the greatest of n and ts[k] - ts[m] + n - k for k from m to n |
| MkvTimestamps.FirstIsOrigin | mkv_recorder.c:405-416 | DTS n is the greatest of ts[k] - ts[0] + n - k for k up to n, iff the first timestamp is not negative or no frame up to n ran ahead of one tick per frame |
| MkvTimestamps.ExactWhenIncreasing | mkv_recorder.c:403-416 | increasing timestamps are written exactly, relative to the first |
| MkvTimestamps.NegativeOriginIsLost | mkv_recorder.c:405-408 | a negative first timestamp is taken for unset: of 15 microseconds between two frames one is written |
| MkvFastPath.Inspector.InspectFrame | mkv_recorder.c:235-277 | flags an IDR iff a pack is one, and caches as the specification says, allocation failures included |
| MkvFastPath.FastPathExact | mkv_recorder.c:321-331 | on streams whose IDR, SPS and PPS packs travel in frames led by an SPS, the fast path gives the same flags and caches as inspecting every frame |
| MkvFastPath.SkippedFrame | mkv_recorder.c:321-331 | on a skipped frame it agrees iff the frame holds no IDR, and for SPS and for PPS each pack that differs from the cached set is followed by a copy of it that can be stored, or, with none cached, no pack sticks |
| MkvFastPath.SkippedInRun | mkv_recorder.c:321-331 | the same for the next frame after any run, whose caches meet the hypotheses of the former |
| MkvFastPath.StoredSticks | mkv_recorder.c:246-268 | the last parameter set of a frame that could be stored is the one cached, unless a later one of its type differs |
| MkvFastPath.GotWhenBoth | mkv_recorder.c:271-275 | over any stream, the extradata counts as seen from the first frame after which both sets are cached, for good |
| MkvRecorder.Recorder.OpenChunk | mkv_recorder.c:67-212 | either a ready empty chunk, its clock reset, or no context at all, for every failure |
| MkvRecorder.Recorder.CloseChunk | mkv_recorder.c:214-231 | trailer and free of the live context, once, and the baseline reset |
| MkvRecorder.Recorder.Assemble | mkv_recorder.c:384-388 | the start of the reused buffer is the packs of the frame, one behind the other, whatever earlier frames left in it |
| MkvRecorder.PackPlaced | mkv_recorder.c:360-388 | in the assembled frame each pack stands behind those before it, unchanged |
| MkvRecorder.Recorder.WriteFrame | mkv_recorder.c:313-436 | state, muxer events and result are those of the step function, which `MkvSafety.FrameWritten` and `MkvMonitor.SessionSafe` describe, with the encoder timestamps of the frames written; the clock fields are those of these timestamps, and live stream pointers belong to the live context |
| MkvRecorder.Recorder.WriteAudio | mkv_recorder.c:438-493 | the same for an audio call: dropped without a chunk or a video origin, and a failed write ends the chunk |
| MkvRecorder.Session | mkv_recorder.c:313-516 | the recorder's trace and results over any interleaving of calls, then shutdown, are those of the folded step functions |
| MkvMonitor.SessionSafe | mkv_recorder.c:313-516 | whatever the interleaving, the frames and the failures, the trace of a session passes the monitor, which knows none of the recorder's state; nothing is left to do and no file is open at the end. The monitor forbids what may not happen and enforces what must: after a due IDR, a failed write or a shutdown the next two events are the trailer and the release |
| MkvSafety.SessionFrees | mkv_recorder.c:313-516 | a session frees every context it creates, and none twice |
| MkvSafety.FreedExactlyOnce | mkv_recorder.c:102-231 | every context is created at most once, and freed exactly once unless it is the live one |
| MkvSafety.AudioAfterVideo | mkv_recorder.c:454-463 | no audio packet precedes its file's first written video packet |
| MkvSafety.IdrBetweenFailureAndPacket | mkv_recorder.c:426-431 | between a failed write and the next packet stands an IDR |
| MkvSafety.OpensAtIdr | mkv_recorder.c:345-352 | a chunk is opened only by a video call with an IDR |
| MkvSafety.RotatesWhenDue | mkv_recorder.c:337-343 | a chunk that did not fail ends on shutdown, or on an IDR at least chunk_duration after it became ready |
| MkvSafety.DueIdrEndsFile | mkv_recorder.c:337-343 | an IDR that finds its file at least chunk_duration old is followed at once by the trailer and the release of that file |
| MkvSafety.FailureEndsFile | mkv_recorder.c:426-489 | so is a failed video or audio write |
| MkvSafety.NothingAfterFree | mkv_recorder.c:214-231 | no packet goes to a file after its release |
| MkvSafety.SessionRotates | mkv_recorder.c:313-516 | in every session, no packet of a file follows an IDR call that found it due |
| MkvSafety.FrameWritten | mkv_recorder.c:313-436 | a video call writes its frame iff recording is on, both parameter sets were seen, there is a file for it (the open one unless an IDR finds it due, else one that this IDR can open) and the frame has data and a buffer; the packet then has the packs, the timestamp and the key flag of the frame, and the call fails iff it should have written and could not |
| MkvSafety.AudioWritten | mkv_recorder.c:438-493 | an audio call writes its packet iff audio is recorded, the packet has data, a file is open and a frame of nonnegative timestamp was stamped in it; it fails iff that write does |
| MkvSafety.BufferGrows | mkv_recorder.c:371-382 | a buffer that had to grow takes frames half as large again without another allocation, and never shrinks |
| MkvSafety.WrittenDts | mkv_recorder.c:403-420 | every video packet carries the closed-form DTS of the encoder timestamps of its file up to its own |
| MkvSafety.DtsIncrease | mkv_recorder.c:410-419 | in every file the video DTS strictly increase from 0 |
| MkvSafety.FirstPacketIsKey | mkv_recorder.c:345-379 | the first video packet of a file is a key frame, unless a frame was given up in that file before it |
| MkvSafety.OpeningFrame | mkv_recorder.c:345-379 | a call that opens a file writes its frame right after the header as a key frame with DTS 0 iff the frame has data and a buffer for it, and otherwise gives it up |
| MkvSafety.FirstPacketNotKey | mkv_recorder.c:360-379 | a session whose first IDR cannot be buffered: the file then begins with a frame that is no key frame |
| Base64.EncodedLength | grafana_push.c:35-36 | the encoding has 4 * ceil(len / 3) characters |
| Base64.DecodeEncode | grafana_push.c:30-63 | a decoder after RFC 4648 recovers every byte sequence |
| Base64.EncodeDecode | grafana_push.c:30-63 | the decoder accepts nothing but encodings |
| Base64.EncodeInto | grafana_push.c:30-63 | fills and terminates the buffer in place, or refuses one that is too small and leaves it alone |
| PollTable.KnownAddresses | tools/vpu-capture.c:53-67 | the table's addresses are distinct and were read; every address that was read is among them iff at most 4096 were |
| PollTable.CountedAgain | tools/vpu-capture.c:56-61 | counting a known address keeps every row's count equal to its reads modulo 2^32 |
| PollTable.FirstCount | tools/vpu-capture.c:62-66 | a first read gets a row with count 1 if there is room, and the table stays exact |
| PollTable.Table.Note | tools/vpu-capture.c:53-67 | after any sequence of reads the table is exact |
| PollTable.Table.Sort | tools/vpu-capture.c:501-512 | the exchange sort leaves a descending permutation of the rows |
| PollTable.Table.Report | tools/vpu-capture.c:513-515 | with at most 4096 addresses, none of them read 2^32 times, each count shown is the number of reads and no address left out was read more often than one that is shown |

## Left out

- `capture_and_encoding.cpp`, `audio_capture.cpp`, `main.cpp`, `http_server.c`: SDK call sequences, thread start-up and plumbing.
- Configuration key matching, log printing, metric formatting, and the reading of camera name, address and network name: no state beyond a copy.
- IMP SDK, FFmpeg, TLS, sockets, files, GPIO: nondeterministic answers, as described above. A TLS handshake that asks to be retried is one answer.
- `parse_url` and the request header: host and port are parameters, and a header write that is cut short counts as sent, as in the source.
- HttpClient.Client.PostChunk: an `atoi` beyond the range of `int` is undefined in C and is an unbounded integer here.
- HttpDivision.SameLength: a length field whose number does not begin inside the header is excluded, because `atoi` then reads on into the body; `HttpFraming.FramedExactly` and `HttpDivision.DivisionsAgree` include it.
- HttpDivision.DivisionsAgree: replies that do not fit the buffer, whose tail is never read.
- `https_post`, the one-shot request: the same loops without the cached connection.
- Locks: each call is atomic, so blocking, the volatile `g_night_mode` read by the main thread and the join at shutdown are not modelled.
- AutoNight.Controller.Poll: a failed exposure read changes nothing and is left out, the ranges of the gains behave like the range of the exposure, and the products of thresholds stay in unbounded integers.
- MkvRecorder.Recorder.WriteFrame: extradata, file names, the cached disk usage and packet durations are left out, and frame sizes and timestamps are unbounded integers.
- MkvRecorder.Recorder.WriteAudio: the bytes of an audio packet, which are passed on as they are, and its timestamp, which is rescaled by FFmpeg and not kept in order by the code.
- Uploader.UploadThread.ProcessFile: the directory scan, `chunk_start_time` (calendar and DST) and the destination file name; the size of the file is taken not to change after the scan, and offsets do not wrap at 2 GiB.
- UploadRate.Pace: elapsed time is an unbounded number of microseconds.
- PollTable.Table.Report: the printed text.
- Base64.EncodeInto: the length of the input is not bounded by `int`.
