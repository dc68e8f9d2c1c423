# Verified model of the multipath stream machinery

The proxy carries one TCP byte stream over several TCP connections. The sending end stripes the bytes into frames
(offset, length, payload, the numbers written as variable-length integers of section 16 of RFC 9000), each connection
is paced by a token bucket, and the receiving end puts the frames together again with a stream sequencer derived from
QUIC. The modules follow that structure:

| module | what it is about |
|---|---|
| `Words`, `Lists`, `ByteCodec` | bytes, lists without duplicates, `uint64_t` arithmetic, the two kinds of variable-length integers, reader and writer |
| `Intervals`, `IntervalSets` | half-open intervals and the canonical set of them, edited in place |
| `Streams` | the simple thing a receive buffer stands for: a cursor and a partial map from offsets to bytes, and its runs |
| `BlockGeometry`, `SequencerBuffers` | the circular array of 8 KiB blocks that implements it |
| `Sequencers` | delivery and close of one stream (sections 2.2 and 4.5 of RFC 9000) |
| `Framing`, `Striping` | frames on a path, and how a buffer is spread over paths |
| `IntervalBudgets`, `Sockets` | the token bucket and the buffered, paced socket |
| `Mpproxy`, `Receivers` | connections and sessions: sending, scheduling, delivering |
| `Paths`, `Arrangements`, `Multipath` | one session as a state machine over any number of FIFO byte channels |
| `Progress` | from which states of `Multipath` everything can still be handed on |
| `Overruns`, `HalfRounds`, `Stalls`, `Fragments` | runs of `Multipath` that lose data: a window that is overrun, and too many intervals |
| `Metas`, `Registries`, `Handshakes` | the META message, the sessions of a server, and how paths become ready and find theirs |
| `Sessions`, `SessionSteps`, `SessionRuns` | all sessions of all clients with one server as a state machine; each session by itself is a run of `Multipath` |
| `SessionProgress` | from which states of `Sessions` a session can start and hand on all that was read |
| `WindowedFilters` | the windowed maximum behind the bandwidth estimate |
| `AlarmRounds` | the alarm loop over a multimap that changes while it is walked |

Objects whose methods update fields are classes with those fields; each method is proved against a function of its
inputs and the old state, and the lemmas state what those functions mean. The same functions (`Accept`, `Answer`,
`Deliver`, `SharedOut`, `DispatchAll`, `Lookup`, `MetaOf`) are the steps of the state machines in `Multipath` and
`Sessions`, so what is proved about their runs is about the methods of `SequencerBuffer`, `TcpConnection`, `TpServer`
and `TpServerBackend`. In particular a state machine has no choice in what the sequencer answers: `Answer` is what
`OnStreamData` is proved to return, by the window and the number of intervals.

Main results:

- `Multipath.OutputIsPrefix`, `EverythingArrives`: after any run over any number of paths, in either direction, with any
  interleaving and any cut into sends and reads, what was handed on is a prefix of what was read; once the paths are
  quiet and nothing was refused it is everything scheduled.
- `Multipath.NothingIsRefused`: nothing is refused as long as what is scheduled and not handed on fits the window and
  fewer than 10000 frames of data are on their way. Until then every byte has been received or is on exactly one path,
  the frames of a path are in the order of their offsets, and the received intervals are at most one more than the
  frames on their way (`Arrangements.CountIsBounded`).
- `Progress.EverythingCanArrive`: from a state in which nothing was refused, some sends and receives hand on everything
  scheduled if and only if there is room for the frame at the cursor, or there comes to be by delivering frames that
  join what waits. There always is once anything has been read, and while fewer than 9999 intervals wait. It delivers
  the frame at the cursor, which is always the first frame of data on its path.
- `Overruns.FullWindowLoses`, `Fragments.TooManyFrames`, `NothingCanArrive`: the conditions above are needed. Each is
  a run for every capacity in a range, built by induction where it is long, in which scheduling takes exactly the
  ready paths with room as the proxy does.
- `SessionRuns.EverySession`, `MetaComesFirst`, `OneEndpointPerSession`: over all runs of any number of clients, META
  is the first frame on every path and scheduling uses only paths that have it; data always finds its session and no
  session is registered twice; all paths of a session share one endpoint, different sessions never share one, no
  output mixes sessions, and no endpoint ever lists a path of another session to write back to. None of this is a
  condition on the steps.
- `SessionProgress.AnySessionCanFinish`, `SessionCanStart`: safety does not come from standing still. From every state
  of every run, a session in which nothing was refused can have all its paths become ready and everything that was
  read handed on, if there is room for the frame at the cursor; from the start that is so for any number of paths and
  any text whose frames fit the window.
- `Streams.RunsKeepFirstBytes` with the contracts of `SequencerBuffer`: after any run, discards included, a byte read or
  waiting is the first byte received at its offset since the last discard, and it sits in its cell of its block; blocks
  are held exactly while they are needed.
- `IntervalSet.Difference`, `Intersection`, `Add`, `Union`, `Complement`: exact on points, and canonical again.
- `Framing.ChunkingDoesNotMatter`, `PrefixDelivers`: framing does not depend on how the bytes are cut into reads.
- `WindowedFilters.BestIsSuffixMaximum`, `BestIsWindowMaximum`, `IntervalBudgets.BoundHoldsExactly`,
  `AlarmRounds.RoundMeans`.

Findings, each with a lemma:

- `IsDeliverable` recomputes the lengths of the header from its values. The payload is found where it is exactly if both
  numbers were written in the shortest way (`HeaderIsRightIffShortest`); `LongHeaderIsMisread` gives four bytes for
  which the length is delivered as payload. `WriteVarInt62` always writes the shortest form.
- `PeekRegion` compares block indexes only. Its length is right exactly if the first missing byte is in another block or
  further on in the same one (`PeekIsExact`). `PeekFailsOnAFullBuffer` builds a buffer of 64 MiB, fills it, reads 100
  bytes and fills it up again: then the length is 0 at the cursor and almost 2^64 a little further on.
- The range test of `OnStreamData` is sound without any assumption on the sizes, although it wraps (`RangeIsSound`).
  It refuses exactly what reaches beyond the window if and only if the end of the window does not wrap; otherwise it
  refuses the byte at the cursor (`RangeIsExact`).
- The receiver grants no credit, so the sender can overrun the window. `FullWindowLoses` gives, for every capacity
  below 2^62 - 1, a run over two paths in which one byte more than the window is scheduled and the last one is refused;
  it is never sent again and the output stops before it for good (`LostForGood`). The first path is filled above the
  threshold of 15000 bytes, the second one becomes ready and takes the rest, and is received first; if the window is
  shorter than a frame, one frame is enough.
- The number of intervals is limited, but not the number of frames on their way. `TooManyFrames` gives a run inside the
  window, for every capacity from 30 million bytes on, that ends with 10000 intervals when exactly 10000 frames are on
  their way: the bound of `NothingIsRefused` is the best possible.
- With nothing read yet and 9999 intervals waiting, the frame at the cursor is refused, exactly if it touches nothing
  that waits, and the run ends (`CursorAnswer`, `CursorIsAccepted`). `NothingCanArrive` gives a run to such a state,
  again inside the window: nothing was refused so far, and whatever is read, scheduled, sent and received from there
  on, nothing is ever handed on. Once anything has been read this cannot happen.
- The comment on `WindowedFilter` speaks of the maximum over a fixed interval. The code keeps the maximum of a suffix
  of the samples that starts within the window; a larger sample in the window can be missed
  (`WindowMaximumCanBeMissed`). After an update the best estimate is the maximum of the window if and only if the sample
  is a largest one of the window or a largest one is among the three estimates from before (`BestIsWindowMaximum`).
- A client with number 0 counts as unnamed at the server: a second META attaches its path anew while the endpoint from
  before keeps the path in its list (`TcpConnectionLeft.ParseMessage`). Over a list of messages the name that stays is
  the first one with another number, and if there is none the last one (`NameIsFirstReal`, `NameWithoutNumber`).
- The bound on what a paced connection sends holds for all runs exactly from 24 kbps on (`BoundHoldsExactly`); the code
  never goes below 625 kbps.

## Model

| member | source | states |
|---|---|---|
| Intervals.IncludesMeansSubset | sequencer/quic_interval.h:131-137 | for non-empty intervals inclusion is being a subset of the points |
| Intervals.IntersectsMeansCommonPoint | sequencer/quic_interval.h:139-143 | two intervals intersect exactly if they have a point in common |
| Intervals.IntersectWith | sequencer/quic_interval.h:249-263 | the points become the common points, and the result says whether anything changed |
| Intervals.SpanningUnion | sequencer/quic_interval.h:265-283 | the least interval that has the points of both, and whether anything changed |
| Intervals.Difference | sequencer/quic_interval.h:332-376 | the two parts are exactly the points outside the other interval, in order |
| IntervalSets.CanonicalIsUnique | sequencer/quic_interval_set.h:357-360 | two canonical sets with the same points are the same list, so comparing lists compares sets of points |
| IntervalSets.MergedPoints | sequencer/quic_interval_set.h:878-905 | merging a sorted run of intervals keeps exactly its points |
| IntervalSets.MergedIsCanonical | sequencer/quic_interval_set.h:878-905 | merging a sorted run yields disjoint, non-adjacent intervals |
| IntervalSets.AddRestoresInvariant | sequencer/quic_interval_set.h:460-480 | merging from the left neighbour of a new interval up to the upper bound of its end is enough to make the whole set canonical again |
| IntervalSets.AddPoints | sequencer/quic_interval_set.h:460-480 | that merge has the old points and those of the new interval |
| IntervalSets.IncludedIffCovered | sequencer/quic_interval_set.h:493-501 | in a canonical set an interval is covered exactly if one member includes it |
| IntervalSets.IntervalSet.Compact | sequencer/quic_interval_set.h:878-905 | the part between two positions of a sorted list is replaced by its merge; the re-insertion never collides |
| IntervalSets.IntervalSet.Add | sequencer/quic_interval_set.h:460-480 | canonical again, with exactly the points of the union |
| IntervalSets.IntervalSet.AddOptimizedForAppend | sequencer/quic_interval_set.h:118-146 | canonical, with the points of the union, for every interval |
| IntervalSets.AppendIsAdd | sequencer/quic_interval_set.h:118-146 | what Add and AddOptimizedForAppend promise leaves one list: both give the same |
| IntervalSets.IntervalSet.TrimLessThan | sequencer/quic_interval_set.h:170-198 | the points from the value on remain, and the result says whether a point was dropped |
| IntervalSets.IntervalSet.Contains | sequencer/quic_interval_set.h:482-491 | decides whether the value is a point of the set |
| IntervalSets.IntervalSet.ContainsInterval | sequencer/quic_interval_set.h:493-501 | decides whether a non-empty interval lies in the set |
| IntervalSets.IntervalSet.Find | sequencer/quic_interval_set.h:567-579 | finds the interval that contains the value, or the end exactly if no interval does |
| IntervalSets.IntervalSet.FindInterval | sequencer/quic_interval_set.h:625-636 | finds the interval that includes the probe, or the end exactly if the set does not have all its points |
| IntervalSets.IntervalSet.LowerBound | sequencer/quic_interval_set.h:638-655 | the first interval that ends after the value |
| IntervalSets.IntervalSet.UpperBound | sequencer/quic_interval_set.h:657-661 | the first interval that starts after the value |
| IntervalSets.IntervalSet.IsDisjoint | sequencer/quic_interval_set.h:663-676 | decides whether interval and set have no point in common |
| IntervalSets.IntervalSet.Valid | sequencer/quic_interval_set.h:907-920 | decides exactly the invariant: sorted, non-empty, disjoint, non-adjacent |
| IntervalSets.IntervalSet.FindIntersectionCandidate | sequencer/quic_interval_set.h:684-707 | every interval before the candidate ends before the probe, so no intersecting one is skipped |
| IntervalSets.IntervalSet.FindNextIntersectingPair | sequencer/quic_interval_set.h:709-743 | everything passed over misses the other set, holes are erased if asked, and the pair found intersects; both cursors together advance |
| IntervalSets.IntervalSet.Difference | sequencer/quic_interval_set.h:811-848 | canonical, with exactly the points of the one set that are not in the other |
| IntervalSets.IntervalSet.Intersection | sequencer/quic_interval_set.h:745-781 | canonical, with exactly the common points |
| IntervalSets.IntervalSet.Union | sequencer/quic_interval_set.h:678-682 | canonical, with exactly the points of either set |
| IntervalSets.IntervalSet.Complement | sequencer/quic_interval_set.h:850-855 | canonical, with exactly the points of the range that were missing |
| Streams.RunsKeepFirstBytes | sequencer/quic_stream_sequencer_buffer.cc:111-323 | after any run of frames, reads, clears and flushes, of everything since the last discard: an offset waits exactly if it was received and not read, it holds the first byte received there, and the bytes read are the first bytes received from the cursor of that discard on |
| Streams.WithoutDiscards | sequencer/quic_stream_sequencer_buffer.cc:443-454 | a run that discards nothing counts from offset 0 |
| Streams.FirstByteStays | sequencer/quic_stream_sequencer_buffer.cc:150-182 | later frames never change the byte that was received first at an offset |
| Streams.ConsumeTwice | sequencer/quic_stream_sequencer_buffer.cc:267-323 | reading in two goes yields the same text and the same state as reading at once |
| BlockGeometry.CellExists | sequencer/quic_stream_sequencer_buffer.cc:472-479 | every offset has an existing block and a place inside the capacity of that block, the short last block included |
| BlockGeometry.CellsAreDistinct | sequencer/quic_stream_sequencer_buffer.cc:472-479 | two different offsets of one window never share a cell |
| BlockGeometry.NextBlock | sequencer/quic_stream_sequencer_buffer.cc:472-537 | going on behind the end of a block enters the next one, around the end of the array, at its start |
| BlockGeometry.OnlyTheRestIsLive | sequencer/quic_stream_sequencer_buffer.cc:489-519 | if the last received byte is not in the block just read, live bytes of that block lie in its rest only |
| SequencerBuffers.FirstMissingIs | sequencer/quic_stream_sequencer_buffer.cc:543-549 | FirstMissingByte is the cursor plus the number of readable bytes |
| SequencerBuffers.LastPending | sequencer/quic_stream_sequencer_buffer.cc:521-525 | Empty decides that nothing is waiting; otherwise the byte before NextExpectedByte waits and is the last one |
| SequencerBuffers.RangeIsSound | sequencer/quic_stream_sequencer_buffer.cc:122-127 | in wrap-around arithmetic, without assumptions: a frame that passes the test does not wrap and lies within the window |
| SequencerBuffers.RangeIsExact | sequencer/quic_stream_sequencer_buffer.cc:122-127 | exactly the frames beyond the window are refused if and only if the end of the window does not wrap; if it wraps, the byte at the cursor is refused |
| SequencerBuffers.AnswerMeans | sequencer/quic_stream_sequencer_buffer.cc:111-169 | which answer is given to which frame: empty, beyond the window, one of which something is new while there come to be 10000 intervals or more, or accepted |
| SequencerBuffers.CountOfIntervals | sequencer/quic_stream_sequencer_buffer.cc:139-146 | the number of intervals that is compared with the limit is the number of gaps in what was received, so the answer depends on the stream alone |
| SequencerBuffers.RetireDecision | sequencer/quic_stream_sequencer_buffer.cc:489-519 | the tests of RetireBlockIfEmpty, in their order, decide exactly whether a waiting byte lives in the block |
| SequencerBuffers.MissingIsNew | sequencer/quic_stream_sequencer_buffer.cc:150-182 | the bytes on the difference of a frame and what was received are exactly the new ones, and writing them is accepting the frame |
| SequencerBuffers.AcceptedIndex | sequencer/quic_stream_sequencer_buffer.cc:134-182 | after the frame is added the interval set describes the stream after the frame |
| SequencerBuffers.ChunkCells | sequencer/quic_stream_sequencer_buffer.cc:198-262 | a chunk within a block fills consecutive cells, and no other offset of the window has any of them |
| SequencerBuffers.PeekIsExact | sequencer/quic_stream_sequencer_buffer.cc:387-417 | the length reported by PeekRegion is that of the readable rest of the block exactly under the guard on the first missing byte |
| SequencerBuffers.PeekFailsOnAFullBuffer | sequencer/quic_stream_sequencer_buffer.cc:387-417 | builds a buffer of 64 MiB, fills it, reads 100 bytes and fills it again: the region at the cursor is empty, and one behind it has almost 2^64 bytes |
| SequencerBuffers.SequencerBuffer.constructor | sequencer/quic_stream_sequencer_buffer.cc:39-49 | an empty stream at offset 0 |
| SequencerBuffers.SequencerBuffer.OnStreamData | sequencer/quic_stream_sequencer_buffer.cc:111-183 | the result is a function of stream, capacity and frame: refused beyond the window, or if a new frame makes 10000 intervals; on success the stream is the old one with the frame accepted, on the fast and the slow path alike, and the count is the number of new offsets |
| SequencerBuffers.SequencerBuffer.BufferAllNew | sequencer/quic_stream_sequencer_buffer.cc:134-149 | the fast path accepts a frame of which nothing was received |
| SequencerBuffers.SequencerBuffer.BufferMissing | sequencer/quic_stream_sequencer_buffer.cc:150-182 | the slow path accepts any frame, copying only what is missing |
| SequencerBuffers.SequencerBuffer.CopyStreamData | sequencer/quic_stream_sequencer_buffer.cc:185-265 | all bytes end in their cells, all other waiting bytes stay in theirs, only needed blocks are allocated, and the error returns are not taken |
| SequencerBuffers.SequencerBuffer.RetireBlockIfEmpty | sequencer/quic_stream_sequencer_buffer.cc:489-519 | live data is never freed, no empty block is kept, and freeing twice does not happen |
| SequencerBuffers.SequencerBuffer.RetirementIsExact | sequencer/quic_stream_sequencer_buffer.cc:70-79 | between operations a block is held exactly if some received, unread offset lives in it |
| SequencerBuffers.SequencerBuffer.WindowIsKept | sequencer/quic_stream_sequencer_buffer.cc:464-470 | the received data ends between the cursor and the cursor plus the capacity, the count is the number of waiting bytes, and each is in its cell |
| SequencerBuffers.SequencerBuffer.Readv | sequencer/quic_stream_sequencer_buffer.cc:267-323 | the buffers get the next readable bytes in order, as many as fit, and the stream has consumed exactly those; the error return is not taken |
| SequencerBuffers.SequencerBuffer.MarkConsumed | sequencer/quic_stream_sequencer_buffer.cc:419-441 | refused exactly if more than the readable bytes is asked for; otherwise the same state as a Readv of that many bytes |
| SequencerBuffers.SequencerBuffer.GetReadableRegions | sequencer/quic_stream_sequencer_buffer.cc:325-381 | the regions hold the readable bytes in order, all of them if there are enough regions, and each goes on to the end of its block or to the last readable byte |
| SequencerBuffers.SequencerBuffer.PeekRegion | sequencer/quic_stream_sequencer_buffer.cc:387-417 | a region is reported exactly for readable offsets, starts in the cell of the offset, and under the guard shows the readable bytes of that block |
| SequencerBuffers.SequencerBuffer.Clear | sequencer/quic_stream_sequencer_buffer.cc:55-68 | nothing waits, all blocks are freed, the cursor stays: a clear of the runs |
| SequencerBuffers.SequencerBuffer.FlushBufferedFrames | sequencer/quic_stream_sequencer_buffer.cc:443-448 | the cursor moves behind the last received byte, gaps included, and the distance is returned: a flush of the runs |
| SequencerBuffers.SequencerBuffer.ReleaseWholeBuffer | sequencer/quic_stream_sequencer_buffer.cc:450-454 | as Clear, and the block array itself is freed |
| Sequencers.QuicStreamSequencer.OnStreamFrame | sequencer/quic_stream_sequencer.cc:41-60 | the final offset is settled first; a wrong one is refused and nothing else happens; otherwise the result is that of the buffer for this stream and frame, and accepted data is handed on unless the sequencer is blocked; the application is told once for what becomes readable, and once more if the end is known and reached already |
| Sequencers.QuicStreamSequencer.OnFrameData | sequencer/quic_stream_sequencer.cc:62-113 | the result is that of the buffer; the data is accepted and everything readable handed on unless blocked; on error neither stream nor output change; the application is told exactly if something becomes readable; while data is discarded, what would make more readable is thrown away |
| Sequencers.QuicStreamSequencer.CloseStreamAtOffset | sequencer/quic_stream_sequencer.cc:115-144 | a final offset is accepted exactly if it is the first or the same again and covers everything received; the end is passed up at once if everything up to it was read |
| Sequencers.QuicStreamSequencer.MaybeCloseStream | sequencer/quic_stream_sequencer.cc:146-165 | the end is passed up exactly if not blocked and everything was consumed; clearing the buffer then loses nothing |
| Sequencers.QuicStreamSequencer.Readv | sequencer/quic_stream_sequencer.cc:192-207 | as the Readv of the buffer, entered in the history |
| Sequencers.QuicStreamSequencer.MarkConsumed | sequencer/quic_stream_sequencer.cc:221-232 | as the MarkConsumed of the buffer, entered in the history |
| Sequencers.QuicStreamSequencer.Read | sequencer/quic_stream_sequencer.cc:183-190 | all readable bytes, in order |
| Sequencers.QuicStreamSequencer.SetUnblocked | sequencer/quic_stream_sequencer.cc:238-243 | nothing readable is left behind; the application is told exactly if something is readable or the end is reached |
| Sequencers.QuicStreamSequencer.StopReading | sequencer/quic_stream_sequencer.cc:245-251 | what waits is discarded, and no more is handed on; the end is passed up at once if it is reached by that |
| Sequencers.QuicStreamSequencer.FlushBufferedFrames | sequencer/quic_stream_sequencer.cc:263-271 | nothing waits any more and the output is unchanged; the end is passed up if it is reached by that |
| Sequencers.QuicStreamSequencer.ClosedMeansDelivered | sequencer/quic_stream_sequencer.cc:217-219 | a closed sequencer that never discarded data has handed on every byte below the final offset, each the first received there |
| Sequencers.ClosedIsComplete | sequencer/quic_stream_sequencer.cc:146-165 | once everything up to the final offset was consumed and nothing discarded, the output has exactly the first byte received at every offset below it |
| Sequencers.ConsistentDrained | sequencer/quic_stream_sequencer.cc:88-113 | draining keeps the invariant and leaves nothing readable |
| Sequencers.DrainedIsDry | sequencer/quic_stream_sequencer.cc:183-190 | after everything readable was taken nothing is readable |
| ByteCodec.MasksAreThresholds | base/byte_codec.cc:221-235 | the bit masks are comparisons with 2^62, 2^30, 2^14 and 2^6 |
| ByteCodec.EncodingIs | base/byte_codec.cc:290-357 | the encodings byte by byte: network byte order with the length in the two top bits |
| ByteCodec.StandardExamples | base/byte_codec.cc:290-357 | examples of appendix A.1 of RFC 9000 |
| ByteCodec.VarInt62RoundTrip | base/byte_codec.cc:79-130 | reading what was written gives the number and stops exactly behind it, whatever follows |
| ByteCodec.EncodingsArePrefixFree | base/byte_codec.cc:290-357 | no encoding is the start of another one |
| ByteCodec.EncodingIsShortest | base/byte_codec.cc:221-235 | no readable encoding of a number is shorter than the one written |
| ByteCodec.ShortestIsUnique | base/byte_codec.cc:290-357 | what is read is the written encoding exactly if it is as long |
| ByteCodec.MoreBytesChangeNothing | base/byte_codec.cc:79-130 | a number that can be read stays the same when more bytes follow |
| ByteCodec.VarIntRoundTrip | base/byte_codec.cc:131-157 | below 2^56 reading what was written in base 128 gives the number back |
| ByteCodec.DigitsAre | base/byte_codec.cc:358-376 | the digits one by one: seven bits each, least significant first, with a continuation bit on all but the last |
| ByteCodec.VarIntLength | base/byte_codec.cc:236-256 | the announced length is the number of digits written, and exactly the numbers below 2^56 have one |
| ByteCodec.DataWriter.WriteVarInt62 | base/byte_codec.cc:290-357 | fails exactly without encoding or room, and then writes nothing; otherwise appends the encoding |
| ByteCodec.DataWriter.WriteVarInt | base/byte_codec.cc:358-376 | all digits are appended, or none |
| ByteCodec.DataWriter.WriteBytes | base/byte_codec.cc:377-386 | appends the bytes if there is room, otherwise nothing changes |
| ByteCodec.DataReader.ReadVarInt62 | base/byte_codec.cc:79-130 | reads the number and moves behind it, or leaves an incomplete one where it is |
| ByteCodec.DataReader.ReadVarInt | base/byte_codec.cc:131-157 | reads at most eight digits; an incomplete or longer number is left where it is |
| ByteCodec.DataReader.ReadBytes | base/byte_codec.cc:158-172 | reads the bytes, or uses up what is left if there are too few |
| Framing.IsDeliverable | tpproxy/mpproxy_types.cc:22-43 | reports the header exactly if there are as many bytes as the payload length and the recomputed, shortest lengths of both numbers add up to, and zeros otherwise; for headers in the shortest form that is the whole frame |
| Framing.HeaderIsRightIffShortest | tpproxy/mpproxy_types.cc:26-34 | the payload is found where it is exactly if both numbers are encoded in the shortest way |
| Framing.LongHeaderIsMisread | tpproxy/mpproxy_types.cc:26-34 | four bytes whose length is delivered as the payload |
| Framing.HeaderIsStable | tpproxy/mpproxy_types.cc:22-43 | a deliverable frame stays the same when more bytes arrive |
| Framing.FrameRoundTrip | tpproxy/mpproxy_types.cc:171-187 | a frame as SendData writes it is read back and ends where it was written to end |
| Framing.PartIsNotDeliverable | tpproxy/mpproxy_types.cc:22-43 | part of a written frame is never delivered |
| Framing.DeliverInTwo | tpproxy/mpproxy_types.cc:306-340 | delivering what has arrived and the rest later is delivering everything at once |
| Framing.ChunkingDoesNotMatter | tpproxy/mpproxy_types.cc:279-340 | any cut of the bytes into reads delivers the same frames and keeps the same bytes |
| Framing.PrefixDelivers | tpproxy/mpproxy_types.cc:306-340 | of a prefix of written frames exactly the complete ones are delivered, in order, and exactly the incomplete one is kept |
| Framing.FramesRoundTrip | tpproxy/mpproxy_types.cc:171-340 | once everything has arrived, however cut, exactly the written frames were delivered |
| Striping.SegmentsConserve | tpproxy/mpproxy_types.cc:592-602 | the pieces of a share are its bytes in order, without gap or overlap, and each length fits 16 bits |
| Striping.SharesAddUp | tpproxy/mpproxy_types.cc:555-581 | the shares add up to the buffer, and a path gets less than 1500 bytes only if nothing remains for later ones |
| Striping.SharesAreProportional | tpproxy/mpproxy_types.cc:541-581 | each path but the last one gets the part of what remains that its goodput is of the goodput of all, but at least 1500 bytes while there is so much; the last one gets the rest |
| Striping.SharesFollow | tpproxy/mpproxy_types.cc:563-581 | for any targets: a target of at least 1500 bytes is met as long as so much remains |
| Striping.SegmentsAreFull | tpproxy/mpproxy_types.cc:592-602 | every frame of a share but the last one has 65535 bytes |
| Striping.PlanConserves | tpproxy/mpproxy_types.cc:541-602 | for any parts of the bandwidth, the frames of all paths are the whole buffer in order with contiguous offsets |
| IntervalBudgets.SentIsBounded | tpproxy/mpproxy_types.cc:45-78 | over any run with rates of at least 24 kbps, no more is sent than was added to the budget plus 1499 bytes |
| IntervalBudgets.SentBetweenTicks | tpproxy/interval_budget.cc:22-36 | in any paced run, between two ticks no more is sent than the highest rate so far brings in the longest tick plus 1499 bytes, however long nothing was sent before |
| IntervalBudgets.TickIsAll | tpproxy/interval_budget.cc:22-31 | in any run, after a tick no more is left than the highest rate brings in that tick: unused budget is not carried over |
| IntervalBudgets.BoundHoldsExactly | tpproxy/interval_budget.cc:14-36 | the bound holds for all runs above a least rate exactly if that rate is at least 24 kbps |
| IntervalBudgets.BoundIsTight | tpproxy/interval_budget.cc:14-36 | a run that reaches the bound |
| IntervalBudgets.LowRateBreaksTheBound | tpproxy/interval_budget.cc:14-36 | for every lower positive rate a run that exceeds the bound |
| IntervalBudgets.StepStaysBalanced | tpproxy/interval_budget.cc:14-36 | each operation keeps the debt below one buffer and what is left below what was added but not sent |
| IntervalBudgets.IntervalBudget.SetTargetRateKbps | tpproxy/interval_budget.cc:14-20 | the new rate, a window of what it brings in 500 ms, and what remains clamped to it |
| IntervalBudgets.IntervalBudget.IncreaseBudget | tpproxy/interval_budget.cc:22-31 | without debt and without build-up what remains is the smaller of what the rate brings in the tick and in 500 ms; a debt is compensated first |
| IntervalBudgets.IntervalBudget.UseBudget | tpproxy/interval_budget.cc:33-36 | the bytes are taken off, down to the negative window |
| Sockets.SocketBase.FlushBuffer | tpproxy/mpproxy_types.cc:45-78 | the socket is offered the waiting bytes in order, at most 1500 at a time, until all is taken, the budget is used up, or it takes none; what it took and the buffer stay the same text |
| Sockets.SocketBase.WriteDataToFd | tpproxy/mpproxy_types.cc:507-533 | the data comes behind everything written before, or is dropped if there is no descriptor; something stays in the buffer only if the socket took less than it was offered last |
| Sockets.SocketBase.PacedWire | tpproxy/mpproxy_types.cc:259-278 | a paced socket has never taken more than was added to its budget plus 1499 bytes |
| Sockets.SocketBase.WithBudget | tpproxy/mpproxy_types.cc:140-161 | a connection starts with the budget of 10 ms and nothing to write |
| Mpproxy.TcpConnection.Append | tpproxy/mpproxy_types.cc:171-187 | the bytes come behind those that wait, and if the connection is up the buffer is flushed as FlushBuffer says |
| Mpproxy.TcpConnection.OnGoodputAlarm | tpproxy/mpproxy_types.cc:188-209 | the budget is filled at 1.25 times the goodput from then on, that counted as 500 kbps at least |
| Mpproxy.TcpConnection.SendData | tpproxy/mpproxy_types.cc:171-187 | exactly one encoded frame is appended to what the connection carries |
| Mpproxy.TcpConnection.WriteMessage | tpproxy/mpproxy_types.cc:238-258 | exactly one encoded frame at offset 0, type first, is appended |
| Mpproxy.TcpConnection.Deliver | tpproxy/mpproxy_types.cc:306-340 | the frames of the read buffer are handed on in order and exactly the rest is kept; the check for the session does not fail if it is known or META comes first |
| Mpproxy.TcpConnection.OnReadEvent | tpproxy/mpproxy_types.cc:279-305 | the same for what was kept followed by what arrived |
| Mpproxy.TpServer.RecvData | tpproxy/mpproxy_types.cc:385-399 | the frame goes to the sequencer at its stream position; it is accepted or refused as the sequencer answers for this stream and capacity, and what it yields goes to the socket |
| Mpproxy.TpServer.SendDataWithLimit | tpproxy/mpproxy_types.cc:592-602 | the connection gets the segments of the share, and the write offset advances by its length |
| Mpproxy.TpServer.WithRoom | tpproxy/mpproxy_types.cc:541-552 | exactly the ready connections with at most 15000 bytes waiting, in the order of the list, and the sum of their goodputs |
| Mpproxy.TpServer.constructor | sequencer/quic_stream_sequencer.cc:23-31 | nothing has been received yet, and the window is the given one |
| Mpproxy.TpServer.Schedule | tpproxy/mpproxy_types.cc:541-591 | exactly the ready connections with at most 15000 bytes waiting are scheduled on, in the order of the list; without any nothing happens; otherwise the buffer is emptied and each gets exactly its part of the plan, by its goodput |
| Mpproxy.TpServer.ShareOut | tpproxy/mpproxy_types.cc:555-590 | the loop over the connections: the targets are those of their goodputs, their frames are the plan for the shares, and no other connection is touched |
| Receivers.ReceivedAgrees | tpproxy/mpproxy_types.cc:385-399 | accepting a piece of the text keeps the output a prefix of it, and the receiver then has what it had and the offsets of the piece, no more and no less |
| Receivers.DispatchFeeds | tpproxy/mpproxy_types.cc:306-340 | with the real answers of the sequencer, every frame keeps the output a prefix, what waits within the window, and the intervals below the limit until something is refused |
| Receivers.SessionIsKnown | tpproxy/mpproxy_types.cc:318-325 | if META comes first, the check for the session never fails |
| Multipath.OutputIsPrefix | tpproxy/mpproxy_types.cc:306-602 | in every run the output is a prefix of what was scheduled, that is a prefix of what was read, and the check for the session never fails |
| Multipath.EverythingArrives | tpproxy/mpproxy_types.cc:306-602 | once all paths are quiet and no data was refused, the output is everything scheduled |
| Progress.EverythingCanArrive | tpproxy/mpproxy_types.cc:279-399 | from a state without refusal some sends and receives hand on everything scheduled if and only if there is room for the frame at the cursor, or there comes to be by delivering frames that join what waits; that is so whenever anything was read or fewer than 9999 intervals wait |
| Progress.CursorIsAccepted | sequencer/quic_stream_sequencer_buffer.cc:122-169 | the frame at the cursor is refused exactly if nothing was read, it touches nothing that waits, and one more interval is too many; then the run ends |
| Progress.PassIsAccepted | sequencer/quic_stream_sequencer_buffer.cc:122-169 | with 9999 intervals waiting and no room at the cursor the first frame of a path is accepted exactly if it lies within the window and joins something that waits |
| Progress.StuckRun | sequencer/quic_stream_sequencer_buffer.cc:122-169 | if room at the cursor cannot come to be, no sends and receives without a refusal ever hand anything on |
| Multipath.NothingIsRefused | tpproxy/mpproxy_types.cc:385-399 | in a run in which what is scheduled and not handed on always fits the window and fewer than 10000 frames of data are on their way nothing is refused, and once the paths are quiet everything scheduled is handed on |
| Overruns.FullWindowLoses | sequencer/quic_stream_sequencer_buffer.cc:122-127 | for every capacity below 2^62 - 1 a run, with scheduling as the proxy does it, with one byte more than the window in which a byte is refused, and no later run hands it on |
| Overruns.OneFrameOverruns | sequencer/quic_stream_sequencer_buffer.cc:122-127 | a window shorter than a frame is overrun by one frame |
| Overruns.TwoPathsOverrun | tpproxy/mpproxy_types.cc:541-602 | a longer window is overrun once the first path is above the threshold and the second one takes the rest and is received first |
| Fragments.TooManyFrames | sequencer/quic_stream_sequencer_buffer.cc:139-169 | a run inside the window that is refused for too many intervals with exactly 10000 frames of data on their way |
| Fragments.NothingCanArrive | sequencer/quic_stream_sequencer_buffer.cc:139-169 | a run inside the window, without refusal, to a state with nothing read and 9999 intervals waiting in which the frame at the cursor is one too many, and no later run, whatever is read and scheduled in it, ever hands anything on |
| HalfRounds.Rounds | tpproxy/mpproxy_types.cc:541-602 | by induction: each round that is shared out between two paths, of which only the second one is received, adds one interval and one frame on its way, and reads nothing |
| Stalls.BehindFrames | sequencer/quic_stream_sequencer_buffer.cc:139-169 | in such a state, frames behind all that was received are refused or make the last interval longer: the number of intervals stays at 9999 |
| HalfRounds.FarAnswer | sequencer/quic_stream_sequencer_buffer.cc:139-169 | a frame within the window that touches nothing received makes one interval more, and is refused exactly if that is the 10000th |
| Multipath.LostForGood | tpproxy/mpproxy_types.cc:171-187 | an offset that is neither received nor on a path stays so, and the output never reaches it |
| Arrangements.CountIsBounded | sequencer/quic_stream_sequencer_buffer.cc:139-146 | the received intervals are at most one more than the frames of data not delivered, because behind every gap such a frame ends |
| Arrangements.GainedCount | sequencer/quic_stream_sequencer_buffer.cc:139-146 | a frame of which nothing was received makes one interval more, less one for each side on which it touches what was received |
| Arrangements.CursorFrame | tpproxy/mpproxy_types.cc:541-602 | if something is missing, the frame that starts at the cursor is the first frame of data on its path |
| Arrangements.CursorAnswer | sequencer/quic_stream_sequencer_buffer.cc:122-169 | the exact answer to a frame that starts at the cursor |
| Arrangements.WriteArranges | tpproxy/mpproxy_types.cc:541-602 | writing the next bytes of the text to any path keeps each byte in exactly one place and each path in order |
| Arrangements.AdvanceArranges | tpproxy/mpproxy_types.cc:306-340 | so does receiving the first frame of any path |
| Multipath.StepKeeps | tpproxy/mpproxy_types.cc:171-602 | every step keeps the invariant of the session: paths intact, output a prefix, and until something is refused every byte received or on exactly one path |
| Paths.ReceiveKeepsIntact | tpproxy/mpproxy_types.cc:279-340 | a read delivers exactly the next written frames of its path |
| Paths.NextFrameAlone | tpproxy/mpproxy_types.cc:279-340 | a read of the right size delivers the next frame and no other |
| Arrangements.CarriedPieces | tpproxy/mpproxy_types.cc:541-602 | what scheduling writes are pieces of the longer text and cover exactly what is new |
| Handshakes.TcpConnectionRight.WriteMetaData | tpproxy/mpproxy_client.cc:221-236 | META becomes the first and only frame of the path |
| Handshakes.TpServerLeft.Notify | tpproxy/mpproxy_client.cc:40-97 | which paths wait and which are ready after each signal, in which order; every path waits, is ready, or has failed or been closed, exactly one of these; once the origin is reached no path that is up is kept waiting |
| Handshakes.TpServerLeft.OnWritable | tpproxy/mpproxy_client.cc:195-215 | a path that comes up sends META first and is ready at once if the origin is reached; until then it keeps waiting; no other path is disturbed |
| Handshakes.TpServerLeft.OnMessage | tpproxy/mpproxy_client.cc:237-254 | the first word that the origin is reached makes every waiting path that is up ready, the others keep waiting, and a later one changes nothing |
| Handshakes.TpServerLeft.Schedule | tpproxy/mpproxy_types.cc:541-591 | the ready list of the sender is the one that is scheduled on: exactly its paths with at most 15000 bytes waiting get data, by their goodput, every one of them has META as its first frame, and all paths keep it |
| Handshakes.TpServerBackend.CreateEndpoint | tpproxy/mpproxy_server.cc:203-206 | a new path belongs to no session, and all others stay attached |
| Handshakes.TpServerBackend.Find | tpproxy/mpproxy_server.cc:207-218 | the endpoint registered for the session, and null exactly if there is none |
| Handshakes.TpServerBackend.RegsiterSink | tpproxy/mpproxy_server.cc:219-236 | adds exactly one session; that it is not registered yet is required, because the source aborts otherwise |
| Handshakes.TpServerBackend.UnRegsiterSink | tpproxy/mpproxy_server.cc:237-254 | removes exactly one registered session, and its inner map with the last one; paths of other sessions stay attached; the source aborts if it is not registered |
| Handshakes.TpServerRight.Register | tpproxy/mpproxy_server.cc:132-146 | the path moves to the end of the list, or is added there |
| Handshakes.TcpConnectionLeft.ParseMessage | tpproxy/mpproxy_server.cc:61-100 | META attaches the path to the endpoint of the session it names, which is created with a window of 64 MiB and registered only if it is the first; all other paths stay attached; a path with number 0 is attached anew by a second META, and the endpoint from before keeps it in its list |
| Handshakes.TpServerBackend.OneEndpointPerSession | tpproxy/mpproxy_server.cc:80-97 | in every valid state two named paths have the same endpoint exactly if they were named for the same session; the new backend is valid, and accepting a path, its messages, and unregistering a session of which no path is left keep it so |
| Metas.MetaRoundTrip | tpproxy/mpproxy_client.cc:221-236 | the receiver reads the session and the address that the sender wrote |
| Metas.MetaIs | tpproxy/mpproxy_client.cc:221-236 | the message byte by byte: type, client, session, address and port in network byte order |
| Metas.PartOfMeta | tpproxy/mpproxy_server.cc:61-77 | a META message that ends early says what it holds, and 0 for the rest |
| Metas.ReadMeta | tpproxy/mpproxy_server.cc:61-77 | whether the message is META, and what it says, unread parts being 0 |
| Metas.NameIsFirstReal | tpproxy/mpproxy_server.cc:78-98 | of any list of messages the first META with a number other than 0 decides the session of the path |
| Metas.NameWithoutNumber | tpproxy/mpproxy_server.cc:78-98 | if there is none the last META does |
| Registries.RegisterThenUnregister | tpproxy/mpproxy_server.cc:219-254 | unregistering undoes registering, inner maps included |
| Registries.RegisterAddsOne | tpproxy/mpproxy_server.cc:219-236 | registering changes one session only |
| Registries.UnregisterRemovesOne | tpproxy/mpproxy_server.cc:237-254 | unregistering removes one session only, and no empty inner map is left |
| SessionRuns.EverySession | tpproxy/mpproxy_types.cc:318-325 | in every run of all sessions the check for the session and the check of the registration never fail, and the output of each session is a prefix of its own input |
| SessionRuns.EverySessionIsRun | tpproxy/mpproxy_types.cc:171-602 | each session by itself is a run of Multipath from its start, so what is proved of those runs holds of it |
| SessionRuns.MetaComesFirst | tpproxy/mpproxy_client.cc:195-236 | in every run META is the first frame on every path, every ready path is up and has it, and every path waits or is ready |
| SessionRuns.OneEndpointPerSession | tpproxy/mpproxy_server.cc:78-98 | in every run attached paths have the same endpoint exactly if they are of the same session, the endpoints are exactly those registered, each lists only paths of its own session to write back to, and hands on a prefix of the input of that session only |
| SessionProgress.SessionCanStart | tpproxy/mpproxy_client.cc:114-258 | for any client, any number of paths and any text whose frames fit the window there is a run from the start after which all paths of a new session are ready and its endpoint has handed on exactly the text |
| SessionProgress.AnySessionCanFinish | tpproxy/mpproxy_types.cc:171-602 | from any state of any run, a session in which nothing was refused and for which there is room at the cursor can come to a state in which all its paths are ready and its endpoint has handed on exactly what was read |
| SessionProgress.OriginIsHeard | tpproxy/mpproxy_server.cc:53-60 | if the endpoint of a path has reached its origin, sends and receives on the way back of that path alone make the origin connected for the session and the path ready |
| SessionProgress.AllBecomeReady | tpproxy/mpproxy_client.cc:40-75 | all paths of any session in which nothing was refused can come up and become ready, with nothing else of the session changed |
| SessionProgress.Lift | tpproxy/mpproxy_types.cc:171-399 | what a session can send and receive by itself it can among all others |
| SessionRuns.StepIsSeen | tpproxy/mpproxy_client.cc:40-75 | every step is, for each session, nothing or steps that Multipath allows; the guards on META and on which paths become ready there are met though no step asks for them |
| SessionSteps.HeardOnUp | tpproxy/mpproxy_client.cc:237-254 | whatever frame a read on the way back delivers, it comes over a path that is up |
| SessionSteps.AttachKeeps | tpproxy/mpproxy_server.cc:78-98 | the META message of a session attaches the path to the one endpoint of that session and concerns no other session |
| SessionSteps.NewKey | tpproxy/mpproxy_client.cc:255-259 | a new session has a key of its own, for which nothing is registered |
| WindowedFilters.BestIsSuffixMaximum | tpproxy/windowed_filter.h:83-139 | after any run the best estimate is the maximum of the samples from some point within the window on, and second and third follow it in value and time |
| WindowedFilters.RunsTrack | tpproxy/windowed_filter.h:83-131 | the three estimates are past samples, each at least as large as every later one, and the best is at most one window old |
| WindowedFilters.OthersAreRenewed | tpproxy/windowed_filter.h:117-130 | while the best holds, a second or third estimate equal to the one before is younger than a quarter or a half of the window |
| WindowedFilters.SurvivorsStay | tpproxy/windowed_filter.h:83-131 | the new estimates are the old ones that are above the sample and have not expired, followed by the sample; while the best one survives the others also give way when they are as good as the one before and older than a quarter or a half of the window, and for no other reason |
| WindowedFilters.SurvivorsOfRun | tpproxy/windowed_filter.h:83-131 | the same for every sample of a run |
| WindowedFilters.WindowMaximumCanBeMissed | tpproxy/windowed_filter.h:83-131 | three samples for which the maximum of the window is missed |
| WindowedFilters.BestIsWindowMaximum | tpproxy/windowed_filter.h:83-139 | after an update the best estimate is the maximum of the window if and only if the sample is a largest one of the window or one of the three estimates from before is |
| WindowedFilters.ResetMakesWindowMaximum | tpproxy/windowed_filter.h:83-139 | if a largest sample of the window took the branch of Reset when it arrived, the best estimate is the maximum of the window |
| WindowedFilters.WindowedFilter.Update | tpproxy/windowed_filter.h:83-137 | the array holds the estimates of the history with the new sample |
| WindowedFilters.WindowedFilter.GetBest | tpproxy/windowed_filter.h:139 | the maximum of the samples from some point within the window on |
| AlarmRounds.SimpleEpollServer.CallAndReregisterAlarmEvents | base/simple_epoll_server.cc:728-771 | the loop ends, calls exactly the due alarms in order, and leaves the others with those that asked to come back; an alarm re-armed in the past is not called again |
| AlarmRounds.RoundMeans | base/simple_epoll_server.cc:728-771 | the due alarms are the expired ones, each once and by deadline; afterwards an expired entry is one that came back in this round |
| AlarmRounds.NextIsDue | base/simple_epoll_server.cc:735-754 | an expired entry under the iterator that was not re-armed in this round is the next one to be called |
| AlarmRounds.InsertIntoParts | base/simple_epoll_server.cc:443-455 | re-arming leaves the alarms still to be called alone |
| AlarmRounds.SimpleEpollServer.RegisterAlarm | base/simple_epoll_server.cc:443-455 | the alarm comes behind those with the same deadline, and the set of callbacks stays that of the map |
| AlarmRounds.SimpleEpollServer.UnregisterAlarm | base/simple_epoll_server.cc:459-465 | entry and callback are gone, everything else stays |
| AlarmRounds.SimpleEpollServer.ReregisterAlarm | base/simple_epoll_server.cc:467-473 | the entry moves to its new deadline |

## Left out

- SequencerBuffers.SequencerBuffer.OnStreamData: after QUIC_TOO_MANY_STREAM_DATA_INTERVALS the source has recorded bytes
  it did not copy; nothing is claimed about the buffer after that result, and in `Multipath` it ends the run.
- SequencerBuffers.SequencerBuffer.PeekRegion: shows the right bytes only under the guard of `PeekIsExact`, because the
  source does.
- Progress.EverythingCanArrive: every frame of the text fits the window, and the capacity is below 2^64 - 2^62; what is
  read or scheduled later is not part of the runs it speaks of.
- SessionProgress.AnySessionCanFinish: the same, and the text has offsets for all its bytes; that there is room at the
  cursor is sufficient, and `Progress` says what is necessary.
- Multipath.NothingIsRefused: the capacity is below 2^64 - 2^62, so that the window does not wrap; the proxy uses 2^26.
- Mpproxy.TcpConnection.Deliver: the endpoint that a META message names is a parameter; looking it up is in
  `Handshakes.TcpConnectionLeft.ParseMessage`, and both together are the steps of `Sessions`.
- Mpproxy.TcpConnection.OnReadEvent: the same.
- Metas.ReadMeta: an address that is missing counts as 0; the source leaves it uninitialised.
- SessionRuns.EverySession: sockets and connects succeed and sessions live on, clients have different numbers, and a
  session sends in one direction. On the way back only the word that the origin is reached travels; data in that
  direction is `Multipath` with paths that know their session.
- WindowedFilters.WindowedFilter.GetBest: is not always the maximum of the whole window, because the source's is not;
  samples are natural numbers and the window length is fixed.
- Growing the block array on demand: `allocate_blocks_on_demand_` is always false here, so that code is dead.
- `MarkConsumed` and `Readv` report to `AddBytesConsumed` and `Reset` of the stream, which do nothing in the proxy.
- Sockets, epoll, threads, clocks and logging: `send` takes an arbitrary part of what is offered, reads bring arbitrary
  chunks, times and rates are inputs, and a callback's answer to an alarm is a function of the callback.
- Striping.SharesAreProportional: the source adds up bits per second and computes the part in floating point; here
  goodputs are whole kbps and the part is exact and truncated, so shares can differ by rounding. The goodput itself is
  an input, and in `Multipath` and `Sessions` the targets are arbitrary.
- `std::set` and `std::multimap` are sequences in their order with positions for iterators; interval ends are unbounded
  integers; a `QuicInterval` is a value.
- Closing and deleting sockets and entities (`io_status_`, `CheckCloseFd`, `PostTask`), and the alarms that drive
  `Schedule` and the budgets.
- The class `TcpConnectionLeft` does not write the word that the origin is reached; in `Sessions` the endpoint does,
  and what `TpServerLeft` does with it is `OnMessage`. The address in META is written and read but not connected to.
- Comparing whole interval sets by containment or intersection, printing, and the variants of `Difference` on one
  interval.
- The dash adaptation algorithms, octopus and hen, and the vendored utilities.
