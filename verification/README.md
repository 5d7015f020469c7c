# Wire codecs of ylong_http, modelled in Dafny

This project models the resumable wire codecs of ylong_http and two of its look-up structures, and proves
that they give the same answer however their octets are cut, that what one side writes the other side
reads, and that their fast forms agree with their simple ones.

- **HTTP/2 frames** (`H2*.dfy`). `H2Decoder` is the frame decoder, `H2Segments`, `H2Lock` and `H2Reach` are
  what holds over whole runs of it: independence of segmentation, the rule that nothing may come between
  HEADERS and its CONTINUATION frames, and when it panics; `H2Padding` is about padded payloads. `H2Format`,
  `H2SettingsFormat`, `H2BlockFormat` and `H2WireFormat` say what the octets of each frame mean, by number. `H2Wire`,
  `H2Encoder` and `H2FrameEncoder` are the frame encoder: `Pending` is what it still has to write, and every
  step writes a prefix of it. `H2Control` is what becomes of control frames that do not fit one buffer, right
  or wrong, `H2WindowUpdate` which single increments survive that, and `H2Calls` offers one buffer after the other. `H2HeadersEndToEnd`, `H2FramesEndToEnd` and
  `H2EndToEnd` put the two sides together.
- **Chunked bodies** (`Chunk*.dfy`). `ChunkAutomaton` reads a body octet by octet; `ChunkGrammar` says, in
  terms of its own, which inputs it accepts, both ways, and when it gives up; `ChunkDecoder` is the decoder of the source, proved against the automaton.
  `ChunkWire` prints a body, `ChunkEncoder` and `ChunkBody` write it through the caller's buffers,
  `ChunkCalls` is about call after call, for sources with a last chunk and without one, and
  `ChunkRoundTrip` puts the two sides together.
- **HTTP/3 streams** (`Varint.dfy`, `H3*.dfy`). Variable-length integers, one stream, which frames it can
  deliver, many streams side by side, SETTINGS, and the encoder for all frames but HEADERS. `H3Format`,
  `H3SettingsFormat` and `H3WireFormat` say what the numbers on the wire mean.
- **The header map** (`HeaderMap.dfy`) with its two unchecked operations, and **the probe table**
  (`ProbeTable.dfy`) of the TLS tracing tool, which is a finite map without deletion. `HeaderHistory` and
  `ProbeHistory` tell what they answer from the calls alone.

Stateful code is modelled by classes whose methods update fields, sequences, maps and arrays as the source
does. Each class has a value-level counterpart, a state and functions that say what one call does to it;
the methods are proved against those functions, and the theorems are about them. Integers are unbounded;
widths are written out where they matter (63-bit chunk sizes, 31-bit stream identifiers, 62-bit
variable-length integers). HPACK is any deterministic decoder on one side and a queue of octets on the
other. A Rust panic is the outcome `Panic`, or `None` for the encoder; a subtraction below zero is one, as in
builds that check arithmetic. A reader is the sequence of what its calls deliver.

## Where the code departs from its documents

Each of these is stated about the code as it is. Where an expected property fails, the condition under
which it holds is proved to be exact.

- A PRIORITY payload that arrives in two parts is refused (`H2Segments.CutIsInvisibleIff`).
- CONTINUATION without an open block is not refused, although section 6.10 of RFC 9113 asks for it: HPACK
  decides (`H2Lock.StrayAcceptedIff`), and with END_HEADERS a frame on stream 0 is reported
  (`H2Lock.StrayContinuation`).
- An empty PADDED frame of HEADERS or PUSH_PROMISE makes the decoder panic, and, HPACK aside, nothing else
  does (`H2Reach.PanicsIff`).
- DATA longer than one frame starts over at the first octet in every frame
  (`H2FramesEndToEnd.DataComesBackIff`), and with the PADDED flag it is written without padding, so that the
  decoder takes an octet of data for the padding length (`H2FramesEndToEnd.PaddedDecodes`).
- HEADERS with the PADDED or PRIORITY flag is written without the fields these flags announce
  (`H2HeadersEndToEnd.HeadersArriveIff`).
- SETTINGS, PING and RST_STREAM headers and WINDOW_UPDATE payloads cannot be picked up in the middle: octets
  are wrong, or the encoder panics (`H2Control.DeliveredIff`, `H2Control.WindowUpdateDeliveredIff`, and for a
  single increment `H2WindowUpdate.WindowUpdateSurvivesIff`).
- The size token of the last chunk starts over when a buffer ends inside it (`ChunkRoundTrip.EncodeAll`), a
  short read is taken for the last one (`ChunkRoundTrip.AllIsSentIff`), a slice of 2048 octets or more is
  never finished (`ChunkCalls.SliceEndsIff`), a body whose length is a multiple of 1024 ends in two closing
  chunks, and trailer fields end the body early or make a decoder that does not expect them refuse it
  (`ChunkRoundTrip.RoundTrip`).
- A chunk size without any digit stands for zero (`ChunkGrammar.AcceptsExactlyBodies`).
- Header names may have four octets that section 5.1 of RFC 9110 does not allow (`HeaderMap.AcceptedOctets`).
- An HTTP/3 SETTINGS payload is not skipped when something follows it (`H3Settings.SettingsSkippedIff`), which
  is why a cut behind it is noticed (`H3Stream.CutsAreInvisibleIff`).
- Of the HTTP/3 frames CANCEL_PUSH, GOAWAY and MAX_PUSH_ID the encoder counts one octet less than it writes
  (`H3Encoder.SendVariable`), and the decoder refuses the last of them on every stream
  (`H3Encoder.MaxPushIdIsRefused`).

## Model

| member | source | states |
|---|---|---|
| `H2Decoder.FrameDecoder.Decode` | ylong_http/src/h2/decoder.rs:349-376 | one call reports exactly the frames, the error or the panic of `Run`, and leaves the decoder in the state of `Run`, for every state and every input |
| `H2Decoder.FrameDecoder.DecodeFrameHeader` | ylong_http/src/h2/decoder.rs:796-831 | nine octets, collected over any number of calls, become a header; a length above the limit is FRAME_SIZE_ERROR |
| `H2Decoder.FrameDecoder.DecodeFramePayload` | ylong_http/src/h2/decoder.rs:378-419 | a payload is collected, decoded by type and reported; a frame that an open field block does not allow is PROTOCOL_ERROR before anything of it is kept |
| `H2Decoder.FrameDecoder.DecodeByType` | ylong_http/src/h2/decoder.rs:397-411 | a whole payload is decoded by the type of its frame; HPACK and the open block change as `DecodeFrame` says |
| `H2Decoder.FrameDecoder.DecodeTokens` | ylong_http/src/h2/decoder.rs:580-585 | the loop over six-octet tokens computes the recursive `ParseSettings`, errors included |
| `H2Decoder.FrameDecoder.DecodeHeadersPayload` | ylong_http/src/h2/decoder.rs:675-731 | bounds behind padding and priority, HPACK on the fragment, then a frame or an open block |
| `H2Decoder.FrameDecoder.DecodePushPromisePayload` | ylong_http/src/h2/decoder.rs:733-794 | the promised identifier is read and must not be zero; HPACK is given the whole payload |
| `H2Decoder.FrameDecoder.DecodeContinuationPayload` | ylong_http/src/h2/decoder.rs:636-673 | with END_HEADERS the completed frame carries the opener's stream, flags and kind, and all continuation fields are reset |
| `H2Decoder.FrameDecoder.DecodeSettingsPayload` | ylong_http/src/h2/decoder.rs:554-592 | stream, length and acknowledgement are examined in this order before any setting is read |
| `H2Decoder.FrameDecoder.JoinFragment` | ylong_http/src/h2/decoder.rs:421-434 | a fragment is joined to what was kept of the payload before |
| `H2Decoder.FrameDecoder.SetMaxFrameSize` | ylong_http/src/h2/decoder.rs:321-327 | accepts exactly the limits from 16384 to 16777215 |
| `H2Decoder.FragmentBounds` | ylong_http/src/h2/decoder.rs:689-713 | the bounds lie within the payload, behind the priority fields and the padding length |
| `H2Decoder.HeaderSettles` | ylong_http/src/h2/decoder.rs:796-831 | a step on a header leaves fewer than nine octets in the buffer, or less to do |
| `H2Decoder.PayloadSettles` | ylong_http/src/h2/decoder.rs:378-419 | a step on a payload leaves fewer octets in the buffer than the payload has, or less to do |
| `H2Segments.HeaderResumes` | ylong_http/src/h2/decoder.rs:796-831 | a header that was cut is parsed as if it had arrived at once |
| `H2Segments.LastFragment` | ylong_http/src/h2/decoder.rs:445-473 | PRIORITY is the only frame whose decoding depends on the length of its last fragment |
| `H2Segments.PayloadResumes` | ylong_http/src/h2/decoder.rs:378-419 | a payload that was cut is decoded as if it had arrived at once, unless it is a PRIORITY payload |
| `H2Segments.CutIsInvisible` | ylong_http/src/h2/decoder.rs:349-419 | decode(a) then decode(b) reports, fails and ends as decode(a + b) does, from every state, unless a is the first to stop inside a PRIORITY payload |
| `H2Segments.JoinedPriority` | ylong_http/src/h2/decoder.rs:445-473 | a PRIORITY payload that arrives at once is accepted |
| `H2Segments.SplitPriority` | ylong_http/src/h2/decoder.rs:445-473 | the same payload arriving in two parts is a FRAME_SIZE_ERROR on the stream |
| `H2Segments.AlreadyCut` | ylong_http/src/h2/decoder.rs:445-473 | a PRIORITY payload that was cut before is refused either way, so further cuts are not noticed |
| `H2Segments.CutIsInvisibleIff` | ylong_http/src/h2/decoder.rs:445-473 | from every settled state, a cut can never be noticed if and only if it does not stop inside a PRIORITY payload that was not cut before |
| `H2Segments.SegmentsAreInvisible` | ylong_http/src/h2/decoder.rs:349-419 | the same for any number of segments, none of which is the first to stop inside a PRIORITY payload |
| `H2Reach.NotMetAnyCuts` | ylong_http/src/h2/decoder.rs:349-419 | octets that lead to no PRIORITY frame may be cut anywhere: reports, failures and panics are those of one call |
| `H2Reach.NoPriorityAnyCuts` | ylong_http/src/h2/decoder.rs:349-419 | a successful run without PRIORITY frames may be cut anywhere |
| `H2Reach.SomeCutShows` | ylong_http/src/h2/decoder.rs:445-473 | an input whose first segment ends inside a PRIORITY payload |
| `H2Reach.FramePanicsIff` | ylong_http/src/h2/decoder.rs:689-713 | one frame panics if and only if it is an empty PADDED frame of HEADERS or PUSH_PROMISE on a stream other than 0 |
| `H2Reach.PanicsIff` | ylong_http/src/h2/decoder.rs:689-713 | if HPACK never panics, a run panics if and only if it gets to such a frame and the lock lets it through |
| `H2Reach.NineOctetsPanic` | ylong_http/src/h2/decoder.rs:689-713 | nine octets make a new decoder panic, with every HPACK and on every stream |
| `H2Lock.FrameFollows` | ylong_http/src/h2/decoder.rs:384-389 | every frame that is decoded respects the lock, and changes what is remembered as the lock prescribes |
| `H2Lock.SegmentsFollow` | ylong_http/src/h2/decoder.rs:349-419 | so does every run, however the input is cut |
| `H2Lock.LockInvKept` | ylong_http/src/h2/decoder.rs:269-288 | in every reachable state a closed block means that all continuation fields are reset |
| `H2Lock.OpenBlockIsLocked` | ylong_http/src/h2/decoder.rs:384-389 | between an opener and the end of its block there are only CONTINUATION frames of its stream |
| `H2Lock.OpenIffOpened` | ylong_http/src/h2/decoder.rs:719-722 | a block is open at the end if and only if an opener was not closed |
| `H2Lock.StrayContinuation` | ylong_http/src/h2/decoder.rs:636-673 | over any run, a CONTINUATION of a block nobody opened is reported as a header list on stream 0 with no flags if it has END_HEADERS and as a partial frame otherwise, and no block is open behind it |
| `H2Lock.StrayAcceptedIff` | ylong_http/src/h2/decoder.rs:636-673 | between two frames with no block open, a CONTINUATION frame on any stream is accepted if and only if HPACK accepts its fragment; then nothing but HPACK has changed |
| `H2Lock.ContinuationLock` | ylong_http/src/h2/decoder.rs:636-673 | all of this over whole runs of a new decoder: exclusiveness, the opener's identity on the completed frame, reset fields, and stray CONTINUATION frames |
| `H2Padding.PaddedDataDecodes` | ylong_http/src/h2/decoder.rs:594-634 | the padding of DATA is taken off, whatever it consists of |
| `H2Padding.PaddedDataRefusedIff` | ylong_http/src/h2/decoder.rs:594-634 | padded DATA is refused if and only if the padding is longer than what is there for it; otherwise it is read as it was laid out |
| `H2Padding.HeadersFragmentFed` | ylong_http/src/h2/decoder.rs:675-731 | HEADERS with padding, priority fields, both or neither feeds HPACK exactly the fragment |
| `H2Padding.PromisedIdFound` | ylong_http/src/h2/decoder.rs:771-794 | the promised stream is found, with padding and without |
| `H2Format.HeaderOctets` | ylong_http/src/h2/encoder.rs:563-602 | length, type, flags and stream are nine octets, most significant first |
| `H2Format.LengthIsLimited` | ylong_http/src/h2/decoder.rs:811-813 | a length above the limit is FRAME_SIZE_ERROR as soon as the header is there, whatever the frame is; a length within it is awaited |
| `H2Format.NewDecoderLimit` | ylong_http/src/h2/decoder.rs:811-813 | the limit of a new decoder is 16384 octets |
| `H2Format.DataFormat` | ylong_http/src/h2/decoder.rs:594-634 | type 0, in octets: which frames are refused, and what the others report with and without PADDED |
| `H2Format.PriorityFormat` | ylong_http/src/h2/decoder.rs:445-473 | type 2, in octets: which error, and the exclusive bit, the dependency and the weight |
| `H2Format.ResetFormat` | ylong_http/src/h2/decoder.rs:530-552 | type 3, in octets: which error, and the error code |
| `H2Format.PingFormat` | ylong_http/src/h2/decoder.rs:421-443 | type 6, in octets: which error, and the opaque data |
| `H2Format.GoawayFormat` | ylong_http/src/h2/decoder.rs:475-499 | type 7, in octets: which error, and the last stream in front of the error code |
| `H2Format.WindowUpdateFormat` | ylong_http/src/h2/decoder.rs:501-527 | type 8, in octets: which error, and the increment |
| `H2Format.UnknownFormat` | ylong_http/src/h2/decoder.rs:397-411 | frames of any other type are refused |
| `H2SettingsFormat.SettingsFormat` | ylong_http/src/h2/decoder.rs:554-592 | type 4, in octets: refused if and only if it is not well framed or some setting has an illegal value, the first of which decides on the error; otherwise the settings with identifiers 1 to 6 are reported, in their order |
| `H2SettingsFormat.UnknownIsSkipped` | ylong_http/src/h2/decoder.rs:852-885 | a setting with any other identifier, put in anywhere, changes nothing a caller can see |
| `H2BlockFormat.HeadersFormat` | ylong_http/src/h2/decoder.rs:675-731 | type 1, in octets: what HPACK is fed behind padding length and priority, and the frame or the open block that comes of it |
| `H2BlockFormat.BlockRefused` | ylong_http/src/h2/decoder.rs:689-713 | HEADERS and PUSH_PROMISE on stream 0, or with more announced than the payload holds, are refused |
| `H2BlockFormat.PushPromiseFormat` | ylong_http/src/h2/decoder.rs:733-794 | type 5, in octets: the promised stream on the frame that is reported, and HPACK on the whole payload |
| `H2BlockFormat.ContinuationFormat` | ylong_http/src/h2/decoder.rs:636-673 | type 9, in octets: within an open block nothing else is accepted, and what closes the block is reported as the frame that opened it |
| `H2Frame.ClearEndHeadersOnly` | ylong_http/src/h2/encoder.rs:446-453 | masking END_HEADERS leaves the other flags alone |
| `H2Frame.ClearEndStreamOnly` | ylong_http/src/h2/encoder.rs:583-590 | masking END_STREAM leaves the other flags alone |
| `H2Wire.SettingsByteCorrect` | ylong_http/src/h2/encoder.rs:941-978 | the octet computed from an index is that octet of the SETTINGS payload, for lists of any length |
| `H2Wire.ControlByteCorrect` | ylong_http/src/h2/encoder.rs:735-766 | the same for every control payload |
| `H2Wire.WriteHeader` | ylong_http/src/h2/encoder.rs:563-602 | any part of a header, wherever it starts, is written to the buffer and nothing else is |
| `H2Wire.WriteControlPayload` | ylong_http/src/h2/encoder.rs:941-978 | any part of a control payload is written to the buffer and nothing else is |
| `H2WireFormat.HeadersWireFormat` | ylong_http/src/h2/encoder.rs:426-465 | a field block goes out in one HEADERS frame of up to 16384 octets; END_HEADERS is masked if that does not hold it |
| `H2WireFormat.ContinuationWireFormat` | ylong_http/src/h2/encoder.rs:486-530 | the rest goes out in CONTINUATION frames of 16384 octets; the last has END_HEADERS and no frame has any other flag |
| `H2WireFormat.ControlWireFormat` | ylong_http/src/h2/encoder.rs:859-920 | type, length, flags and stream of every control frame; SETTINGS and PING go out on stream 0 |
| `H2Control.WriteStreamZeroHeader` | ylong_http/src/h2/encoder.rs:885-920 | what the SETTINGS and PING header loop leaves in the buffer when it is entered at any octet, and when it panics |
| `H2Control.WriteResetHeader` | ylong_http/src/h2/encoder.rs:1094-1132 | the same for the RST_STREAM header loop |
| `H2Control.WriteControlHeader` | ylong_http/src/h2/encoder.rs:859-883 | the header of a control frame, by the loop of its type |
| `H2Control.WritePayload` | ylong_http/src/h2/encoder.rs:832-857 | where the payload of a control frame is picked up, how much of it is written, and when the frame counts as sent |
| `H2Control.CallGoesOn` | ylong_http/src/h2/encoder.rs:768-978 | from a state that resumes, a call writes as much of the rest of the frame as the buffer takes |
| `H2Control.ClearIsOnTrack` | ylong_http/src/h2/encoder.rs:768-978 | if no buffer ends behind a forbidden octet, call after call writes the frame, as much of it as there is room for |
| `H2Control.StreamZeroHole` | ylong_http/src/h2/encoder.rs:895-911 | a SETTINGS or PING header picked up at octets 1 to 4 leaves one octet of its buffer as it was |
| `H2Control.ResetPanics` | ylong_http/src/h2/encoder.rs:1115-1118 | an RST_STREAM header picked up behind its first octet panics at its first stream octet |
| `H2Control.NextAstray` | ylong_http/src/h2/encoder.rs:832-857 | once a buffer ended behind a forbidden octet the frame is never right again: it panics, has a wrong octet, or is not finished |
| `H2Control.DeliveredIff` | ylong_http/src/h2/encoder.rs:1189-1225 | for every control frame but WINDOW_UPDATE and all sizes with enough room: the octets written are the frame, whatever the buffers held before, if and only if no buffer ends behind octets 1 to 4 of SETTINGS or PING or octets 1 to 8 of RST_STREAM |
| `H2Control.WindowUpdateDeliveredIff` | ylong_http/src/h2/encoder.rs:832-857 | WINDOW_UPDATE frames get through buffers of these sizes, for every increment, if and only if no buffer ends behind octets 10 to 12 |
| `H2WindowUpdate.WindowUpdateSurvivesIff` | ylong_http/src/h2/encoder.rs:832-857 | a single WINDOW_UPDATE frame gets through buffers of these sizes if and only if each buffer that starts behind octets 10 to 12 ends with the payload at the latest, and the octets due in it are the first octets of the increment |
| `H2WindowUpdate.SurvivesOrSpoiled` | ylong_http/src/h2/encoder.rs:832-857 | call after call: as long as this holds the octets are the frame, as many as there is room for; once it does not, they are wrong or too many for ever |
| `H2WindowUpdate.HalvesSurvive` | ylong_http/src/h2/encoder.rs:832-857 | an increment with two equal halves survives being cut between them |
| `H2Encoder.StepConserves` | ylong_http/src/h2/encoder.rs:184-331 | every step of every state of HEADERS and DATA emits a prefix of what is pending and leaves the rest pending: nothing is lost, repeated or reordered |
| `H2Encoder.StepProgress` | ylong_http/src/h2/encoder.rs:184-331 | a step that leaves the state as it is has filled the buffer or waits in front of a CONTINUATION frame |
| `H2Encoder.StepDraws` | ylong_http/src/h2/encoder.rs:411-424 | a step that stops in front of a further CONTINUATION frame has taken its fragment from HPACK |
| `H2Encoder.ControlAdvances` | ylong_http/src/h2/encoder.rs:184-331 | a call for a control frame that resumes moves the front of what is pending; the frame still resumes if and only if the buffer did not end behind a forbidden octet |
| `H2Encoder.StatusConserves` | ylong_http/src/h2/encoder.rs:411-424 | after a fragment, what is pending is the rest of it, the next CONTINUATION frames or nothing |
| `H2Encoder.HeadersFrameConserves` | ylong_http/src/h2/encoder.rs:381-465 | the HEADERS step, which writes header and payload in one go |
| `H2Encoder.ContinuationConserves` | ylong_http/src/h2/encoder.rs:486-530 | the CONTINUATION step, which writes a header whole or not at all |
| `H2Encoder.EmitDataConserves` | ylong_http/src/h2/encoder.rs:604-626 | the DATA payload step, across the end of a frame |
| `H2Encoder.StartPends` | ylong_http/src/h2/encoder.rs:136-178 | a frame that is set is pending as a whole, as HEADERS and CONTINUATION frames, DATA frames or one control frame |
| `H2FrameEncoder.FrameEncoder.constructor` | ylong_http/src/h2/encoder.rs:115-132 | a new encoder has nothing pending |
| `H2FrameEncoder.FrameEncoder.SetFrame` | ylong_http/src/h2/encoder.rs:136-178 | sets the fields for the frame; HEADERS without END_HEADERS is refused |
| `H2FrameEncoder.FrameEncoder.Encode` | ylong_http/src/h2/encoder.rs:184-331 | moves a prefix of what is pending to the buffer and touches nothing else; stops early only in front of CONTINUATION; nine octets always suffice to go on; a control frame that does not resume is written, right or wrong, or panics, as `CallOn` says |
| `H2FrameEncoder.FrameEncoder.EncodeMessage` | ylong_http/src/h2/encoder.rs:184-331 | the loop over the states of HEADERS and DATA |
| `H2FrameEncoder.FrameEncoder.EncodeControl` | ylong_http/src/h2/encoder.rs:184-331 | the loop over the states of a control frame, from every state it can be in |
| `H2FrameEncoder.FrameEncoder.EncodeHeadersFrame` | ylong_http/src/h2/encoder.rs:381-409 | refines the HEADERS step |
| `H2FrameEncoder.FrameEncoder.EncodeHeadersPayload` | ylong_http/src/h2/encoder.rs:467-484 | refines the fragment step |
| `H2FrameEncoder.FrameEncoder.HeadersHeaderStatus` | ylong_http/src/h2/encoder.rs:411-424 | refines the step from one fragment to the next |
| `H2FrameEncoder.FrameEncoder.EncodeContinuationFrames` | ylong_http/src/h2/encoder.rs:486-530 | refines the CONTINUATION step |
| `H2FrameEncoder.FrameEncoder.EncodeDataHeader` | ylong_http/src/h2/encoder.rs:532-602 | refines the DATA header step |
| `H2FrameEncoder.FrameEncoder.EncodeDataPayload` | ylong_http/src/h2/encoder.rs:604-626 | refines the DATA payload step |
| `H2FrameEncoder.FrameEncoder.EncodeControlFrame` | ylong_http/src/h2/encoder.rs:859-883 | refines the header part of a call, panics included |
| `H2FrameEncoder.FrameEncoder.EncodeControlPayload` | ylong_http/src/h2/encoder.rs:922-939 | refines the payload part of a call |
| `H2Calls.EncodeAll` | ylong_http/src/h2/encoder.rs:184-331 | over any sequence of buffers the output is a prefix of what was pending; if no CONTINUATION frame is left, as long as there is room, whatever the sizes; with CONTINUATION frames it is all, once the buffers of nine octets or more have room for it and for one largest buffer for each of these frames, or there are enough buffers of a least size with one more for each of them |
| `H2Calls.WriteControl` | ylong_http/src/h2/encoder.rs:184-331 | a control frame through buffers of any contents and sizes: the octets, or the panic, that `Calls` says |
| `H2Boundary.HeaderParses` | ylong_http/src/h2/decoder.rs:796-831 | the header octets of the encoder parse to their fields |
| `H2Boundary.FrameDecodes` | ylong_http/src/h2/decoder.rs:349-419 | a whole frame at a frame boundary is decoded by type, and decoding goes on behind it |
| `H2HeadersEndToEnd.ContinuationsDecode` | ylong_http/src/h2/decoder.rs:636-673 | the CONTINUATION frames of the encoder feed HPACK the rest of the block |
| `H2HeadersEndToEnd.HeadersArrive` | ylong_http/src/h2/encoder.rs:381-530 | every field block, of any length, arrives as zero or more partial reports and one header list on its stream with its END_STREAM bit; END_HEADERS is on the last frame only; HPACK is fed exactly the block |
| `H2HeadersEndToEnd.HeadersArriveInSegments` | ylong_http/src/h2/decoder.rs:349-419 | the same in any segmentation, failures of HPACK included |
| `H2HeadersEndToEnd.FlaggedHeadersLoseOctets` | ylong_http/src/h2/decoder.rs:689-713 | with PADDED or PRIORITY in the flags HPACK is fed fewer octets than the block has |
| `H2HeadersEndToEnd.HeadersArriveIff` | ylong_http/src/h2/encoder.rs:426-465 | HPACK is fed exactly the block if and only if neither PADDED nor PRIORITY is set |
| `H2EndToEnd.SendHeaders` | ylong_http/src/h2/encoder.rs:136-331 | encoder, any buffers at all with enough room for a block of one frame and with the room that `EncodeAll` asks for otherwise, any segments, decoder: one header list, the one that was sent, or the failure of HPACK |
| `H2EndToEnd.SendData` | ylong_http/src/h2/encoder.rs:136-331 | encoder, any buffers with enough room, any segments, decoder: the outcome of `DataArrives`, padded or not; the data itself if and only if it is empty, or not padded and periodic |
| `H2EndToEnd.SendControl` | ylong_http/src/h2/encoder.rs:136-331 | encoder, buffers none of which ends behind a forbidden octet, any segments, decoder: the frame as it was sent, if and only if it is deliverable; PRIORITY in one segment |
| `H2FramesEndToEnd.PaddedDecodes` | ylong_http/src/h2/decoder.rs:611-625 | with PADDED set, the DATA frames of the encoder are refused if and only if the first octet of the data is not below the length of the last frame; otherwise each is reported without its first octet and without as many octets at its end as that octet says |
| `H2FramesEndToEnd.DataWireDecodes` | ylong_http/src/h2/decoder.rs:594-634 | the DATA frames of the encoder are decoded one by one, padded or not |
| `H2FramesEndToEnd.DataAnyCuts` | ylong_http/src/h2/decoder.rs:349-419 | they may be cut anywhere, refused or not |
| `H2FramesEndToEnd.DataItemsCount` | ylong_http/src/h2/encoder.rs:532-561 | just as many frames as the size needs, and nine octets for each besides the data |
| `H2FramesEndToEnd.DataItemsWellSplit` | ylong_http/src/h2/encoder.rs:563-602 | no frame is longer than the limit, each length field is that of its payload, END_STREAM is on the last frame only |
| `H2FramesEndToEnd.DataItemsContent` | ylong_http/src/h2/encoder.rs:1254-1261 | octet i of what is sent is octet i modulo the frame size of the data, and the lengths add up |
| `H2FramesEndToEnd.DataArrives` | ylong_http/src/h2/decoder.rs:594-634 | what the decoder makes of the DATA frames of the encoder, in any segmentation; the frames are as many as needed, well split, and hold the octets as `DataItemsContent` says |
| `H2FramesEndToEnd.DataArrivesIff` | ylong_http/src/h2/encoder.rs:616-620 | the data arrives unchanged if and only if it repeats itself with the frame size as period; always if it fits one frame |
| `H2FramesEndToEnd.UnpadLoses` | ylong_http/src/h2/decoder.rs:613-622 | with PADDED in the flags, DATA that is accepted reports fewer octets than were sent |
| `H2FramesEndToEnd.DataComesBackIff` | ylong_http/src/h2/decoder.rs:594-634 | data comes back if and only if it is empty, or PADDED is not set and the data repeats itself with the frame size as period |
| `H2FramesEndToEnd.DataRestarts` | ylong_http/src/h2/encoder.rs:616-620 | one octet more than a frame holds: that octet is lost and the first one is sent twice |
| `H2FramesEndToEnd.SettingRoundTrip` | ylong_http/src/h2/decoder.rs:852-885 | a setting comes back if and only if its value is legal |
| `H2FramesEndToEnd.SettingsRoundTrip` | ylong_http/src/h2/decoder.rs:554-592 | a list of settings of any length comes back if and only if all its values are legal |
| `H2FramesEndToEnd.PriorityRoundTrip` | ylong_http/src/h2/decoder.rs:445-473 | PRIORITY comes back if and only if the stream is not 0 and the reserved bit was clear |
| `H2FramesEndToEnd.GoawayRoundTrip` | ylong_http/src/h2/decoder.rs:475-499 | GOAWAY comes back, debug data included, if and only if it is on stream 0 and the reserved bit was clear |
| `H2FramesEndToEnd.ControlRoundTrip` | ylong_http/src/h2/decoder.rs:421-592 | each control frame decodes to itself if and only if it is deliverable |
| `H2FramesEndToEnd.ControlArrivesIff` | ylong_http/src/h2/decoder.rs:349-419 | the same for the octets the encoder writes and the frames the decoder reports |
| `H2FramesEndToEnd.ControlArrivesInSegmentsIff` | ylong_http/src/h2/decoder.rs:349-419 | the same in any segmentation, and in any that does not cut the frame for PRIORITY |
| `ChunkAutomaton.StepInv` | ylong_http/src/body/chunk.rs:1092-1257 | what holds between any two octets: when CR was seen, what is left of the data, when the chunk is the last |
| `ChunkAutomaton.CutIsInvisible` | ylong_http/src/body/chunk.rs:959-1027 | two calls report the same octets per chunk, the same chunk ends, state, remainder and failure as one call |
| `ChunkAutomaton.SegmentsAreInvisible` | ylong_http/src/body/chunk.rs:959-1027 | the same for any number of segments |
| `ChunkAutomaton.StepReports` | ylong_http/src/body/chunk.rs:1338-1424 | an octet reports nothing, one octet of the current chunk, or the end of a chunk all of whose octets were reported |
| `ChunkAutomaton.ChunksAreExact` | ylong_http/src/body/chunk.rs:1338-1424 | over any input, each chunk ends only after exactly as many octets as its size were reported under its number, and numbers count up from the first chunk |
| `ChunkGrammar.DigitIff` | ylong_http/src/body/chunk.rs:1105-1134 | the value of a digit is its position in "0123456789abcdef" or in "0123456789ABCDEF", and nothing else is a digit |
| `ChunkGrammar.DigitsRun` | ylong_http/src/body/chunk.rs:1083-1145 | hexadecimal digits in any number, leading zeros included, are accepted if and only if their value is below 2^63, and it is their value that is kept |
| `ChunkGrammar.LineRuns` | ylong_http/src/body/chunk.rs:1163-1257 | anything up to CR LF is skipped behind the size |
| `ChunkGrammar.DataRuns` | ylong_http/src/body/chunk.rs:1338-1359 | data octets are passed on, in any number of parts |
| `ChunkGrammar.BodyRuns` | ylong_http/src/body/chunk.rs:959-1027 | every well-formed body is decoded to its chunks, and what follows it is left alone |
| `ChunkGrammar.BodyOnly` | ylong_http/src/body/chunk.rs:959-1027 | whatever is accepted is a well-formed body |
| `ChunkGrammar.AcceptsExactlyBodies` | ylong_http/src/body/chunk.rs:959-1027 | a new decoder accepts an input if and only if it starts with a well-formed body, and reports the chunks of that body |
| `ChunkGrammar.FailsIff` | ylong_http/src/body/chunk.rs:959-1027 | a new decoder fails if and only if no continuation of the input would make it start with a well-formed body |
| `ChunkGrammar.CaseIsInvisible` | ylong_http/src/body/chunk.rs:1123-1134 | the letters of a size may be capitals, some or all: nothing else changes |
| `ChunkDecoder.HexToDecimal` | ylong_http/src/body/chunk.rs:1083-1090 | fails if and only if the result does not fit a signed 64-bit integer |
| `ChunkDecoder.ChunkBodyDecoder.constructor` | ylong_http/src/body/chunk.rs:887-903 | a new decoder expects a size |
| `ChunkDecoder.ChunkBodyDecoder.Decode` | ylong_http/src/body/chunk.rs:959-989 | one call reports the octets and chunk ends of the octet automaton, returns its remainder, fails when it fails and ends in its state |
| `ChunkDecoder.ChunkBodyDecoder.MatchDecodeResult` | ylong_http/src/body/chunk.rs:991-1027 | when a call ends, and how chunks are numbered |
| `ChunkDecoder.ChunkBodyDecoder.DecodeSize` | ylong_http/src/body/chunk.rs:1092-1145 | refines the automaton from the size on |
| `ChunkDecoder.ChunkBodyDecoder.DecodeSpecialChar` | ylong_http/src/body/chunk.rs:1163-1183 | refines the automaton from the end of the digits on |
| `ChunkDecoder.ChunkBodyDecoder.SkipExtension` | ylong_http/src/body/chunk.rs:1185-1237 | refines the automaton from the extension on |
| `ChunkDecoder.ChunkBodyDecoder.SkipCrlf` | ylong_http/src/body/chunk.rs:1239-1257 | refines the automaton from the end of the size line on |
| `ChunkDecoder.ChunkBodyDecoder.DecodeData` | ylong_http/src/body/chunk.rs:1338-1359 | refines the automaton from the data on |
| `ChunkDecoder.ChunkBodyDecoder.SkipLastCrlf` | ylong_http/src/body/chunk.rs:1398-1424 | refines the automaton from the end of the data on |
| `ChunkWire.BytesEndIff` | ylong_http/src/body/chunk.rs:327-341 | a slice has a last chunk if and only if it is shorter than 2048 octets, and then all of it is sent |
| `ChunkWire.HexTextIsPlain` | ylong_http/src/body/chunk.rs:465-486 | sizes are written in lower case and without leading zeros |
| `ChunkWire.FullChunkIs` | ylong_http/src/body/chunk.rs:465-486 | every chunk but the last has 1024 octets and is announced as such |
| `ChunkEncoder.LoadIsNext` | ylong_http/src/body/chunk.rs:327-341 | the chunk number kept by the encoder selects the next chunk of a slice |
| `ChunkEncoder.TokenConserves` | ylong_http/src/body/chunk.rs:448-555 | every token step emits a prefix of what is pending and leaves the rest pending, except that the size token of the last chunk starts over |
| `ChunkEncoder.TrailerConserves` | ylong_http/src/body/chunk.rs:383-398 | the same for the closing chunk and the trailer fields |
| `ChunkEncoder.StepConserves` | ylong_http/src/body/chunk.rs:241-262 | the same for every turn of the loop in `data`, loads included |
| `ChunkEncoder.StepProgress` | ylong_http/src/body/chunk.rs:241-262 | for every source, a turn that writes nothing is followed by one that does |
| `ChunkEncoder.NeverInside` | ylong_http/src/body/chunk.rs:465-486 | between two turns the last size token is pending as a whole or not at all |
| `ChunkEncoder.InitialPends` | ylong_http/src/body/chunk.rs:153-162 | a new encoder has the whole body pending |
| `ChunkEncoder.DataMoves` | ylong_http/src/body/chunk.rs:241-262 | a call fills its buffer from the front of what is pending; what is pending then is the rest, except that a last size token cut by the end of the buffer is pending as a whole again |
| `ChunkCalls.CallsWriteBodyIff` | ylong_http/src/body/chunk.rs:465-486 | over any sequence of buffers the output is the reference printing if no buffer ends inside the last size token; of a finished body, if and only if |
| `ChunkCalls.EndlessNeverEnds` | ylong_http/src/body/chunk.rs:524-539 | a source that fills every chunk is never finished: whatever buffers are offered, they are filled with its chunks |
| `ChunkCalls.EndlessSliceIff` | ylong_http/src/body/chunk.rs:327-341 | a slice fills every chunk if and only if it has 2048 octets or more |
| `ChunkCalls.SliceEndsIff` | ylong_http/src/body/chunk.rs:524-539 | some buffers get a slice finished if and only if it is shorter than 2048 octets |
| `ChunkBody.ChunkBody.Data` | ylong_http/src/body/chunk.rs:241-262 | for every source, the loop writes and leaves what the recursive `DataOn` says |
| `ChunkBody.ChunkBody.WriteToken` | ylong_http/src/body/chunk.rs:632-643 | copies as much of a token as fits, and says whether that was all |
| `ChunkBody.ChunkBody.MetaSizeEncode` | ylong_http/src/body/chunk.rs:465-486 | refines the size step |
| `ChunkBody.ChunkBody.MetaCrlfEncode` | ylong_http/src/body/chunk.rs:488-497 | refines the step to the end of the size line |
| `ChunkBody.ChunkBody.DataEncode` | ylong_http/src/body/chunk.rs:524-555 | refines the data step, for full chunks and for the last one |
| `ChunkBody.ChunkBody.DataCrlfEncode` | ylong_http/src/body/chunk.rs:499-508 | refines the step to the end of a full chunk |
| `ChunkBody.ChunkBody.FinishEncode` | ylong_http/src/body/chunk.rs:510-522 | refines the step to the end of the last chunk |
| `ChunkBody.ChunkBody.TrailerEncode` | ylong_http/src/body/chunk.rs:383-398 | refines the step to the end of the body |
| `ChunkRoundTrip.EncodeAll` | ylong_http/src/body/chunk.rs:241-262 | one call after the other on the encoder, for every source: the output of `Calls`, with what `CallsWriteBodyIff` says of it when there is a last chunk |
| `ChunkRoundTrip.HexRoundTrip` | ylong_http/src/body/chunk.rs:1083-1090 | the digits the encoder writes have the value the decoder computes |
| `ChunkRoundTrip.WireIsBody` | ylong_http/src/body/chunk.rs:448-555 | what the encoder writes is a well-formed body, if the last chunk is empty or the trailer fields look like the end of the body |
| `ChunkRoundTrip.WireFails` | ylong_http/src/body/chunk.rs:1398-1424 | otherwise a decoder that expects no trailer fields refuses it |
| `ChunkRoundTrip.AllIsSentIff` | ylong_http/src/body/chunk.rs:245-250 | of a body that is accepted, the decoder reports everything the source delivers if and only if nothing follows the first read that does not fill its chunk |
| `ChunkRoundTrip.RoundTrip` | ylong_http/src/body/chunk.rs:959-989 | any content with any trailer fields, in any segmentation, is decoded to the content if the last chunk is empty or the trailer fields are none or start with CR LF, and refused otherwise; nothing is left over if and only if the last chunk is not empty and there are no trailer fields |
| `ChunkRoundTrip.SendBody` | ylong_http/src/body/chunk.rs:241-262 | encoder, any trailer fields, any buffers that leave the last size token whole, any segments, decoder: the content or the refusal of `RoundTrip` |
| `Varint.RoundTrip` | ylong_http/src/h3/octets.rs:76-95 | reading what was written gives the value and leaves what follows, for every value below 2^62 |
| `Varint.ReadFormat` | ylong_http/src/h3/octets.rs:76-95 | an integer is read if and only if as many octets are there as the two top bits of the first one announce: one, two, four or eight; its value is the rest, most significant octet first |
| `Varint.WriteFormat` | ylong_http/src/h3/octets.rs:124-137 | what is written announces one, two, four or eight octets exactly for values below 2^6, 2^14, 2^30 and 2^62 |
| `Varint.Least` | ylong_http/src/h3/octets.rs:204-214 | no other octets that read as the value are fewer |
| `Varint.ReadInRange` | ylong_http/src/h3/octets.rs:76-95 | a value that is read fits its length |
| `Varint.ReadExtends` | ylong_http/src/h3/octets.rs:76-95 | an integer that was read is read again when more octets follow |
| `Varint.SequenceRoundTrip` | ylong_http/src/h3/octets.rs:184-199 | a sequence of integers parses back to itself |
| `Varint.WriteAllIsInjective` | ylong_http/src/h3/octets.rs:184-199 | different sequences are written differently |
| `Varint.ReadableBytes.GetVarint` | ylong_http/src/h3/octets.rs:76-95 | reads the integer at the cursor and moves behind it, or does nothing if there are too few octets |
| `Varint.WriteVarint` | ylong_http/src/h3/octets.rs:184-199 | writes the fewest octets that hold the value, or reports that there is no room |
| `H3Stream.StepDecreases` | ylong_http/src/h3/decoder.rs:146-257 | the loop in `decode` ends |
| `H3Stream.PayloadResumes` | ylong_http/src/h3/decoder.rs:506-538 | a DATA or unknown payload that was cut is delivered as if it had arrived at once |
| `H3Stream.CutIsInvisible` | ylong_http/src/h3/decoder.rs:146-257 | on every stream two calls deliver, fail and end as one call does, unless the first one has all of a SETTINGS payload |
| `H3Stream.SegmentsAreInvisible` | ylong_http/src/h3/decoder.rs:146-257 | the same for any number of segments |
| `H3Stream.NoneAheadAnyCuts` | ylong_http/src/h3/decoder.rs:416-459 | on every stream on which no SETTINGS frame can come any more, or never could, no cut is ever noticed |
| `H3Stream.CutsAreInvisibleIff` | ylong_http/src/h3/decoder.rs:703-713 | this is exact: of a stream that waits for its type or for a frame, no cut is ever noticed if and only if no SETTINGS frame can come |
| `H3Format.InstructionsDelivered` | ylong_http/src/h3/decoder.rs:758-766 | in any segments, a new unidirectional stream with type 3 delivers exactly the octets behind the type as instruction octets |
| `H3Format.EncoderStreamHandedOver` | ylong_http/src/h3/decoder.rs:758-766 | with type 2 it is handed over to QPACK, and nothing is delivered |
| `H3Format.UnknownTypesDropped` | ylong_http/src/h3/decoder.rs:758-766 | with any type above 3 it is dropped |
| `H3Format.PushStreamsAreNamed` | ylong_http/src/h3/decoder.rs:398-414 | with type 1 every message behind the push identifier is a push message with that identifier, and before it is there every message awaits more |
| `H3Format.RefusedIffMisplaced` | ylong_http/src/h3/decoder.rs:416-459 | a frame is refused for its type if and only if that type is misplaced on this stream, by number |
| `H3Format.DataIsDelivered` | ylong_http/src/h3/decoder.rs:506-538 | type 0 delivers its octets on request and push streams |
| `H3Format.UnknownIsSkipped` | ylong_http/src/h3/decoder.rs:732-756 | types that mean nothing are skipped with their payload |
| `H3Format.IdentifierIsReported` | ylong_http/src/h3/decoder.rs:620-662 | type 7 reports GOAWAY and type 3 CANCEL_PUSH with the identifier, whatever their length says |
| `H3Format.QpackTakesOver` | ylong_http/src/h3/decoder.rs:461-504 | types 1 and 5 hand over to QPACK where they are accepted |
| `H3Format.TypeIsAwaited` | ylong_http/src/h3/decoder.rs:380-396 | until its type is there, a unidirectional stream waits |
| `H3SettingsFormat.SettingsReported` | ylong_http/src/h3/decoder.rs:664-714 | any list of settings without a forbidden key is reported: the last value of each of the keys 1, 6, 7, 8 and 0x33, and all other pairs in their order |
| `H3SettingsFormat.ForbiddenRefused` | ylong_http/src/h3/decoder.rs:686-697 | a list with a key 0, 2, 3, 4 or 5 is refused, and the first of these keys is named |
| `H3Streams.StreamsAreIsolated` | ylong_http/src/h3/decoder.rs:146-257 | over any interleaving of calls on any streams, each stream gets the results it would get alone |
| `H3Streams.RequestStreamDelivers` | ylong_http/src/h3/decoder.rs:146-257 | a request stream delivers what one call on all its octets would, whatever the segments and the other streams are |
| `H3Streams.RequestStreamFails` | ylong_http/src/h3/decoder.rs:146-257 | a request stream whose octets fail in one call fails in exactly one call with the same error, and before it delivers what one call on the octets in front of that segment would |
| `H3Streams.StreamRuns` | ylong_http/src/h3/decoder.rs:506-538 | DATA frames deliver their octets in order, unknown frames contribute nothing |
| `H3Decoder.StepWellTyped` | ylong_http/src/h3/decoder.rs:304-314 | stream type, phase and the fields they need fit together in every reachable state |
| `H3Decoder.FrameDecoder.Decode` | ylong_http/src/h3/decoder.rs:146-257 | one call returns the message and leaves the map of streams as the model of all streams says |
| `H3Decoder.FrameDecoder.DecodeStream` | ylong_http/src/h3/decoder.rs:154-256 | the dispatch loop reports the events of `Run`, and leaves the stream and what is unread as `Run` does |
| `H3Decoder.DecodedStream.DecodeStreamType` | ylong_http/src/h3/decoder.rs:380-396 | refines the step on the stream type |
| `H3Decoder.DecodedStream.DecodePushId` | ylong_http/src/h3/decoder.rs:398-414 | refines the step on the push identifier |
| `H3Decoder.DecodedStream.DecodeFrameType` | ylong_http/src/h3/decoder.rs:416-459 | refines the step on a frame type, with the frames each stream refuses |
| `H3Decoder.DecodedStream.DecodePayloadLen` | ylong_http/src/h3/decoder.rs:461-504 | refines the step on a payload length |
| `H3Decoder.DecodedStream.DecodeDataPayload` | ylong_http/src/h3/decoder.rs:506-538 | refines the DATA step, complete or not |
| `H3Decoder.DecodedStream.DecodeUnknownPayload` | ylong_http/src/h3/decoder.rs:732-756 | refines the step over an unknown frame |
| `H3Decoder.DecodedStream.DecodeVariablePayload` | ylong_http/src/h3/decoder.rs:620-662 | refines the GOAWAY and CANCEL_PUSH step |
| `H3Decoder.DecodedStream.DecodeSettingsPayload` | ylong_http/src/h3/decoder.rs:664-714 | refines the SETTINGS step, which leaves the payload unread when something follows it |
| `H3Decoder.DecodedStream.ReadSettings` | ylong_http/src/h3/decoder.rs:671-702 | the loop over key and value pairs computes the recursive `ParseSettings` |
| `H3Decoder.DecodedStream.ReturnByType` | ylong_http/src/h3/decoder.rs:365-378 | the message tells the type of the stream and its push identifier; WaitingMore says that they are not known yet, and every other message carries all frames |
| `H3Decoder.DecodedStream.ReadPair` | ylong_http/src/h3/decoder.rs:675-682 | a key and its value are read, or the octets are too few |
| `H3Control.StepIsDisciplined` | ylong_http/src/h3/decoder.rs:416-459 | what every step keeps: SETTINGS and DATA only on the streams they belong to |
| `H3Control.RunSpends` | ylong_http/src/h3/decoder.rs:431-436 | a call reports no more SETTINGS frames than the stream may still have |
| `H3Control.SegmentsSpend` | ylong_http/src/h3/decoder.rs:431-436 | over any segments, from every state, no more SETTINGS frames are reported than the stream may still have |
| `H3Control.SettingsAtMostOnce` | ylong_http/src/h3/decoder.rs:431-436 | over any segments a new stream reports SETTINGS at most once, and a request stream never |
| `H3Control.DeliversNoData` | ylong_http/src/h3/decoder.rs:421-425 | over any segments, a stream that is neither a request nor a push stream never delivers data |
| `H3Settings.SettingsRoundTrip` | ylong_http/src/h3/decoder.rs:664-714 | settings come back if and only if no additional key is reserved or known and the additional list is not empty |
| `H3Settings.ControlStreamOpens` | ylong_http/src/h3/decoder.rs:380-396 | a unidirectional stream that announces type 0 is a control stream |
| `H3Settings.SettingsArriveInSegments` | ylong_http/src/h3/decoder.rs:664-714 | canonical settings at the start of a control stream are reported in any segmentation, and the stream goes on |
| `H3Settings.SettingsSkippedIff` | ylong_http/src/h3/decoder.rs:703-713 | decoding goes on behind a SETTINGS frame if and only if its payload is empty or nothing follows it |
| `H3WireFormat.DataWireFormat` | ylong_http/src/h3/encoder.rs:484-502 | DATA has type 0 and announces the length of its data |
| `H3WireFormat.SettingsWireFormat` | ylong_http/src/h3/encoder.rs:341-394 | SETTINGS has type 4 and announces the length of its pairs |
| `H3WireFormat.VariableWireFormat` | ylong_http/src/h3/encoder.rs:504-552 | CANCEL_PUSH, GOAWAY and MAX_PUSH_ID have types 3, 7 and 13 and announce the length of their identifier |
| `H3Encoder.SettingsFit` | ylong_http/src/h3/encoder.rs:554-596 | at most fifty additional settings always fit the smallest buffer |
| `H3Encoder.SettingsLength` | ylong_http/src/h3/encoder.rs:554-596 | the length field is the number of octets of the payload |
| `H3Encoder.WritePairs` | ylong_http/src/h3/encoder.rs:341-394 | the settings are written one behind the other |
| `H3Encoder.EncodeSettings` | ylong_http/src/h3/encoder.rs:341-394 | the whole SETTINGS frame is written in one call |
| `H3Encoder.EncodeDataPayload` | ylong_http/src/h3/encoder.rs:615-639 | a part of the data is written and the rest stays pending |
| `H3Encoder.EncodeVariable` | ylong_http/src/h3/encoder.rs:504-552 | CANCEL_PUSH, GOAWAY and MAX_PUSH_ID are written whole, and one octet too few is counted |
| `H3Encoder.EncodeStream` | ylong_http/src/h3/encoder.rs:191-260 | by state of the stream: what is written, what is counted, and what stays pending |
| `H3Encoder.FrameEncoder.SetFrame` | ylong_http/src/h3/encoder.rs:116-153 | a stream takes a frame if and only if it has none under way; other streams are not touched |
| `H3Encoder.FrameEncoder.Encode` | ylong_http/src/h3/encoder.rs:179-262 | when each error is returned, and otherwise: the buffer is filled from the front of what the stream has pending; other streams are not touched |
| `H3Encoder.EncodeAll` | ylong_http/src/h3/encoder.rs:179-262 | over any sequence of buffers of at least 1024 octets the output of DATA and SETTINGS is what was pending, as much of it as there is room for |
| `H3Encoder.DataArrives` | ylong_http/src/h3/decoder.rs:506-538 | the octets of a DATA frame deliver its data in any segmentation |
| `H3Encoder.SendData` | ylong_http/src/h3/encoder.rs:179-262 | encoder, any stream that has no frame under way, any buffers of at least 1024 octets, any segments, decoder: the data |
| `H3Encoder.SendSettings` | ylong_http/src/h3/encoder.rs:341-394 | encoder, any stream that has no frame under way, any buffer of at least 1024 octets, stream type, any segments, decoder: the settings |
| `H3Encoder.VariableArrives` | ylong_http/src/h3/decoder.rs:620-662 | all octets of CANCEL_PUSH or GOAWAY on a control stream, in any segments: the frame is reported |
| `H3Encoder.VariableCutShort` | ylong_http/src/h3/encoder.rs:504-552 | the octets that are counted: nothing is reported, and the decoder waits for the missing octet |
| `H3Encoder.NeverReported` | ylong_http/src/h3/decoder.rs:620-662 | the octets that are counted, in any segments: the decoder waits for the missing octet with nothing reported, or refuses MAX_PUSH_ID |
| `H3Encoder.MaxPushIdIsRefused` | ylong_http/src/h3/decoder.rs:416-459 | the decoder accepts no MAX_PUSH_ID frame, on any stream |
| `H3Encoder.SendVariable` | ylong_http/src/h3/encoder.rs:223-258 | what a caller passes on of these three frames, on any stream that has no frame under way, is always one octet short, and never reported in any segments |
| `HeaderMap.HeaderCharFacts` | ylong_http/src/headers.rs:1029-1057 | what the name table accepts it stores in lower case, and stores again unchanged; it accepts every token octet |
| `HeaderMap.AcceptedOctets` | ylong_http/src/headers.rs:1029-1057 | the name table accepts the token octets and a space, a quotation mark, a comma and a slash, and nothing else |
| `HeaderMap.NormalizedIsKey` | ylong_http/src/headers.rs:252-263 | a normalised name is a fixed point of normalisation |
| `HeaderMap.KeyIff` | ylong_http/src/headers.rs:252-263 | the fixed points are the accepted names without upper case |
| `HeaderMap.ValidatedAgreesIff` | ylong_http/src/headers.rs:840-855 | the unchecked append does what the checked one does if and only if the checked one would accept |
| `HeaderMap.LowercaseAgreesIff` | ylong_http/src/headers.rs:719-722 | on every reachable map the unchecked look-up agrees with the checked one if and only if the name has no upper case or is not there |
| `HeaderMap.LicensedIsAccepted` | ylong_http/src/util/header_bytes.rs:23-91 | names and values the HTTP/1 parser lets through are accepted |
| `HeaderMap.AfterKeepsKeys` | ylong_http/src/headers.rs:812-855 | every operation keeps all keys fixed points |
| `HeaderMap.FastRunAgrees` | ylong_http/src/headers.rs:703-882 | over any run, the unchecked operations as licensed give the map and the answers of the checked ones |
| `HeaderHistory.GetIsTold` | ylong_http/src/headers.rs:703-882 | after any run on a new map, what is found under a name, in any letter case, are the accepted values appended since its last insert or removal, in the order of the calls, behind the inserted one; calls on other names do not matter |
| `HeaderHistory.AnswersAreTold` | ylong_http/src/headers.rs:703-722 | over any run, every look-up answers so: the checked one under all accepted names, the unchecked one under all names without upper case |
| `HeaderHistory.ToldInAnyCase` | ylong_http/src/headers.rs:252-263 | the letter case of the name does not matter to that |
| `HeaderHistory.ParserOctets` | ylong_http/src/util/header_bytes.rs:23-91 | the HTTP/1 parser lets through the octets of a token in names, and in values all octets that are accepted there |
| `HeaderMap.Normalize` | ylong_http/src/headers.rs:252-263 | the loop over a name computes its normalised form or refuses it |
| `HeaderMap.CheckValue` | ylong_http/src/headers.rs:348-357 | a value is accepted if and only if all its octets are |
| `HeaderMap.Headers.GetValue` | ylong_http/src/headers.rs:703-710 | looks a name up by its normalised form |
| `HeaderMap.Headers.GetLowercaseValue` | ylong_http/src/headers.rs:719-722 | finds, without checking, what the checked look-up finds |
| `HeaderMap.Headers.InsertValue` | ylong_http/src/headers.rs:775-785 | replaces a value and hands the old one back, or changes nothing |
| `HeaderMap.Headers.AppendValue` | ylong_http/src/headers.rs:812-831 | adds a value to those that are there, or changes nothing |
| `HeaderMap.Headers.AppendValidatedH1` | ylong_http/src/headers.rs:840-855 | leaves the map as the checked append would |
| `HeaderMap.Headers.RemoveValue` | ylong_http/src/headers.rs:875-882 | removes an entry and hands it back |
| `ProbeTable.FindIff` | tools/https_proxy_bench/ssl_trace_preload.c:317-331 | a key is found if and only if it is there; there is no place for it if and only if all slots have other keys |
| `ProbeTable.PresentIsFound` | tools/https_proxy_bench/ssl_trace_preload.c:317-331 | a key that is there is found in its slot |
| `ProbeTable.ClaimedInv` | tools/https_proxy_bench/ssl_trace_preload.c:317-331 | claiming a slot keeps keys unique and every slot on the way to a key occupied |
| `ProbeTable.PutIsUpdate` | tools/https_proxy_bench/ssl_trace_preload.c:333-385 | as a finite map, the table is updated at one key |
| `ProbeTable.FullIff` | tools/https_proxy_bench/ssl_trace_preload.c:317-331 | there is no free slot if and only if there are 8192 keys |
| `ProbeTable.OpIsMapOp` | tools/https_proxy_bench/ssl_trace_preload.c:333-385 | every operation does to the table, and reports, what it does to a finite map that takes no new key once it has 8192 |
| `ProbeTable.RunIsMapRun` | tools/https_proxy_bench/ssl_trace_preload.c:333-385 | the same for whole runs, with everything they report |
| `ProbeTable.RunGrows` | tools/https_proxy_bench/ssl_trace_preload.c:333-385 | over any run no key moves or goes away |
| `ProbeTable.SlotIsForEver` | tools/https_proxy_bench/ssl_trace_preload.c:317-331 | once a key has a slot, it is found there after any further run |
| `ProbeHistory.OutputIsTold` | tools/https_proxy_bench/ssl_trace_preload.c:333-385 | after any run on a new table, a retry reports for its connection the read wait and the write wait that are open, each with the time since it was noted last, and nothing else; a connection that is not among the first 8192 reports nothing |
| `ProbeHistory.WaitIsReportedOnce` | tools/https_proxy_bench/ssl_trace_preload.c:333-385 | a wait that was noted is reported by the next retry of its connection that is not earlier, with the time in between, and then no more |
| `ProbeTable.RetryTable.RetrySlot` | tools/https_proxy_bench/ssl_trace_preload.c:317-331 | returns the slot of the key, claiming a free one; none if and only if the table is full and lacks the key |
| `ProbeTable.RetryTable.RememberWant` | tools/https_proxy_bench/ssl_trace_preload.c:366-385 | notes the wait in the entry of the key and nowhere else |
| `ProbeTable.RetryTable.ConsumeGap` | tools/https_proxy_bench/ssl_trace_preload.c:333-364 | reports and clears the waits that are over, in the entry of the key and nowhere else |

## Left out

- HPACK, QPACK and Huffman coding: abstract on both sides; a stream that reaches a HEADERS or PUSH_PROMISE payload in HTTP/3, or a QPACK encoder stream, is followed no further.
- Chunk trailers on the decoding side (`contains_trailer`, `merge_trailer`, `get_trailer`): they depend on the segmentation.
- The fields `chunk_flag` and `num_flag` of the chunk decoder: they are read for trailers only.
- Async wrappers (`poll_data`, `poll_partial`) and the async reader: the same steps behind a runtime.
- The HTTP/3 encoder for HEADERS: it writes what QPACK hands over.
- HTTP/3 `cancel_stream` and `finish_stream`: removal of one map entry.
- HTTP/2 `update_setting` and its relatives, and `encode_padding`: field assignments, and states that no frame leads to.
- Clocks, threads and the lock of the tracing tool: time and thread are parameters, and a call under the lock is one operation. Counters and maxima of samples are not kept.
- Header values as strings, `set_sensitive`, iteration and mutable look-up of the header map, and names that are given as `HeaderName`: accessors.
- Message texts and the error kinds of HPACK failures.
- H2Decoder.FrameDecoder.Decode: after an error or a panic the fields are not specified, because callers close the connection then.
- ChunkDecoder.ChunkBodyDecoder.Decode: after an error the fields are not specified, and sizes above 32 bits assume a 64-bit `usize`.
- H2EndToEnd.SendHeaders: asks for flags without PADDED and PRIORITY; that this is exact is `HeadersArriveIff`.
- H2FramesEndToEnd.ControlArrivesIff: for payloads within the frame size limit of the decoder and stream identifiers of 31 bits.
- H3Decoder.FrameDecoder.Decode: the branches that hand over to QPACK return an error that stands for whatever QPACK does.
- H3Decoder.FrameDecoder.DecodeStream: the same.
- H3Encoder.FrameEncoder.SetFrame: not for HEADERS.
