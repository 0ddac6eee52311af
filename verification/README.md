# Verification model of the embodied runtime's cores

This project models the parts of the repository whose correctness spans many calls or many goroutines, and proves what
they promise. Each module follows one component.

**Camera byte streams.** `AnnexB` parses NAL units of the byte stream format (Annex B of ITU-T H.264 and H.265), and
`NalBytes` shows that what is written is what is parsed and ties unit types to the bits of their header bytes.
`BitstreamReader` is the loop that cuts an arbitrarily segmented stream into chunks; its central result is that the
segmentation does not matter. `ParamSets` is the parameter-set cache and the injection into IDR frames, on the objects
they update. `Delivery` is the forwarding loop of one subscriber. `Pipeline` puts reader queue, capture loop, fan-out,
registration and subscribers into one step machine, seeded from the configured texts, and proves ordered delivery and
late-join decodability for every schedule and configuration. `FanOut` and `ReaderQueue` prove what is delivered and what
is lost: exactly the messages that find no room.

**Still images.** `TiffSize` is the IFD walk (TIFF 6.0, section 2), proved equivalent to a chain-based definition of
size and self-delimiting; `TiffImages` writes fields and images byte by byte in both byte orders. `ImageSplit` holds the
four splitters, the scanner and the reader loop, with a round trip over arbitrary reads, and `ImageBytes` says which
bytes the images are and what happens to bytes that belong to none.

**Camera lifecycle.** `CameraLifecycle` is open, three-phase close, the capture loop and viewers as a step machine with
a mutex, a wait group and cancellable contexts. Its results hold over all interleavings in which at most one close is
past its snapshot. `CameraProgress` proves that every call returns without help from outside, that close ends CLOSED,
and when OPEN means a running loop. `CameraTermination` adds that this holds on every schedule: left to itself the
machine stops after a bounded number of steps, and then no call is under way. `CameraSchedules` shows that the condition
on close is the exact one, and has the schedules on which documented properties fail. `CameraHistory` reads the latest
frame, the parameter sets, the state and what viewers get off the steps that led there. `CameraWatchers` runs subscribers
over this machine across closes and reopens and says which sessions' frames they can receive.

**Cycle detection.** `Dag` is the recursive depth-first search, sound, complete and terminating.

**MACVLAN addresses.** `Subnet` has networks, candidates and validation. `MaskBits` ties its octet arithmetic to masks
on machine bytes, `CidrNumbers` to ranges of 32-bit numbers. `ArpProbe` has the frames and the batched probe, and
`ArpPick` tells the pick from the frames received. `Enrich` is the completion of a configuration in place, `Macvlan`
creation, destruction and the Setup call over an abstract kernel with failures at every step. `SetupProtocol` has
concurrent Setup calls with pods starting and dying between any two probe rounds, and `SetupRuns` whole calls on it.

**Text and buffers.** `ShowArgs` parses the `--show-args` text, `Buffers` has the log ring and the stderr tail.
`Sequences` and `Text` are helpers.

In the step machines `Apply` gives the state after one atomic step, or no state when the step is not enabled, and `Run`
applies a whole schedule. A step is what the code does under one lock or in one channel operation. Clocks, sockets,
netlink and the driver appear as parameters (the reads, the frames heard in a window, what the host shows at the i-th
config) or as nondeterministic failures.

## Where code and documentation differ

The model follows the code.

- `candidateIPs` promises to skip the network address; it does not when that address ends in 1 to 254
  (`Subnet.NetworkAddressIsCandidate`), and then a picked address can fail validation (`Subnet.AllPicksValidate`).
- `readHostARPCache` returns a nil map on error and `passivePick` says the host address is still avoided; writing it
  into the nil map panics (`ArpProbe.PanicsExactly`, with an input in `ArpProbe.PanicExample`).
- Validation supplies /24 to an address without prefix, `configure` does not, so such a config validates and then makes
  every Setup that handles it fail (`Macvlan.ConfigurableIff`, `Macvlan.PlainAddressFailsSetup`).
- `Lines(tail)` is documented to return the last lines; it returns the oldest of those held
  (`Buffers.TailIsNewestIff`).
- The priming frame is meant to be the first message of a late joiner; the subscriber's own filter drops it unless its
  prefix holds an IDR, which happens exactly when a configured text, of which only the hex form is checked, hides one
  (`Pipeline.PrimeForwardedIff`).
- `parseNALUnits` says that concatenating the units reproduces the input; bytes before the first start code are lost
  (`AnnexB.UnitsReproduce`, with an input in `AnnexB.LeadingByteIsLost`).
- An empty default is printed as `(default: '')` and read as a required argument (`ShowArgs.RequiredIff`, with an
  input in `ShowArgs.EmptyDefaultExample`).
- Two overlapping close calls can leave the camera CLOSED with a live loop
  (`CameraSchedules.OverlappingClosesBreakIt`), and wherever a second one passes its snapshot they can
  (`CameraSchedules.OneCloserIsExact`).
- The capture loop is documented as always running while the camera is OPEN. A reader that ends without an error leaves
  it OPEN with no loop (`CameraSchedules.OpenWithoutLoop`), and nothing else does (`CameraProgress.OpenMeansRunningIff`).
- A close is meant to end its session's WatchFrames calls. One that has not noticed yet can receive a frame of the next
  session (`CameraWatchers.StaleDelivery`), though never while its own context is alive
  (`CameraWatchers.OwnSessionWhileAlive`), and once it was sent a keyframe its filter passes such frames unseen
  (`Delivery.LaterSessionUnfiltered`).

## Model

| member | source | states |
|---|---|---|
| `AnnexB.ScanStarts` | apps/embodied-runtime/pkg/cameracontroller/bitstream.go:70-78 | the scan collects exactly the positions where a NAL unit starts, in order |
| `AnnexB.ParseNALUnits` | apps/embodied-runtime/pkg/cameracontroller/bitstream.go:69-91 | the parsed units are those of the stream: cut at every unit start and nowhere else |
| `AnnexB.UnitsReproduce` | apps/embodied-runtime/pkg/cameracontroller/bitstream.go:61-65 | concatenating the units gives the input from its first start code on, and so the whole input if and only if it is empty or begins with one |
| `AnnexB.LeadingByteIsLost` | apps/embodied-runtime/pkg/cameracontroller/bitstream.go:61-65 | an input whose first byte is lost |
| `AnnexB.UnitsAreWhole` | apps/embodied-runtime/pkg/cameracontroller/bitstream.go:61-68 | each unit begins with a start code and, parsed alone, gives just itself: none holds a further start code |
| `AnnexB.UnitsOfCut` | apps/embodied-runtime/pkg/cameracontroller/bitstream.go:69-91 | parsing distributes over a cut of the stream at any unit start |
| `AnnexB.HoldsSomewhere` | apps/embodied-runtime/pkg/cameracontroller/bitstream.go:95-126 | a chunk holds a unit of a type exactly when some start code in it is followed by such a header byte |
| `AnnexB.HoldsConcat` | apps/embodied-runtime/pkg/cameracontroller/bitstream.go:69-126 | concatenating a chunk that begins with a start code loses no unit type of either part |
| `AnnexB.HoldsOnlyParts` | apps/embodied-runtime/pkg/cameracontroller/bitstream.go:69-126 | and it adds none |
| `AnnexB.KindIsInBits` | apps/embodied-runtime/pkg/cameracontroller/bitstream.go:106-126 | the kind of a header byte is told by its bits: for H.264 the low five are 5, 7 or 8; for H.265 bits 1 to 6 are 19 or 20, 32, 33 or 34 |
| `NalBytes.HoldsInBytes` | apps/embodied-runtime/pkg/cameracontroller/bitstream.go:93-126 | a chunk holds a unit of a type exactly when 00 00 01 and such a header byte stand somewhere in it |
| `NalBytes.SignificantInBytes` | apps/embodied-runtime/pkg/cameracontroller/transcoder.go:18-37 | a chunk is a keyframe exactly when 00 00 01 and an IDR or parameter-set header stand somewhere in it |
| `NalBytes.WrittenIsParsed` | apps/embodied-runtime/pkg/cameracontroller/bitstream.go:61-91 | units written one after the other behind 3- or 4-byte start codes are parsed as they were written |
| `NalBytes.WrittenHolds` | apps/embodied-runtime/pkg/cameracontroller/bitstream.go:93-154 | a written chunk holds the types of the header bytes written, and no others |
| `AnnexB.IsKeyframeNAL` | apps/embodied-runtime/pkg/cameracontroller/transcoder.go:18-37 | true exactly when some unit is an IDR or a parameter set of the codec, by the bits of its header |
| `BitstreamReader.ReadLoop` | apps/embodied-runtime/pkg/cameracontroller/driver_ffmpeg.go:548-613 | for every sequence of reads: chunks followed by the leftover are the bytes received, and chunks end exactly at the 4-byte start codes that lie inside one read |
| `BitstreamReader.ConsumeRead` | apps/embodied-runtime/pkg/cameracontroller/driver_ffmpeg.go:566-609 | one read keeps that framing and advances the byte position by its length |
| `BitstreamReader.EmitChunk` | apps/embodied-runtime/pkg/cameracontroller/driver_ffmpeg.go:574-604 | the bytes before a start code become a chunk stamped with the offset, unless there are none |
| `BitstreamReader.ChunkInStream` | apps/embodied-runtime/pkg/cameracontroller/driver_ffmpeg.go:583-591 | a chunk is non-empty, begins with 00 00 00 01 unless it is the first, and its sequence lies between its start and end offsets |
| `BitstreamReader.SequencesIncrease` | apps/embodied-runtime/pkg/cameracontroller/driver_ffmpeg.go:583-608 | sequence numbers are strictly increasing |
| `BitstreamReader.SegmentationIndependence` | apps/embodied-runtime/pkg/cameracontroller/driver_ffmpeg.go:548-613 | units of all chunks, then of the leftover, are the units of the whole stream, also when a start code straddles two reads |
| `BitstreamReader.TwoSegmentationsAgree` | apps/embodied-runtime/pkg/cameracontroller/driver_ffmpeg.go:548-613 | two ways of cutting the same bytes into reads give the same units in the same order |
| `ParamSets.FrameContainsIDR` | apps/embodied-runtime/pkg/cameracontroller/bitstream.go:111-126 | true exactly when some unit is an IDR, by the bits of its header |
| `ParamSets.FrameContainsParams` | apps/embodied-runtime/pkg/cameracontroller/bitstream.go:130-154 | true exactly when both an SPS and a PPS are among the units, by the bits of their headers |
| `ParamSets.UpdateParamSets` | apps/embodied-runtime/pkg/cameracontroller/bitstream.go:216-263 | each cached unit becomes the last of its type in the frame, or stays |
| `ParamSets.InjectBitstreamParams` | apps/embodied-runtime/pkg/cameracontroller/bitstream.go:210-282 | cache and frame data after the call, the prefix added only to an IDR frame without both sets |
| `ParamSets.CacheAgreesWithHistory` | apps/embodied-runtime/pkg/cameracontroller/bitstream.go:204-263 | after any run of frames each slot holds the last unit of its type among all units seen, else the seed |
| `ParamSets.LastOfIs` | apps/embodied-runtime/pkg/cameracontroller/bitstream.go:224-251 | that unit is of that type and no later one is, and the seed survives only when there was none |
| `ParamSets.UpdatedWellFormed` | apps/embodied-runtime/pkg/cameracontroller/bitstream.go:216-253 | the cache keeps holding whole units of the right types, and stays complete once it is |
| `ParamSets.PrefixHolds` | apps/embodied-runtime/pkg/cameracontroller/bitstream.go:35-46 | the prefix of a complete cache holds an SPS and a PPS and no IDR |
| `ParamSets.PrefixUnits` | apps/embodied-runtime/pkg/cameracontroller/bitstream.go:35-47 | the prefix parses to the cached VPS if there is one, the SPS and the PPS, in this order |
| `ParamSets.InjectedDecodable` | apps/embodied-runtime/pkg/cameracontroller/bitstream.go:265-282 | an IDR frame keeps its IDR and its bytes as suffix and has SPS and PPS whenever both are cached |
| `ParamSets.ReinjectionIsIdle` | apps/embodied-runtime/pkg/cameracontroller/bitstream.go:265-281 | injecting a frame twice in a row, the cache updated by it each time, is injecting it once, complete cache or not |
| `ParamSets.InjectionIsIdleIff` | apps/embodied-runtime/pkg/cameracontroller/bitstream.go:265-281 | which frames injection leaves as they are, for every cache |
| `ParamSets.InjectedOnceIff` | apps/embodied-runtime/pkg/cameracontroller/bitstream.go:265-281 | an injected frame stays as it is under every later cache if and only if it came without IDR, with both sets, or met a complete cache |
| `ParamSets.SeedRoundTrip` | apps/embodied-runtime/pkg/cameracontroller/bitstream.go:182-202 | a unit configured in hex is decoded to itself, with a start code in front when it had none |
| `ParamSets.SpacesAreIgnored` | apps/embodied-runtime/pkg/cameracontroller/bitstream.go:178-193 | spaces between the bytes and white space around the text change nothing |
| `ParamSets.HexIff` | apps/embodied-runtime/pkg/cameracontroller/bitstream.go:190-193 | a text decodes if and only if it is an even number of hex digits of either case and nothing else |
| `ParamSets.CaseIsIgnored` | apps/embodied-runtime/pkg/cameracontroller/bitstream.go:190-193 | the case of a digit changes nothing |
| `ParamSets.SeedWellFormedIff` | apps/embodied-runtime/pkg/cameracontroller/bitstream.go:155-202 | the seeded cache holds whole units of the right types if and only if each configured text is ignored or is the hex form of one such unit |
| `ParamSets.HidesNoNewIDR` | apps/embodied-runtime/pkg/cameracontroller/bitstream.go:216-253 | frames never bring an IDR or a unit without start code into the cache |
| `Delivery.ForwardOne` | apps/embodied-runtime/pkg/cameracontroller/controller.go:735-770 | which frames are sent, with which keyframe flag, and the state to go on with |
| `Delivery.WatchLoop` | apps/embodied-runtime/pkg/cameracontroller/controller.go:709-776 | the loop sends exactly the frames the per-frame decision lets through, in order |
| `Delivery.BitstreamFromFirstIDR` | apps/embodied-runtime/pkg/cameracontroller/controller.go:712-743 | a bitstream subscriber is sent exactly what it received from the first IDR on |
| `Delivery.FrameModeSendsAll` | apps/embodied-runtime/pkg/cameracontroller/controller.go:745-753 | a frame-mode subscriber is sent every frame while sequence numbers increase |
| `Delivery.DuplicatesAreSkipped` | apps/embodied-runtime/pkg/cameracontroller/controller.go:745-753 | whatever the sequence numbers, a frame-mode subscriber is sent exactly the frames newer than all it received before, and those without a number |
| `Delivery.IDRIsFlaggedIff` | apps/embodied-runtime/pkg/cameracontroller/controller.go:755-760 | a sent IDR frame carries the keyframe flag if and only if it has at least five bytes |
| `Delivery.FlagIsInBytes` | apps/embodied-runtime/pkg/cameracontroller/controller.go:755-760 | the keyframe flag, for every frame: always in frame mode, otherwise exactly if the data has five bytes and shows an IDR or parameter-set header |
| `Delivery.OpensWithIDRIff` | apps/embodied-runtime/pkg/cameracontroller/controller.go:712-743 | the first bitstream frame sent holds an IDR for every mix of sessions and encodings received, if and only if the camera was found open with a bitstream encoding |
| `Delivery.LaterSessionUnfiltered` | apps/embodied-runtime/pkg/cameracontroller/controller.go:712-743 | after a first keyframe the bitstream frames of a later session are all sent, IDR or not |
| `Pipeline.StepKeepsInv` | apps/embodied-runtime/pkg/cameracontroller/controller.go:807-852 | every step of reader, capture loop, fan-out and subscribers keeps the session invariant |
| `Pipeline.RunKeepsInv` | apps/embodied-runtime/pkg/cameracontroller/controller.go:789-855 | the invariant holds after every schedule |
| `Pipeline.ReaderNeverBlocks` | apps/embodied-runtime/pkg/cameracontroller/driver_ffmpeg.go:593-602 | whatever the others do, the reader with its drop-oldest queue always has an enabled step |
| `Pipeline.FrameModeCachesNothing` | apps/embodied-runtime/pkg/cameracontroller/controller.go:352-357 | a frame-mode camera never has parameter sets, whatever is configured |
| `ReaderQueue.QueueHoldsNewest` | apps/embodied-runtime/pkg/cameracontroller/driver_ffmpeg.go:593-602 | on every schedule the reader's queue holds the newest frames, in order and without a gap: what is dropped is the oldest |
| `ReaderQueue.ReaderLosesNone` | apps/embodied-runtime/pkg/cameracontroller/driver_ffmpeg.go:593-602 | the capture loop gets every frame as long as none is made while eight wait |
| `ReaderQueue.LoopMoves` | apps/embodied-runtime/pkg/cameracontroller/controller.go:806-852 | the capture loop can always take a waiting frame, or broadcast the one it took |
| `FanOut.FanOutReaches` | apps/embodied-runtime/pkg/cameracontroller/controller.go:842-850 | a broadcast frame ends up behind the messages of every subscriber with fewer than eight waiting, and leaves the others as they were |
| `FanOut.SubscribersAreIndependent` | apps/embodied-runtime/pkg/cameracontroller/controller.go:688-705 | a subscriber changes only by broadcasts and its own receiving and leaving |
| `FanOut.DeliveryIsExact` | apps/embodied-runtime/pkg/cameracontroller/controller.go:709-776 | on every schedule a subscriber was sent what the forwarding loop makes of the messages it received, these are the first of all that found room in its channel, and the rest wait there |
| `FanOut.NeverFullMissesNone` | apps/embodied-runtime/pkg/cameracontroller/controller.go:842-850 | a subscriber whose channel was never full is given every frame broadcast since it joined, behind its priming frame |
| `FanOut.NeverFullIsSentAll` | apps/embodied-runtime/pkg/cameracontroller/controller.go:709-776 | it is sent every one of them it received in frame mode, and everything from the first IDR on for a bitstream |
| `FanOut.DrainedHasAll` | apps/embodied-runtime/pkg/cameracontroller/controller.go:709-776 | a subscriber that goes on receiving is sent what the forwarding loop makes of everything it was given |
| `Pipeline.OrderedDelivery` | apps/embodied-runtime/pkg/cameracontroller/controller.go:842-850 | for every configuration: a subscriber is sent an ordered subsequence of the driver's frames with increasing sequence numbers, each ending with the driver's bytes, and before them the priming frame exactly if its prefix, cached at some point of the session, holds an IDR |
| `Pipeline.FirstSentIsDecodable` | apps/embodied-runtime/pkg/cameracontroller/controller.go:712-743 | in every schedule and for every configuration the first message sent to a bitstream subscriber holds an IDR; unless it is the priming frame it ends with the driver's bytes and holds SPS and PPS too when both were known by then |
| `Pipeline.PrimeIsReceived` | apps/embodied-runtime/pkg/cameracontroller/controller.go:661-695 | for every configuration a schedule on which a subscriber takes its priming frame, forwarded exactly if a configured unit holds an IDR |
| `Pipeline.PrimeForwardedIff` | apps/embodied-runtime/pkg/cameracontroller/controller.go:712-743 | some schedule forwards a priming frame if and only if a configured unit holds an IDR |
| `Pipeline.FittingTextsNeverPrime` | apps/embodied-runtime/pkg/cameracontroller/controller.go:712-743 | with texts that are one unit of their type each, no schedule forwards one |
| `Pipeline.PrimingExamples` | apps/embodied-runtime/pkg/cameracontroller/bitstream.go:182-202 | for H.264 the SPS text 65 leads to a forwarded priming frame, 67 does not |
| `TiffSize.BlocksEnd` | apps/embodied-runtime/pkg/cameracontroller/driver_ffmpeg.go:479-503 | the inner loop over a directory's entries |
| `TiffSize.TiffFileSize` | apps/embodied-runtime/pkg/cameracontroller/driver_ffmpeg.go:442-510 | the loops terminate on every input and compute the walk |
| `TiffSize.TiffSizeMeans` | apps/embodied-runtime/pkg/cameracontroller/driver_ffmpeg.go:438-510 | the answer is a size if and only if the data holds a chain of at most 64 distinct directories inside it, and then it is the furthest end of any directory or block |
| `TiffSize.SizeInside` | apps/embodied-runtime/pkg/cameracontroller/driver_ffmpeg.go:442-510 | a size lies between 8 and the length of the data |
| `TiffSize.SelfDelimiting` | apps/embodied-runtime/pkg/cameracontroller/driver_ffmpeg.go:442-510 | data that agrees on the first size bytes gives the same size |
| `TiffImages.FieldsAreRead` | apps/embodied-runtime/pkg/cameracontroller/driver_ffmpeg.go:411-419 | every 16- and 32-bit value is read back as written, in both byte orders |
| `TiffImages.OneFieldIsSized` | apps/embodied-runtime/pkg/cameracontroller/driver_ffmpeg.go:442-510 | an image of one field of any of the twelve types, any count and either byte order: its size is the end of the values when they need more than four bytes, else of the directory |
| `TiffImages.UnknownTypeIsSkipped` | apps/embodied-runtime/pkg/cameracontroller/driver_ffmpeg.go:484-489 | a field of another type takes no room of its own |
| `TiffImages.BitsPerSampleExamples` | apps/embodied-runtime/pkg/cameracontroller/driver_ffmpeg.go:442-510 | the same 32-byte image written in each byte order |
| `TiffImages.HeaderAlone` | apps/embodied-runtime/pkg/cameracontroller/driver_ffmpeg.go:442-456 | a header without directories is eight bytes long |
| `TiffImages.EmptyChainIsSized` | apps/embodied-runtime/pkg/cameracontroller/driver_ffmpeg.go:453-467 | a chain of empty directories has a size exactly up to 64 of them |
| `ImageSplit.SplitAdvances` | apps/embodied-runtime/pkg/cameracontroller/driver_ffmpeg.go:293-436 | a splitter never advances past its buffer, and always past a token |
| `ImageSplit.Scan` | apps/embodied-runtime/pkg/cameracontroller/driver_ffmpeg.go:258-263 | the scan loop returns the next token of the stream |
| `ImageSplit.ReadLoop` | apps/embodied-runtime/pkg/cameracontroller/driver_ffmpeg.go:254-290 | the reader hands on the tokens of at least four bytes, numbered from 1 |
| `ImageSplit.ImageIsToken` | apps/embodied-runtime/pkg/cameracontroller/driver_ffmpeg.go:293-436 | a complete image at the front of the buffer is the next token, whatever follows |
| `ImageSplit.PartWaits` | apps/embodied-runtime/pkg/cameracontroller/driver_ffmpeg.go:293-436 | on part of an image the splitter waits and drops nothing |
| `ImageSplit.PartAtEOF` | apps/embodied-runtime/pkg/cameracontroller/driver_ffmpeg.go:293-436 | at the end of the stream part of an image is consumed, as a token for JPEG and PNG, without one for BMP and TIFF |
| `ImageSplit.RoundTripWithTail` | apps/embodied-runtime/pkg/cameracontroller/driver_ffmpeg.go:254-436 | images concatenated, the last one perhaps cut off, and read in arbitrary pieces come out as exactly those images and what the format passes on of the last |
| `ImageSplit.RoundTrip` | apps/embodied-runtime/pkg/cameracontroller/driver_ffmpeg.go:254-436 | images concatenated and read in arbitrary pieces come out as exactly those images |
| `ImageSplit.TokenIsStable` | apps/embodied-runtime/pkg/cameracontroller/driver_ffmpeg.go:385-436 | a token stays the same when bytes are appended, if and only if no little-endian signature turns up behind a big-endian TIFF token |
| `ImageBytes.JPEGBytes` | apps/embodied-runtime/pkg/cameracontroller/driver_ffmpeg.go:293-312 | a JPEG image is FF D8, and FF D9 for the first time at its end |
| `ImageBytes.PNGBytes` | apps/embodied-runtime/pkg/cameracontroller/driver_ffmpeg.go:314-343 | a PNG image is its eight-byte signature, and the whole IEND chunk for the first time at its end |
| `ImageBytes.BMPBytes` | apps/embodied-runtime/pkg/cameracontroller/driver_ffmpeg.go:345-383 | BM, the length in little-endian order and the rest are a BMP image |
| `ImageBytes.TIFFBytes` | apps/embodied-runtime/pkg/cameracontroller/driver_ffmpeg.go:385-419 | the four bytes that tell the byte order of a TIFF image |
| `ImageBytes.JunkIsDropped` | apps/embodied-runtime/pkg/cameracontroller/driver_ffmpeg.go:293-436 | bytes before the first signature are dropped and change nothing else about what a splitter does |
| `ImageBytes.ImageBehindJunk` | apps/embodied-runtime/pkg/cameracontroller/driver_ffmpeg.go:293-436 | a complete image behind such bytes is the next token |
| `ImageBytes.NoSignatureNoToken` | apps/embodied-runtime/pkg/cameracontroller/driver_ffmpeg.go:293-436 | without a signature the splitter waits, and at the end of the stream drops everything |
| `ImageBytes.StrayBMIsSkipped` | apps/embodied-runtime/pkg/cameracontroller/driver_ffmpeg.go:364-381 | BM with a length below 14 is skipped, with a length beyond the data waited for |
| `CameraLifecycle.StepKeepsInv` | apps/embodied-runtime/pkg/cameracontroller/controller.go:268-370 | every step of open, close, viewers and capture loop keeps the camera invariant |
| `CameraLifecycle.RunKeepsInv` | apps/embodied-runtime/pkg/cameracontroller/controller.go:268-450 | the invariant holds over every interleaving in which no two close calls overlap past their snapshot |
| `CameraLifecycle.Safety` | apps/embodied-runtime/pkg/cameracontroller/controller.go:268-450 | never a second reader or loop; CLOSED means no loop, reader, frame or parameter sets; nothing outlives its session; watchers are released |
| `CameraHistory.FieldsTellHistory` | apps/embodied-runtime/pkg/cameracontroller/controller.go:444-449 | on every schedule there is a latest frame, of the current session, exactly if that session's loop has stored one and no close has finished since; the same for parameter sets |
| `CameraHistory.StateTellsHistory` | apps/embodied-runtime/pkg/cameracontroller/controller.go:341-350 | the state is the one written last, overlapping closes included |
| `CameraHistory.FailureEndsInError` | apps/embodied-runtime/pkg/cameracontroller/controller.go:793-824 | a panic or a source that fails ends in ERROR |
| `CameraHistory.ViewerReads` | apps/embodied-runtime/pkg/cameracontroller/controller.go:598-607 | a viewer goes on exactly if it finds the camera OPEN |
| `CameraHistory.ViewerGetsFrame` | apps/embodied-runtime/pkg/cameracontroller/controller.go:609-625 | a viewer that found a session open and loads while it is current gets its frame exactly if one is stored |
| `CameraHistory.FirstFrameIsSeen` | apps/embodied-runtime/pkg/cameracontroller/controller.go:598-625 | a concrete schedule: opened, one frame captured, and seen |
| `CameraProgress.CallReturns` | apps/embodied-runtime/pkg/cameracontroller/controller.go:416-442 | no deadlock: from every reachable state every open, close and view under way, and every cancelled loop, has a schedule on which it returns, with no frame, failure or new call, by steps of its own, of the capture loops and of the holder of the mutex only |
| `CameraProgress.WaitingHoldsNoLock` | apps/embodied-runtime/pkg/cameracontroller/controller.go:416-442 | the loop a close waits for gets out, its ERROR write included, without a step of that close |
| `CameraProgress.CloseEndsClosed` | apps/embodied-runtime/pkg/cameracontroller/controller.go:420-450 | every close has such a schedule to its end; the camera is then CLOSED with no loop, and with nothing at all left if no other close has the lock |
| `CameraProgress.ClosedStays` | apps/embodied-runtime/pkg/cameracontroller/controller.go:444-449 | a CLOSED camera stays CLOSED and quiet on every schedule until an open has asked the driver: no late ERROR write |
| `CameraProgress.OpenMeansRunningIff` | apps/embodied-runtime/pkg/cameracontroller/controller.go:146-148 | OPEN between opens and closes: the loop runs if and only if the session's source has not ended without an error, is gone if and only if it has left after such an end, and watchers are released exactly then or just before |
| `CameraTermination.OwnStepsEnd` | apps/embodied-runtime/pkg/cameracontroller/controller.go:268-450 | without a new call, frame, source end or panic every schedule, close calls overlapping or not, is no longer than the steps that calls and loops have left |
| `CameraTermination.EveryScheduleReturns` | apps/embodied-runtime/pkg/cameracontroller/controller.go:416-450 | from every reachable state every such schedule is bounded, and where none of these steps is left all calls have returned and no cancelled loop remains |
| `CameraSchedules.OpenWithoutLoop` | apps/embodied-runtime/pkg/cameracontroller/controller.go:806-824 | a concrete schedule that ends OPEN with no loop |
| `CameraSchedules.OverlappingClosesBreakIt` | apps/embodied-runtime/pkg/cameracontroller/controller.go:420-450 | a concrete schedule of two overlapping close calls that leaves CLOSED with a live loop and reader |
| `CameraSchedules.OverlapBreaks` | apps/embodied-runtime/pkg/cameracontroller/controller.go:420-450 | wherever a second close passes its snapshot, a continuation without further snapshot does so |
| `CameraSchedules.OneCloserIsExact` | apps/embodied-runtime/pkg/cameracontroller/controller.go:420-450 | after any step from a state reached without overlap: at most one close is past its snapshot if and only if every CLOSED state ahead, without further snapshot, is quiet |
| `CameraWatchers.WatchRunKeepsInv` | apps/embodied-runtime/pkg/cameracontroller/controller.go:652-734 | with subscribers that read the state, load parameter sets, register, receive and return at any time, every schedule keeps what they hold within their own and later sessions |
| `CameraWatchers.OwnSessionWhileAlive` | apps/embodied-runtime/pkg/cameracontroller/controller.go:652-734 | a subscriber receives frames and is primed with sets of its own session alone until that session's context is cancelled, whenever it registered, and after that of later sessions in order |
| `CameraWatchers.StaleDelivery` | apps/embodied-runtime/pkg/cameracontroller/controller.go:688-734 | a concrete schedule, no close calls overlapping, on which a subscriber of the first session receives a frame of the second |
| `CameraWatchers.JoinsAlone` | apps/embodied-runtime/pkg/cameracontroller/controller.go:652-695 | on an open camera a call left alone joins the current session, primed with the sets cached then |
| `CameraWatchers.BroadcastReaches` | apps/embodied-runtime/pkg/cameracontroller/controller.go:842-850 | a frame reaches every registered subscriber with fewer than eight waiting, over all sessions, and no other |
| `CameraWatchers.StoresWhatItBroadcasts` | apps/embodied-runtime/pkg/cameracontroller/controller.go:842-852 | a loop stores the frames it has broadcast, save perhaps the last |
| `Dag.BuildAdjacency` | apps/rlark-ui/src/utils/dag.ts:39-41 | the adjacency lists hold exactly the edges that leave a listed node |
| `Dag.Search.Dfs` | apps/rlark-ui/src/utils/dag.ts:44-53 | terminates; true only if there is a cycle; false restores the stack and leaves the node finished after all its successors |
| `Dag.FinishedIsAcyclic` | apps/rlark-ui/src/utils/dag.ts:51-52 | no finished node lies on a cycle |
| `Dag.HasCycle` | apps/rlark-ui/src/utils/dag.ts:38-58 | true if and only if some node has a non-empty path back to itself |
| `Subnet.CandidateIPs` | apps/embodied-runtime/pkg/netmac/enrich.go:140-187 | the loop lists the candidates |
| `Subnet.CandidatesMean` | apps/embodied-runtime/pkg/netmac/enrich.go:132-187 | the candidates are exactly the in-subnet addresses base.1 to base.254 other than broadcast and host, each once, in cyclic order from the start octet |
| `CidrNumbers.NetworkIsRange` | apps/embodied-runtime/pkg/netmac/enrich.go:42-59 | a network is a range of 32-bit numbers of its size, the broadcast address being the last |
| `CidrNumbers.CandidatesAreNumbers` | apps/embodied-runtime/pkg/netmac/enrich.go:140-187 | the candidates as numbers: in that range, without its last one and the host, ending in 1 to 254 |
| `CidrNumbers.CandidatesAreCyclic` | apps/embodied-runtime/pkg/netmac/enrich.go:155-186 | they come upwards from the start octet, or 100 when that is too large, and then from 1 |
| `CidrNumbers.ValidatesIff` | apps/embodied-runtime/pkg/netmac/enrich.go:61-84 | a configuration validates if and only if it is named and its address is neither first nor last of its network, /24 by default |
| `Subnet.NetworkAddressIsCandidate` | apps/embodied-runtime/pkg/netmac/enrich.go:132-135 | when the network address itself is a candidate |
| `Subnet.PickValidates` | apps/embodied-runtime/pkg/netmac/enrich_linux.go:75-81 | a pick written back with the prefix validates unless it is the network address |
| `Subnet.AllPicksValidate` | apps/embodied-runtime/pkg/netmac/enrich_linux.go:75-81 | every pick validates if and only if the network address is not a candidate |
| `Subnet.NetworkAddressFirst` | apps/embodied-runtime/pkg/netmac/enrich.go:155-186 | which networks offer their own network address first |
| `Subnet.NetworkAddressExample` | apps/embodied-runtime/pkg/netmac/enrich.go:140-187 | 10.0.0.128/25 from octet 100 is one |
| `MaskBits.ClearedIsAnd` | apps/embodied-runtime/pkg/netmac/enrich.go:95-103 | clearing low bits of an octet is the AND of the byte with the shifted mask |
| `MaskBits.FilledIsOr` | apps/embodied-runtime/pkg/netmac/enrich.go:42-59 | filling them is the OR with the inverted mask |
| `MaskBits.MaskedIsAnd` | apps/embodied-runtime/pkg/netmac/enrich.go:95-103 | an address masked to its network, as IPNet.Contains compares it, is the address ANDed with CIDRMask, byte by byte |
| `MaskBits.BroadcastIsOrNot` | apps/embodied-runtime/pkg/netmac/enrich.go:145-154 | the broadcast address is the base ORed with the inverted mask, byte by byte |
| `Subnet.PickUnusedIP` | apps/embodied-runtime/pkg/netmac/enrich.go:123-130 | the first candidate not in the used set |
| `Subnet.LowestFreeMeans` | apps/embodied-runtime/pkg/netmac/enrich.go:123-130 | the pick has only used addresses before it |
| `Subnet.HostUsedOrExcluded` | apps/embodied-runtime/pkg/netmac/enrich_linux.go:146-152 | marking the host as used and excluding it from the candidates give the same pick |
| `ArpProbe.BuildARPRequestInto` | apps/embodied-runtime/pkg/netmac/probe_linux.go:234-249 | every byte of the packet, for any length of hardware address and without a source address too |
| `ArpProbe.RequestIsNoReply` | apps/embodied-runtime/pkg/netmac/probe_linux.go:251-266 | the probe never takes its own request for a reply |
| `ArpProbe.ReplyNamesTheTarget` | apps/embodied-runtime/pkg/netmac/probe_linux.go:217-266 | the RFC 826 answer to a request is read as coming from the address asked for |
| `ArpPick.RequestOnWire` | apps/embodied-runtime/pkg/netmac/probe_linux.go:217-249 | the request byte by byte, as RFC 826 has it |
| `ArpPick.ReplyBytes` | apps/embodied-runtime/pkg/netmac/probe_linux.go:251-266 | a frame is a reply exactly by its length, ether type and operation, and names the sender |
| `ArpProbe.CollectReplies` | apps/embodied-runtime/pkg/netmac/probe_linux.go:189-207 | the receive loop, left early or not, collects the asked addresses heard from |
| `ArpProbe.ProbeBatchFree` | apps/embodied-runtime/pkg/netmac/probe_linux.go:168-215 | free is asked minus heard from |
| `ArpProbe.ProbeFreeIP` | apps/embodied-runtime/pkg/netmac/enrich_linux.go:105-139 | self-test, fallback, and batches of 16: the first candidate its own batch did not hear from |
| `ArpPick.PickMeans` | apps/embodied-runtime/pkg/netmac/enrich_linux.go:105-152 | the pick for every input: with a socket whose self-test window names the host, the first candidate its batch of sixteen did not hear from; otherwise the first not in the ARP cache, or a panic when that is unreadable and the host known |
| `ArpPick.DeafProbeExample` | apps/embodied-runtime/pkg/netmac/enrich_linux.go:119-124 | a socket that hears nothing leads to the ARP cache: 10.0.0.101 with 10.0.0.100 in it |
| `ArpProbe.ProbeRefinesLinearSearch` | apps/embodied-runtime/pkg/netmac/enrich_linux.go:126-138 | with a usable, exact probe the pick is the lowest-index free candidate of the whole list, none if and only if none is free |
| `ArpProbe.PanicsExactly` | apps/embodied-runtime/pkg/netmac/enrich_linux.go:146-152 | the fallback writes into a nil map exactly when the cache is unreadable and the host address known |
| `ArpProbe.PanicExample` | apps/embodied-runtime/pkg/netmac/enrich_linux.go:146-152 | an input that panics: 10.0.0.0/24, host 10.0.0.1, no socket, unreadable cache |
| `ArpProbe.LiveWindowSeparates` | apps/embodied-runtime/pkg/netmac/probe_linux.go:157-167 | a window in which the holders answer separates free from used addresses |
| `Enrich.FindNICForSubnet` | apps/embodied-runtime/pkg/netmac/enrich.go:95-103 | the first interface whose subnet contains the address |
| `Enrich.IPv4OnNIC` | apps/embodied-runtime/pkg/netmac/enrich.go:106-113 | the first address of the named interface |
| `Enrich.ConfigCell.EnrichMACVLANConfig` | apps/embodied-runtime/pkg/netmac/enrich_linux.go:35-82 | the whole configuration after the call, and whether it panicked |
| `Enrich.PlaceholderResolved` | apps/embodied-runtime/pkg/netmac/enrich_linux.go:35-82 | seen through an exact probe a placeholder becomes the first free candidate and validates unless that is the network address; otherwise it stays and does not validate |
| `Enrich.MissingNICResolved` | apps/embodied-runtime/pkg/netmac/enrich.go:95-103 | a missing interface becomes the first one whose subnet contains the address, and the host address is its own |
| `Enrich.OnSubnetIsSameMultiple` | apps/embodied-runtime/pkg/netmac/enrich.go:95-100 | an address is on an interface's subnet if both round down to the same multiple of its size |
| `Enrich.NamedNICResolved` | apps/embodied-runtime/pkg/netmac/enrich.go:106-113 | a named interface is kept, and the first address listed under its name is the host's |
| `Enrich.HostIsNeverPicked` | apps/embodied-runtime/pkg/netmac/enrich_linux.go:60-82 | whatever is heard or cached, the host's own address is never picked |
| `Enrich.PlaceholderExample` | apps/embodied-runtime/pkg/netmac/enrich_linux.go:35-82 | without a probe and with an empty cache 10.0.0.0 on 10.0.0.1/24 becomes 10.0.0.100/24 |
| `Enrich.ConcreteStays` | apps/embodied-runtime/pkg/netmac/enrich_linux.go:70-73 | a concrete address is never replaced |
| `Enrich.EnrichingAgain` | apps/embodied-runtime/pkg/netmac/enrich_linux.go:35-82 | enriching a validated configuration again changes nothing, whatever became of the host |
| `Macvlan.MACVLAN.Configure` | apps/embodied-runtime/pkg/netmac/macvlan_linux.go:118-171 | on success the link has its address and is up; nothing but that link changes |
| `Macvlan.MACVLAN.Destroy` | apps/embodied-runtime/pkg/netmac/macvlan_linux.go:186-202 | the link is gone if deletion works, and nothing else changes |
| `Macvlan.MACVLAN.AddAndMove` | apps/embodied-runtime/pkg/netmac/macvlan_linux.go:62-94 | a failed add, re-fetch or move leaves no link on the host |
| `Macvlan.MACVLAN.Create` | apps/embodied-runtime/pkg/netmac/macvlan_linux.go:33-106 | on success the configured link is in the target namespace; on failure all is as before, or the reused link is gone; with a kernel that refuses nothing without reason it succeeds if and only if the config is feasible, and then with no other address |
| `Macvlan.DeviceServer.EnrichForSetup` | apps/embodied-runtime/pkg/deviceplugin/device_server.go:219-226 | a completed and validated copy, or nothing |
| `Macvlan.RollBack` | apps/embodied-runtime/pkg/deviceplugin/device_server.go:198-200 | exactly the links made by the call are removed |
| `Macvlan.FailureRollsBack` | apps/embodied-runtime/pkg/deviceplugin/device_server.go:193-202 | after a failure none of the call's links is left, the pod has no new link, and nothing outside it changed |
| `Macvlan.DeviceServer.SetupPod` | apps/embodied-runtime/pkg/deviceplugin/device_server.go:177-209 | all or nothing; Created lists in order exactly the configs that validated, all present and up and feasible; with a kernel that refuses nothing without reason it fails only if one of them was not |
| `Macvlan.DeviceServer.Setup` | apps/embodied-runtime/pkg/deviceplugin/device_server.go:155-209 | the same with the callers that are refused or skipped without touching the network |
| `Macvlan.ConfigurableIff` | apps/embodied-runtime/pkg/netmac/macvlan_linux.go:143-146 | of the configs that validate exactly those with a written prefix can be configured |
| `Macvlan.PlainAddressValidates` | apps/embodied-runtime/pkg/netmac/enrich.go:63-86 | 10.0.0.5 without prefix validates but has no configurable address |
| `Macvlan.PlainAddressFailsSetup` | apps/embodied-runtime/pkg/netmac/macvlan_linux.go:143-146 | whatever else the call is given, a stored address without prefix, other than a network address, that validates keeps it from replying Created |
| `Macvlan.CreatedMeansWritten` | apps/embodied-runtime/pkg/netmac/macvlan_linux.go:143-146 | a Created reply means that every completed config has a written prefix |
| `Macvlan.ReadyIsPlainIff` | apps/embodied-runtime/pkg/deviceplugin/device_server.go:219-226 | a completed config lacks its prefix exactly if it was stored without one and is no network address |
| `SetupProtocol.StepKeepsInv` | apps/embodied-runtime/pkg/deviceplugin/device_server.go:173-205 | every step of concurrent Setup calls, pod starts and pod deaths keeps the address invariant |
| `SetupProtocol.RunKeepsInv` | apps/embodied-runtime/pkg/deviceplugin/device_server.go:53-66 | the invariant holds over every run |
| `SetupProtocol.NoSharedAddress` | apps/embodied-runtime/pkg/deviceplugin/device_server.go:53-66 | no address is ever on two links or on a link and another machine, and every one is a proper host address of its network |
| `SetupProtocol.RoundIsOneBatch` | apps/embodied-runtime/pkg/netmac/enrich_linux.go:126-137 | a round of the step machine is one batch of the probe, whatever happens between batches |
| `SetupProtocol.DeadAddressIsFree` | apps/embodied-runtime/pkg/netmac/probe_linux.go:30-35 | with its pod an address leaves the segment |
| `SetupProtocol.ScanFinds` | apps/embodied-runtime/pkg/netmac/enrich_linux.go:126-137 | an undisturbed scan, round by round, chooses the first free candidate |
| `SetupProtocol.DeadAddressIsReused` | apps/embodied-runtime/pkg/netmac/enrich_linux.go:105-110 | a dead pod's address is what the next scan picks when all before it are in use |
| `SetupRuns.FailureLeavesNothing` | apps/embodied-runtime/pkg/deviceplugin/device_server.go:193-202 | whatever happens meanwhile, a call that fails leaves its pod only links that were there, just so, when it took the lock |
| `SetupRuns.CallServesAll` | apps/embodied-runtime/pkg/deviceplugin/device_server.go:180-206 | a call left alone ends and gives the lock back, and every network gets the pod a link with a free address unless all its candidates are in use or its own address was one |
| `SetupRuns.FullIsSkipped` | apps/embodied-runtime/pkg/deviceplugin/device_server.go:187-191 | a network whose candidates all answer is skipped, and the call goes on |
| `SetupRuns.NobodyIsStuck` | apps/embodied-runtime/pkg/deviceplugin/device_server.go:171-174 | in every reachable state a waiting call can take the lock or its holder can move |
| `SetupRuns.LinksAreOwn` | apps/embodied-runtime/pkg/deviceplugin/device_server.go:173-205 | a pod's links change only by its own calls and its death |
| `SetupRuns.CreatedHas` | apps/embodied-runtime/pkg/netmac/macvlan_linux.go:128-152 | a created link has the chosen address, and old ones only if they could not be flushed |
| `SetupProtocol.NarrowLockShares` | apps/embodied-runtime/pkg/deviceplugin/device_server.go:53-66 | a concrete run in which a mutex around the pick alone gives two pods the same address |
| `ShowArgs.FeedLine` | apps/embodied-runtime/pkg/ros2controller/rospack.go:301-333 | one line of the loop |
| `ShowArgs.ParseShowArgsOutput` | apps/embodied-runtime/pkg/ros2controller/rospack.go:267-337 | the loop over all lines |
| `ShowArgs.DefaultExtracted` | apps/embodied-runtime/pkg/ros2controller/rospack.go:343-356 | the default between marker and closing, and the trimmed text before it |
| `ShowArgs.UnclosedIsText` | apps/embodied-runtime/pkg/ros2controller/rospack.go:343-352 | a marker that nothing closes is ordinary text |
| `ShowArgs.StrayTextIsKept` | apps/embodied-runtime/pkg/ros2controller/rospack.go:277-307 | indented text before the first name becomes the beginning of that argument's description |
| `ShowArgs.DocumentedForm` | apps/embodied-runtime/pkg/ros2controller/rospack.go:255-262 | the lines printed for the documented example |
| `ShowArgs.RoundTrip` | apps/embodied-runtime/pkg/ros2controller/rospack.go:252-337 | parsing the printed form gives back names, defaults, descriptions of any number of lines and flags in order |
| `ShowArgs.RequiredIff` | apps/embodied-runtime/pkg/ros2controller/rospack.go:289-294 | the required flag is right if and only if the default is not the empty string |
| `ShowArgs.EmptyDefaultExample` | apps/embodied-runtime/pkg/ros2controller/rospack.go:289-294 | the argument rate with an empty default is printed, read back and wrongly required |
| `Buffers.LastOfLast` | apps/embodied-runtime/pkg/cameracontroller/driver_ffmpeg.go:118-136 | keeping the end of what was kept and of what follows keeps the end of everything |
| `Buffers.RingWrite` | apps/embodied-runtime/pkg/roscontroller/process.go:169-179 | a write keeps the ring holding the last capacity lines in order |
| `Buffers.LogBuffer.Write` | apps/embodied-runtime/pkg/roscontroller/process.go:169-179 | the history grows by the line |
| `Buffers.LogBuffer.Lines` | apps/embodied-runtime/pkg/roscontroller/process.go:181-208 | the last capacity lines in write order, cut to the oldest ones by a positive tail |
| `Buffers.TailIsNewestIff` | apps/embodied-runtime/pkg/roscontroller/process.go:144-146 | the documented last N lines are returned for every content if and only if the tail covers all of it |
| `Buffers.TailWriter.Write` | apps/embodied-runtime/pkg/cameracontroller/driver_ffmpeg.go:128-136 | the buffer is the last cap bytes of everything written |
| `Buffers.TailWriter.String` | apps/embodied-runtime/pkg/cameracontroller/driver_ffmpeg.go:138-142 | which is what is read back |

## Left out

- ArpProbe.LiveWindowSeparates: a host that ignores ARP looks free; that every holder answers in time is its hypothesis.
- BitstreamReader.ReadLoop: the byte position is unbounded where the code has 64 bits, and the last unit stays in the buffer at the end of the stream as in the code.
- CameraLifecycle.Safety: assumes that no two close calls on one camera overlap past their snapshot, which the code does not enforce; `CameraSchedules.OneCloserIsExact` shows that it must be assumed.
- CameraTermination.EveryScheduleReturns: calls that keep starting and a source that keeps sending are outside its schedules; with them a call returns only under a fair scheduler, which is not stated.
- CameraWatchers.OwnSessionWhileAlive: which ready case of its select a subscriber takes is left open, so how long after a close it goes on receiving is not bounded; the slot the priming frame takes in the channel is not counted.
- ImageSplit.RoundTrip: the 10 MB token limit and the limit on empty reads of the scanner are not modelled; for big-endian TIFF no little-endian signature may occur in the stream.
- Macvlan.DeviceServer.SetupPod: the rollback guarantee assumes that deletions succeed (`sureDelete`); the code only logs a failed one. Default routes are not part of the network state, only the failure of adding one.
- Macvlan.MACVLAN.Create: for what other reasons the kernel refuses a call, such as a missing host interface, is its own choice; `obliging` stands for one that has none.
- SetupProtocol.NoSharedAddress: configs are network placeholders probed exactly, round by round; a failed Create and its rollback are one step; the passive ARP-cache fallback gives no such guarantee.
- Subnet.CandidatesMean: masks are arithmetic on octets, tied to machine bytes in `MaskBits`; the text of addresses is a datatype and prefixes wider than /24 scan only their first 256 addresses, as in the code.
- ShowArgs.RoundTrip: spaces are those of Latin-1; names without quotes are parsed by the model but not part of the printed form.
- Pipeline.OrderedDelivery: one session of one camera; `CameraWatchers` has several sessions, with frames known by session only, and `Delivery.OpensWithIDRIff` the filter over any mix of them.
- Pipeline.ReaderNeverBlocks: the ffmpeg reader, which drops the oldest queued frame; the remote and the synthetic reader (driver_remote.go, driver_ros.go) drop the newest instead and are not modelled.
- Frame timestamps, sizes and log lines.
- CaptureFrame and CaptureFrames beyond the load of the latest frame: request validation and copying.
- deviceListsEqual and ListAndWatch: a map comparison behind a ticker.
- RobotProcess.Stop against its watcher: a late exit callback can overwrite newer state, and no useful invariant holds.
- resolveModeConfig and preset merging, which writes into shared maps.
- gRPC, HTTP, CLI, SDK, YAML, Kubernetes clients, webhooks, certificates, generated code, UI components.
