# Verification of the us8 data-packet pipeline

us8 moves seismic data packets between processes. This project models the parts of it whose behaviour is hard to
see from one function body, and proves what they guarantee over whole runs.

- **Packets** (`Packets`, `PacketJson`, `ChannelName`): the packet class with its four sample vectors and the end
  time every mutator must keep in step; writing to and reading from a JSON object; the per-channel key.
- **Duplicate and timing-slip detector** (`Headers`, `CircularBuffers`, `Detector`, `DuplicateTester`): the
  tolerant comparison, an array ring that overwrites its front when full, and the class that keeps one ring per
  channel. `Detector` says on values what one header does; the class is proved against it. `Disjointness`,
  `LatestHeaders`, `Streams`, `Coverage` and `Channels` prove what follows for runs of any length.
- **Flag accounting** (`FlagLog`, `WindowTesters`): how flagged channels are collected and reported, and the two
  time-window testers.
- **Sanitizer** (`Sanitizer`, `SanitizerRuns`, `SanitizerVerdicts`, `SanitizerProgress`, `SanitizerProcess`): the
  subscriber callback, the tester thread and the publisher thread as atomic steps over two shared queues. An event
  list is any interleaving; a step that is not enabled does nothing, so every list is a run. The class carries out
  the steps on its queues and testers.
- **SEEDLink publisher**, **web socket write queue** and **authentication service lifecycle**
  (`SeedLinkPublisher`, `WebSocketSession`, `ZapService`).

The main results: in any run of a channel the recorded packets are pairwise disjoint in time exactly when none
strictly contained a stored one, however small the ring; the ring is throughout a run the latest part of the sorted
genuine headers exactly when no header displaces the front of a full ring for an older one; a recorded packet is
admitted a second time exactly when it was purged and now strictly contains the front of the ring unseen; a gapless
stream of packets of any lengths is admitted in full exactly when no packet shorter than the tolerance of its rate
class is followed by one of as many samples, and in any order of arrival its packets of two or more samples are
never duplicates or slips; in every interleaving of the sanitizer what reaches the socket is an ordered and
conserved selection of the input, nothing is lost while there is room, and no two packets with the same codes
overlap unless a check threw or a recorded packet contained a stored one; a receiver reads the numbers the sender
held; web socket clients get the answers to their requests one by one; after any history of calls, made at any time,
the next stop of the authentication service can get stuck exactly when the flag `mAPIStarted` does not tell whether
there is a service thread.

## Where the code differs from its documentation

- `testDuplicateDataPacket.hpp:19-23` says that packets purged from the ring will be allowed again. The code
  refuses a recorded packet below 1005 Hz when it comes again, purged or not, with one exception: a purged packet
  that strictly contains the oldest packet in the ring, compares different from every stored packet and has no end
  point in one (`Disjointness.AdmittedAgainExactly`, with the run `Disjointness.PurgedPacketAdmittedAgain`).
- A full ring that takes in a packet older than its front gives up the front for it, so it is then not the latest part
  of what came (`LatestHeaders.RingIsLatestExactly`, with the run `LatestHeaders.DisplacedRing`).
- The timing-slip test looks only at end points, so a packet that strictly contains a stored one is admitted
  (`Disjointness.EngulfingAdmitted`).
- A stored packet at a rate that rounds to 1005 or more is let through again, because its comparison throws and the
  public `allow` then answers true (`DuplicateTester.StoredPacketCaughtExactly`).
- The first packet of a channel fixes its rate for good. At any other rounded rate the comparison throws, so such a
  packet is let through each time it is offered and never recorded (`Detector.OffRateRaisedExactly`,
  `Detector.NeverRaisesExactly`, with the run `DuplicateTester.OffRateLetThroughTwice`).
- A negative maximum future time disables more than the future test: nothing is published at all
  (`SanitizerRuns.DeliversExactlyWhenTested`).
- The SEEDLink publisher's last-minute counters miss failed sends (`SeedLinkPublisher.CountersConserve`, with the
  run `SeedLinkPublisher.FailedSendUncounted`), and its callback accepts packets without a location code
  although they cannot be serialised (`SeedLinkPublisher.AcceptedSerialisesIffLocated`).
- `start` and `stop` of the authentication service are meant to return. Called before the thread has set its flag, the
  stop can join a thread that sleeps until an authentication request arrives, or return with the flag left up; the call
  after that, and the one in the destructor, waits for ever on a pipe without a peer
  (`ZapService.StopSticksExactly`, `ZapService.NoPeerIsPermanent`, with the run `ZapService.EarlyStopLeavesFlagUp`).

## Idealisations

`double` and `float` are `real`, rounded half away from zero; conversions between number types lose nothing.
Microsecond and second counts, counters and sample counts are mathematical integers. `toupper` and `isspace` are
those of the C locale. The conversion of an out-of-range quotient to `int` in the capacity estimate is undefined in
C++; `outOfRange` stands for an arbitrary result. Clock readings are inputs, one for each reading. The queues are
FIFO; whether a bounded enqueue finds room and whether a send succeeds are inputs. The testers are used by one
thread only, so one inspection (dequeued packet, three tests, enqueue) is one step. Strand handlers and completions
of the web socket run one at a time, posted ones in order. Messages of a ZeroMQ pair belong to one connection, and
a poll wakes when a message is pending.

## Model

| member | source | states |
|---|---|---|
| Rounding.RoundIsNearest | messageFormats/broadcasts/dataPacket.cpp:184-186 | rounding of durations moves a value by at most one half, and by one half only away from zero |
| Rounding.TruncateDropsFraction | broadcasts/dataPacket/sanitizer/testDuplicateDataPacket.cpp:102-102 | conversion to an integer never moves a value away from zero, and by less than one |
| Rounding.TruncatingDivideExactly | broadcasts/dataPacket/sanitizer/testFutureDataPacket.cpp:56-57 | so does the conversion of microseconds to seconds, also for negative values |
| Packets.ConvertIdempotent | messageFormats/broadcasts/dataPacket.cpp:18-24 | converting a stored code again changes nothing |
| Packets.ConvertEmpty | private/isEmpty.hpp:9-16 | a code is refused after conversion exactly when it is refused before |
| Packets.IsEmptyExactly | private/isEmpty.hpp:9-16 | refused are exactly the strings of the six white-space characters |
| Packets.ConvertDropsBlanks | messageFormats/broadcasts/dataPacket.cpp:18-24 | a blank anywhere in a code makes no difference |
| Packets.ConvertCapitalises | messageFormats/broadcasts/dataPacket.cpp:18-24 | every other character stays in place, small letters made capital |
| Packets.ConvertNormalises | messageFormats/broadcasts/dataPacket.cpp:266-270 | every accepted code is stored non-empty, in normal form, and would be accepted again |
| Packets.ApplyKeepsWellFormed | messageFormats/broadcasts/dataPacket.cpp:138-189 | each mutator keeps tag, end time, rate and codes consistent |
| Packets.WellFormedTimes | messageFormats/broadcasts/dataPacket.cpp:178-190 | the end time is the time of the last sample to half a microsecond and never precedes the start |
| Packets.EveryHistoryWellFormed | messageFormats/broadcasts/dataPacket.cpp:146-217 | after any sequence of mutators the tag names the only non-empty vector and the end time is in step |
| Packets.ApplyStores | messageFormats/broadcasts/dataPacket.cpp:146-217 | each accepted mutator stores what it was given, in its own part of the packet and in no other |
| Packets.LastWriteWins | messageFormats/broadcasts/dataPacket.cpp:146-217 | in every history a getter returns what the last accepted mutator of its part was given |
| Packets.SizeOfSamples | messageFormats/broadcasts/dataPacket.cpp:365-368 | the size is the length of the only non-empty sample vector |
| Packets.EmptySamplesIgnored | messageFormats/broadcasts/dataPacket.cpp:148-148 | setting an empty vector of any type keeps the old samples |
| Packets.DataPacket.constructor | messageFormats/broadcasts/dataPacket.cpp:220-224 | a fresh packet is empty and satisfies the class invariant |
| Packets.DataPacket.ClearData | messageFormats/broadcasts/dataPacket.cpp:138-145 | empties all four vectors and the tag, nothing else |
| Packets.DataPacket.UpdateEndTime | messageFormats/broadcasts/dataPacket.cpp:178-190 | recomputes the end time and touches nothing else |
| Packets.DataPacket.SetNetwork | messageFormats/broadcasts/dataPacket.cpp:266-270 | stores the converted code or refuses, keeping the invariant |
| Packets.DataPacket.SetStation | messageFormats/broadcasts/dataPacket.cpp:284-288 | stores the converted code or refuses, keeping the invariant |
| Packets.DataPacket.SetChannel | messageFormats/broadcasts/dataPacket.cpp:302-306 | stores the converted code or refuses, keeping the invariant |
| Packets.DataPacket.SetLocationCode | messageFormats/broadcasts/dataPacket.cpp:320-324 | stores the converted code or refuses, keeping the invariant |
| Packets.DataPacket.SetSamplingRate | messageFormats/broadcasts/dataPacket.cpp:341-351 | refuses rates that are not positive, otherwise updates rate and end time |
| Packets.DataPacket.SetStartTime | messageFormats/broadcasts/dataPacket.cpp:378-383 | updates start and end time |
| Packets.DataPacket.SetStartSeconds | messageFormats/broadcasts/dataPacket.cpp:371-376 | rounds seconds to microseconds and updates start and end time |
| Packets.DataPacket.SetInteger32 | messageFormats/broadcasts/dataPacket.cpp:146-153 | replaces the samples by a non-empty vector and keeps the invariant |
| Packets.DataPacket.SetInteger64 | messageFormats/broadcasts/dataPacket.cpp:170-177 | replaces the samples by a non-empty vector and keeps the invariant |
| Packets.DataPacket.SetFloats | messageFormats/broadcasts/dataPacket.cpp:154-161 | replaces the samples by a non-empty vector and keeps the invariant |
| Packets.DataPacket.SetDoubles | messageFormats/broadcasts/dataPacket.cpp:162-169 | replaces the samples by a non-empty vector and keeps the invariant |
| Packets.DataPacket.Clear | messageFormats/broadcasts/dataPacket.cpp:206-217 | returns to the empty packet |
| PacketJson.SerialisesIffComplete | messageFormats/broadcasts/dataPacket.cpp:26-74 | writing succeeds exactly when all codes and the rate are set |
| PacketJson.RoundTrip | messageFormats/broadcasts/dataPacket.cpp:26-96 | reading what was written restores codes, times and rate, with the samples as doubles |
| PacketJson.SamplesSurvive | messageFormats/broadcasts/dataPacket.cpp:41-95 | a receiver reads, position by position, the number the sender held, for all four sample types |
| PacketJson.FieldsSurvive | messageFormats/broadcasts/dataPacket.cpp:26-96 | a receiver reads the codes, both times and the rate of the sender |
| PacketJson.WrittenForOthers | messageFormats/broadcasts/dataPacket.cpp:37-64 | end time and type name, which are written but not read, are those of the packet |
| PacketJson.ReadsBackIffSampled | messageFormats/broadcasts/dataPacket.cpp:41-95 | what was written can be read exactly when the packet has samples |
| PacketJson.SecondPassIdentity | messageFormats/broadcasts/dataPacket.cpp:76-96 | double packets are unchanged, and a second pass is the identity |
| PacketJson.ReadPacketsWellFormed | messageFormats/broadcasts/dataPacket.cpp:76-96 | every packet that can be read satisfies the class invariant |
| PacketJson.ReadYields | messageFormats/broadcasts/dataPacket.cpp:76-96 | any object with the seven members is read exactly when no code is blank and the rate is positive, and as what |
| PacketJson.OnlySuchAreRead | messageFormats/broadcasts/dataPacket.cpp:76-96 | nothing else can be read |
| ChannelName.SplitRecoversIffDotFree | broadcasts/dataPacket/sanitizer/toName.hpp:9-30 | splitting the key at dots recovers the codes exactly when no code contains a dot |
| ChannelName.NameInjective | broadcasts/dataPacket/sanitizer/toName.hpp:9-30 | on dot-free codes the key determines the channel |
| ChannelName.DotsCollide | broadcasts/dataPacket/sanitizer/toName.hpp:23-27 | with dots two channels can share a key |
| Headers.HeaderRunsForward | broadcasts/dataPacket/sanitizer/testDuplicateDataPacket.cpp:26-45 | headers of well-formed packets do not end before they start |
| Headers.HeaderMatchesPacket | broadcasts/dataPacket/sanitizer/testDuplicateDataPacket.cpp:26-45 | a header has the times and the sample count of its packet, its rate to one half, and a name that splits into its codes |
| Headers.HeaderExactly | broadcasts/dataPacket/sanitizer/testDuplicateDataPacket.cpp:26-45 | a packet has a header exactly when it has three codes, a rate and samples |
| Headers.SameNameExactly | broadcasts/dataPacket/sanitizer/testDuplicateDataPacket.cpp:26-45 | on dot-free codes two headers share a name exactly when their packets share the codes |
| Headers.FindDifferent | broadcasts/dataPacket/sanitizer/testDuplicateDataPacket.cpp:193-197 | nothing is found exactly when every stored header compares different |
| Headers.ThrowsExactly | broadcasts/dataPacket/sanitizer/testDuplicateDataPacket.cpp:54-85 | the search throws exactly on a different rate, or on a rate of 1005 or more with an equal sample count |
| Headers.DuplicateExactly | broadcasts/dataPacket/sanitizer/testDuplicateDataPacket.cpp:54-80 | a duplicate is found exactly when an equally long stored packet starts within tolerance |
| Headers.SameExactly | broadcasts/dataPacket/sanitizer/testDuplicateDataPacket.cpp:54-85 | the four rate classes and tolerances within which two headers count as one packet |
| Headers.FoundDifferentIsNew | broadcasts/dataPacket/sanitizer/testDuplicateDataPacket.cpp:193-197 | a header that is not found is not stored |
| CircularBuffers.CircularBuffer.constructor | broadcasts/dataPacket/sanitizer/testDuplicateDataPacket.cpp:174-175 | a new buffer is empty and has the given capacity |
| CircularBuffers.CircularBuffer.PushBack | broadcasts/dataPacket/sanitizer/testDuplicateDataPacket.cpp:218-218 | appends in the array, overwriting the front when full |
| CircularBuffers.CircularBuffer.PushFront | broadcasts/dataPacket/sanitizer/testDuplicateDataPacket.cpp:228-228 | prepends in the array while there is space |
| CircularBuffers.SortByStartSorts | broadcasts/dataPacket/sanitizer/testDuplicateDataPacket.cpp:271-276 | the sort yields an ordered permutation |
| CircularBuffers.SortedPermutationUnique | broadcasts/dataPacket/sanitizer/testDuplicateDataPacket.cpp:271-276 | with distinct start times any correct sort gives the same result |
| CircularBuffers.SortBuffer | broadcasts/dataPacket/sanitizer/testDuplicateDataPacket.cpp:271-276 | sorts the ring in place |
| Detector.Capacity | broadcasts/dataPacket/sanitizer/testDuplicateDataPacket.cpp:164-170 | every ring has a positive capacity, and at least 11 when estimated |
| Detector.StepKeeps | broadcasts/dataPacket/sanitizer/testDuplicateDataPacket.cpp:153-278 | each call keeps the ring strictly ordered, forward and uniform in name and rate |
| Detector.RunKeeps | broadcasts/dataPacket/sanitizer/testDuplicateDataPacket.cpp:153-278 | so does every run |
| Detector.RaisedExactly | broadcasts/dataPacket/sanitizer/testDuplicateDataPacket.cpp:193-197 | when a check throws, and that the ring changes exactly when the header is recorded |
| Detector.OffRateRaisedExactly | broadcasts/dataPacket/sanitizer/testDuplicateDataPacket.cpp:57-62 | in every run the rate of the first packet is final: other rates throw each time and leave the ring alone |
| Detector.NeverRaisesExactly | broadcasts/dataPacket/sanitizer/testDuplicateDataPacket.cpp:57-81 | a run of rates below 1005 is free of exceptions exactly when all packets have the rate of the first |
| Detector.BackfillInserts | broadcasts/dataPacket/sanitizer/testDuplicateDataPacket.cpp:270-276 | push and sort is an ordered insertion after eviction |
| Disjointness.EndpointInsideExactly | broadcasts/dataPacket/sanitizer/testDuplicateDataPacket.cpp:243-248 | the end-point test sees exactly the overlaps that are not strict containment by the new packet |
| Disjointness.DecidedByPosition | broadcasts/dataPacket/sanitizer/testDuplicateDataPacket.cpp:213-277 | a packet that is not found is appended, prepended, too old, a slip or back-filled by its position and overlaps alone; apart from everything stored it is never a slip |
| Disjointness.AdmittedExactly | broadcasts/dataPacket/sanitizer/testDuplicateDataPacket.cpp:193-277 | the inner check answers true exactly when nothing is taken for the packet and it is behind everything, or not before everything and without a slip |
| Disjointness.RecordedApartExactly | broadcasts/dataPacket/sanitizer/testDuplicateDataPacket.cpp:213-277 | a recorded header overlaps a stored one exactly when it strictly contains one |
| Disjointness.StepRemembers | broadcasts/dataPacket/sanitizer/testDuplicateDataPacket.cpp:213-277 | each recorded header stays stored or ends before the front of a full ring |
| Disjointness.FrontMovesForward | broadcasts/dataPacket/sanitizer/testDuplicateDataPacket.cpp:213-277 | a full ring stays full and its front start never decreases |
| Disjointness.DisjointExactly | broadcasts/dataPacket/sanitizer/testDuplicateDataPacket.cpp:153-278 | over any run recorded packets are pairwise disjoint exactly when none strictly contained a stored one |
| Disjointness.AdmittedDisjoint | broadcasts/dataPacket/sanitizer/testDuplicateDataPacket.cpp:153-278 | when no recorded packet strictly contained a stored one, admitted packets are pairwise disjoint for any capacity; packets inside earlier ones may be offered |
| Disjointness.EngulfedButDisjoint | broadcasts/dataPacket/sanitizer/testDuplicateDataPacket.cpp:221-241 | that condition is not necessary for admitted packets: a run that breaks it with a packet recorded but not admitted |
| Disjointness.ConstantDurationSuffices | broadcasts/dataPacket/sanitizer/testDuplicateDataPacket.cpp:243-248 | packets of one duration never contain each other |
| Disjointness.EngulfingAdmitted | broadcasts/dataPacket/sanitizer/testDuplicateDataPacket.cpp:245-248 | a packet around a stored one is admitted and overlaps it |
| Disjointness.AdmittedAgainExactly | broadcasts/dataPacket/sanitizer/testDuplicateDataPacket.cpp:193-277 | in every run a recorded packet is admitted again exactly when it strictly contains the front, compares different from the ring and has no end point in a stored packet |
| Disjointness.PurgedPacketAdmittedAgain | broadcasts/dataPacket/sanitizer/testDuplicateDataPacket.cpp:221-277 | a run of four packets in which a purged packet is admitted again |
| LatestHeaders.StreamingSelection | broadcasts/dataPacket/sanitizer/testDuplicateDataPacket.cpp:213-277 | keeping the latest k while inserting equals taking the latest k at the end |
| LatestHeaders.StepSelectsExactly | broadcasts/dataPacket/sanitizer/testDuplicateDataPacket.cpp:213-277 | a step keeps the latest headers exactly unless it evicts the front for an older header |
| LatestHeaders.RingIsLatestExactly | broadcasts/dataPacket/sanitizer/testDuplicateDataPacket.cpp:213-277 | at every point of a run the ring is the last part of the sorted headers that were neither duplicate nor overlapping, exactly when no header displaces the front of a full ring |
| LatestHeaders.RingIsLatest | broadcasts/dataPacket/sanitizer/testDuplicateDataPacket.cpp:213-277 | so in runs that never displace the front of a full ring it is that part at the end |
| LatestHeaders.DisplacedRing | broadcasts/dataPacket/sanitizer/testDuplicateDataPacket.cpp:270-276 | a run of four packets that displaces the front and keeps the oldest instead of a later one |
| LatestHeaders.ForgottenStartEarlier | broadcasts/dataPacket/sanitizer/testDuplicateDataPacket.cpp:213-277 | in runs that never displace, such headers that are not held start before the front of a full ring |
| LatestHeaders.NeverEngulfsNeverDisplaces | broadcasts/dataPacket/sanitizer/testDuplicateDataPacket.cpp:243-277 | runs without containment meet the condition |
| Streams.TwoSamplesSuffice | broadcasts/dataPacket/sanitizer/testDuplicateDataPacket.cpp:65-80 | two sample intervals, in one packet or in two, span the tolerance in all four rate classes |
| Streams.GaplessAdmittedExactly | broadcasts/dataPacket/sanitizer/testDuplicateDataPacket.cpp:64-220 | a gapless stream of packets of any lengths is admitted in full exactly when no packet shorter than the tolerance is followed by one of as many samples |
| Streams.GaplessAdmitted | broadcasts/dataPacket/sanitizer/testDuplicateDataPacket.cpp:193-220 | gapless streams of packets with two or more samples are admitted in full, forever |
| Streams.ConstantStreamsExactly | broadcasts/dataPacket/sanitizer/testDuplicateDataPacket.cpp:64-80 | streams of equal packets are admitted in full exactly when one packet spans the tolerance |
| Streams.SingleSampleRates | broadcasts/dataPacket/sanitizer/testDuplicateDataPacket.cpp:64-80 | gapless single-sample packets are never rejected at exactly the integer rates up to 66, 105 to 222, 255 to 400 and 505 to 666 Hz |
| Streams.SingleSamplesRejected | broadcasts/dataPacket/sanitizer/testDuplicateDataPacket.cpp:65-68 | single-sample packets at 100 Hz are not |
| Streams.LateEnoughAdmitted | broadcasts/dataPacket/sanitizer/testDuplicateDataPacket.cpp:64-219 | a packet that starts 15 ms after everything offered has ended is admitted |
| Streams.AnyOrderAdmitted | broadcasts/dataPacket/sanitizer/testDuplicateDataPacket.cpp:193-277 | packets of a gapless stream may come in any order, with any missing or repeated: a new one is never a duplicate or a slip, and is admitted exactly unless it ends before the ring |
| Streams.AnyOrderGenuine | broadcasts/dataPacket/sanitizer/testDuplicateDataPacket.cpp:193-277 | so a stream in any order without repetitions has no duplicate, slip or exception |
| Streams.FixedRingFills | broadcasts/dataPacket/sanitizer/testDuplicateDataPacket.cpp:160-180 | a ring of fixed size holds as many of the last packets of a stream as its size |
| Coverage.EstimateIsLeast | broadcasts/dataPacket/sanitizer/testDuplicateDataPacket.cpp:94-103 | the estimate is the least capacity, but at least 11, that holds more than 1.5 times the memory |
| Coverage.RoundedDurationIsNearest | broadcasts/dataPacket/sanitizer/testDuplicateDataPacket.cpp:97-100 | the duration in the estimate is the nearest number of seconds |
| Coverage.CapacityInSamples | broadcasts/dataPacket/sanitizer/testDuplicateDataPacket.cpp:94-103 | beyond 11, all but one of the packets fit 1.5 times the memory, in samples and rate |
| Coverage.FullRingCovers | broadcasts/dataPacket/sanitizer/testDuplicateDataPacket.cpp:94-103 | a full ring of disjoint packets, none shorter than the first of the channel, spans more than three quarters of the requested duration times the rounded over the true rate |
| Coverage.FullRingCoversMemory | broadcasts/dataPacket/sanitizer/testDuplicateDataPacket.cpp:94-103 | so more than three quarters of it whenever the rate was not rounded down |
| Coverage.StreamCovers | broadcasts/dataPacket/sanitizer/testDuplicateDataPacket.cpp:94-103 | every gapless stream reaches such a ring: from the packet on that fills the ring, it covers the requested duration |
| Channels.ChannelsIndependent | broadcasts/dataPacket/sanitizer/testDuplicateDataPacket.cpp:160-184 | ring and decisions of a channel are those of its own headers alone |
| Channels.AllRingsWellKept | broadcasts/dataPacket/sanitizer/testDuplicateDataPacket.cpp:162-180 | exactly the channels seen have a ring, and each is well kept |
| Channels.RecordedDisjointExactly | broadcasts/dataPacket/sanitizer/testDuplicateDataPacket.cpp:153-278 | in any interleaving of channels recorded packets of a channel never overlap exactly when none strictly contained a stored one |
| Channels.AdmittedDisjointPerChannel | broadcasts/dataPacket/sanitizer/testDuplicateDataPacket.cpp:153-278 | then no two admitted packets of a channel overlap either |
| Channels.ClassifiedNeverRaises | broadcasts/dataPacket/sanitizer/testDuplicateDataPacket.cpp:57-81 | with one rate below 1005 in each channel no check throws, however the packets overlap |
| FlagLog.FlagsAccounted | broadcasts/dataPacket/sanitizer/testExpiredDataPacket.cpp:41-85 | a flag is in a report or pending exactly when it was raised since the report before |
| FlagLog.ReportsSpaced | broadcasts/dataPacket/sanitizer/testExpiredDataPacket.cpp:70-83 | reports are at least the interval apart |
| FlagLog.ReportedExactly | broadcasts/dataPacket/sanitizer/testFutureDataPacket.cpp:70-83 | a report is made exactly when the interval has passed and something was flagged; it has the time of the call and leaves nothing pending |
| FlagLog.SilentWhenOff | broadcasts/dataPacket/sanitizer/testFutureDataPacket.cpp:46-46 | a negative interval switches reports off |
| FlagLog.WholeSeconds | broadcasts/dataPacket/sanitizer/testFutureDataPacket.cpp:56-57 | the clock of the log counts whole seconds |
| FlagLog.ChannelLog.LogBadData | broadcasts/dataPacket/sanitizer/testFutureDataPacket.cpp:42-86 | one call gathers the flag and reports when due |
| WindowTesters.NamedExactly | broadcasts/dataPacket/sanitizer/toName.hpp:9-30 | a packet is named exactly when its three codes are set, and a dot-free name splits into its codes |
| WindowTesters.NamesAgree | broadcasts/dataPacket/sanitizer/testDuplicateDataPacket.cpp:26-45 | the testers speak of a packet by one name |
| WindowTesters.EndTimeExactly | messageFormats/broadcasts/dataPacket.cpp:390-401 | the end time can be asked for exactly when the rate is set and there are samples |
| WindowTesters.TestFutureDataPacket.Allow | broadcasts/dataPacket/sanitizer/testFutureDataPacket.cpp:162-188 | allows exactly packets ending by now plus the maximum, and flags the others |
| WindowTesters.TestExpiredDataPacket.Allow | broadcasts/dataPacket/sanitizer/testExpiredDataPacket.cpp:163-185 | allows exactly packets starting no earlier than now minus the maximum, and flags the others |
| DuplicateTester.StoredPacketCaughtExactly | broadcasts/dataPacket/sanitizer/testDuplicateDataPacket.cpp:409-418 | a stored packet offered again is caught exactly when its rate is below 1005 |
| DuplicateTester.FlaggedExactly | broadcasts/dataPacket/sanitizer/testDuplicateDataPacket.cpp:193-266 | which refused packets raise the duplicate flag, which the timing flag, and which none |
| DuplicateTester.OffRateLetThroughTwice | broadcasts/dataPacket/sanitizer/testDuplicateDataPacket.cpp:409-418 | a packet of another rate inside a stored packet is let through each time it is offered |
| DuplicateTester.FindIn | broadcasts/dataPacket/sanitizer/testDuplicateDataPacket.cpp:193-196 | the search loop computes the first decisive comparison |
| DuplicateTester.FindSlip | broadcasts/dataPacket/sanitizer/testDuplicateDataPacket.cpp:243-266 | the loop reports a slip exactly when an end point lies in a stored interval |
| DuplicateTester.Admit | broadcasts/dataPacket/sanitizer/testDuplicateDataPacket.cpp:192-277 | the in-place ring follows the step function in every branch |
| DuplicateTester.TestDuplicateDataPacket.constructor | broadcasts/dataPacket/sanitizer/testDuplicateDataPacket.cpp:317-347 | no rings, empty log |
| DuplicateTester.TestDuplicateDataPacket.AdmitHeader | broadcasts/dataPacket/sanitizer/testDuplicateDataPacket.cpp:153-278 | only the ring of the header's channel changes, as the step function says |
| DuplicateTester.TestDuplicateDataPacket.LogBadData | broadcasts/dataPacket/sanitizer/testDuplicateDataPacket.cpp:115-152 | both kinds of flags are reported and cleared together when due |
| DuplicateTester.TestDuplicateDataPacket.Allow | broadcasts/dataPacket/sanitizer/testDuplicateDataPacket.cpp:393-429 | header failures refuse, thrown checks let through, everything else follows the detector |
| SanitizerRuns.DeliveredInOrder | broadcasts/dataPacket/sanitizer/sanitizer.cpp:155-287 | packets handed to the socket are an order-preserving subsequence of those accepted |
| SanitizerRuns.RunConserves | broadcasts/dataPacket/sanitizer/sanitizer.cpp:174-287 | every accepted packet is in exactly one place: a queue, in hand, dropped, rejected, refused or handed over |
| SanitizerRuns.RunPopsWhatWasSent | broadcasts/dataPacket/sanitizer/sanitizer.cpp:270-287 | the packet popped is the one just handed to the socket |
| SanitizerRuns.RunFaithful | broadcasts/dataPacket/sanitizer/sanitizer.cpp:187-215 | every judgement and the rings are those of the detector run on the packets inspected before |
| SanitizerRuns.DeliveredInWindow | broadcasts/dataPacket/sanitizer/sanitizer.cpp:192-199 | every packet handed over met both time bounds, in milliseconds and seconds, in an inspection that let it pass |
| SanitizerRuns.PassedAreChosen | broadcasts/dataPacket/sanitizer/sanitizer.cpp:200-207 | the packets that passed are those the detector let through |
| SanitizerRuns.DeliveredDisjoint | broadcasts/dataPacket/sanitizer/sanitizer.cpp:155-287 | in every interleaving no two packets with the same codes handed to the socket overlap, if no check threw and no recorded packet strictly contained a stored one |
| SanitizerRuns.TameInputDisjoint | broadcasts/dataPacket/sanitizer/sanitizer.cpp:155-287 | both hold for every input with one rate below 1005 and no containment in each channel |
| SanitizerRuns.PassedHaveHeaders | broadcasts/dataPacket/sanitizer/sanitizer.cpp:200-207 | every packet that passed the duplicate test has a header, so none escapes the detector |
| SanitizerRuns.DeliversExactlyWhenTested | broadcasts/dataPacket/sanitizer/sanitizer.cpp:189-207 | some run hands something over exactly when the future test is on |
| SanitizerRuns.NothingPassesUntested | broadcasts/dataPacket/sanitizer/sanitizer.cpp:189-207 | with the future test off no run hands anything over |
| SanitizerRuns.BadClocksDoNotPoison | broadcasts/dataPacket/sanitizer/sanitizer.cpp:192-203 | packets from bad clocks cannot block data later than the last test plus the allowed future and 15 ms |
| SanitizerVerdicts.JudgedExactly | broadcasts/dataPacket/sanitizer/sanitizer.cpp:189-207 | which test rejects a packet, from the options in their units and the clock |
| SanitizerVerdicts.PassedExactly | broadcasts/dataPacket/sanitizer/sanitizer.cpp:187-215 | in every interleaving an inspected packet passes exactly when the future test is on, its times are known and within bounds, and the detector is off or lets it through |
| SanitizerVerdicts.OfferedExactly | broadcasts/dataPacket/sanitizer/sanitizer.cpp:189-207 | the detector is offered exactly the headers of packets that no earlier test rejected |
| SanitizerVerdicts.SanitizerRingCovers | broadcasts/dataPacket/sanitizer/sanitizer.cpp:75-87 | the rings cover more than three quarters of the duration option, in seconds |
| SanitizerVerdicts.SanitizerRingBounded | broadcasts/dataPacket/sanitizer/sanitizer.cpp:75-87 | beyond 11 packets they hold no more than 1.5 times that duration asks for |
| SanitizerProgress.AcceptedExactly | broadcasts/dataPacket/sanitizer/sanitizer.cpp:155-159 | accepted are exactly the packets received while there was room, in order |
| SanitizerProgress.NothingLost | broadcasts/dataPacket/sanitizer/sanitizer.cpp:155-287 | while the queues keep within their limits nothing is dropped: every packet that passed is handed over or waiting, as a sequence |
| SanitizerProgress.PublisherDrains | broadcasts/dataPacket/sanitizer/sanitizer.cpp:258-287 | from every point the publisher alone can hand over all that waits, in order |
| SanitizerProgress.TesterDrains | broadcasts/dataPacket/sanitizer/sanitizer.cpp:174-215 | from every point the tester alone can inspect all that is queued, in order |
| SanitizerProgress.SendRecords | broadcasts/dataPacket/sanitizer/sanitizer.cpp:270-283 | what is handed over is the front, which stays queued, whether or not the send succeeds |
| SanitizerProcess.Process.constructor | broadcasts/dataPacket/sanitizer/sanitizer.cpp:59-87 | a tester exists exactly when its option asks for it |
| SanitizerProcess.Process.InputPacketsToQueueCallback | broadcasts/dataPacket/sanitizer/sanitizer.cpp:155-159 | performs the receive step |
| SanitizerProcess.Process.DrainInput | broadcasts/dataPacket/sanitizer/sanitizer.cpp:174-185 | the loop ends, drops the oldest packets and leaves the newest 256 |
| SanitizerProcess.Process.TryDequeue | broadcasts/dataPacket/sanitizer/sanitizer.cpp:186-187 | performs the take step |
| SanitizerProcess.Process.Test | broadcasts/dataPacket/sanitizer/sanitizer.cpp:189-203 | the three testers together give the judgement, and an exception only from the future test |
| SanitizerProcess.Process.CheckPacket | broadcasts/dataPacket/sanitizer/sanitizer.cpp:187-215 | performs the inspection step with the real testers |
| SanitizerProcess.Process.DrainOutput | broadcasts/dataPacket/sanitizer/sanitizer.cpp:258-269 | the loop ends, drops the oldest packets and leaves the newest 256 |
| SanitizerProcess.Process.PeekAndSend | broadcasts/dataPacket/sanitizer/sanitizer.cpp:270-283 | performs the send step on the front |
| SanitizerProcess.Process.PopSent | broadcasts/dataPacket/sanitizer/sanitizer.cpp:284-287 | performs the pop step |
| SeedLinkPublisher.TrimExactly | broadcasts/dataPacket/seedLink/publisher.cpp:270-283 | the newest packets stay, as many as 1024 of them, and the others go, oldest first, as skipped |
| SeedLinkPublisher.RoundExactly | broadcasts/dataPacket/seedLink/publisher.cpp:268-311 | in one round exactly the excess and then the oldest packet left are removed, the latter as sent if it serialises and the socket takes it |
| SeedLinkPublisher.ResetsExactly | broadcasts/dataPacket/seedLink/publisher.cpp:303-342 | when the counters of the log and of the last 60 seconds start again |
| SeedLinkPublisher.AcceptableExactly | broadcasts/dataPacket/seedLink/publisher.cpp:346-377 | the callback takes exactly the packets the duplicate detector can make a header of |
| SeedLinkPublisher.AcceptedExactly | broadcasts/dataPacket/seedLink/publisher.cpp:346-385 | accepted are exactly the complete packets that came while there was room, in order |
| SeedLinkPublisher.RunExact | broadcasts/dataPacket/seedLink/publisher.cpp:268-343 | first in, first out; all four counters count the removals since their reset |
| SeedLinkPublisher.CountersConserve | broadcasts/dataPacket/seedLink/publisher.cpp:270-342 | sent plus not sent is what was removed since the reset; for the last minute exactly when no send failed |
| SeedLinkPublisher.FailedSendUncounted | broadcasts/dataPacket/seedLink/publisher.cpp:294-311 | a packet without a location code is removed and missing from the last-minute counters |
| SeedLinkPublisher.AcceptedSerialisesIffLocated | broadcasts/dataPacket/seedLink/publisher.cpp:346-384 | an accepted packet serialises exactly when it has a location code |
| SeedLinkPublisher.SentIsReadable | broadcasts/dataPacket/seedLink/publisher.cpp:285-301 | from everything sent receivers rebuild codes, times, rate and, as doubles, every sample |
| SeedLinkPublisher.Publisher.TrimQueue | broadcasts/dataPacket/seedLink/publisher.cpp:270-283 | the loop ends and leaves the newest 1024 packets, or all if there are fewer |
| SeedLinkPublisher.Publisher.SendPacketsViaZeroMQ | broadcasts/dataPacket/seedLink/publisher.cpp:268-343 | one round trims, sends the front, pops it and resets counters when due |
| SeedLinkPublisher.Publisher.AddPacketsFromAcquisitionCallback | broadcasts/dataPacket/seedLink/publisher.cpp:346-385 | throws exactly on incomplete packets, otherwise enqueues when there is room |
| WebSocketSession.ProtocolHolds | services/webServer/server.hpp:558-609 | one write at most, of the queue front, which stays queued; without failure a write is outstanding exactly when the queue is non-empty |
| WebSocketSession.RepliesInOrder | services/webServer/server.hpp:469-609 | the client receives the replies in request order, and all of them once nothing is left |
| WebSocketSession.RepliesAnswer | services/webServer/server.hpp:469-533 | there is one reply for each request that arrives before a read fails, in order: the response of the callback, or the error message |
| WebSocketSession.RequestsAnswered | services/webServer/server.hpp:469-609 | what the client has received answers its requests one by one, whatever fails meanwhile |
| WebSocketSession.ReadsUntilFailure | services/webServer/server.hpp:469-533 | reading goes on exactly until a read fails or finds the socket closed |
| WebSocketSession.FailedExactly | services/webServer/server.hpp:583-593 | a write has failed exactly when the completion of an outstanding write said so |
| WebSocketSession.FailureIsFinal | services/webServer/server.hpp:583-593 | after a failed write none ever starts again |
| WebSocketSession.DrainsCompletely | services/webServer/server.hpp:558-609 | without failure the posted handlers and completions alone deliver every reply |
| WebSocketSession.Session.AsyncWrite | services/webServer/server.hpp:573-577 | is only ever called when no write is outstanding |
| WebSocketSession.Session.OnReadHandler | services/webServer/server.hpp:469-533 | posts exactly one reply for each request, or stops reading |
| WebSocketSession.Session.QueueSendHandler | services/webServer/server.hpp:558-581 | queues the reply and starts a write only for the first |
| WebSocketSession.Session.OnWriteHandler | services/webServer/server.hpp:583-609 | pops the written front and starts the next write |
| ZapService.StepKeepsLifecycle | messaging/zeromq/authentication/service.cpp:94-165 | with calls made when ready, every atomic action of either thread keeps the lifecycle |
| ZapService.ShutdownSafe | messaging/zeromq/authentication/service.cpp:94-165 | with calls made when ready no join hangs, TERMINATE always has a receiver, and both flags are down after the join |
| ZapService.JoinReturns | messaging/zeromq/authentication/service.cpp:135-165 | at most eight steps of the service thread end every join of a stop called when the flag was right, seven if the thread was ready |
| ZapService.ConsistentHolds | messaging/zeromq/authentication/service.cpp:94-165 | what every run keeps with calls made at any time |
| ZapService.StopSticksExactly | messaging/zeromq/authentication/service.cpp:313-323 | after any history with calls made at any time, a stop, and the stop at the beginning of a start, can get stuck in its send or its join exactly when the flag does not tell whether there is a thread |
| ZapService.ReadyStopSticksExactly | messaging/zeromq/authentication/service.cpp:313-323 | when all earlier calls were made when ready, exactly when the thread has not yet set the flag |
| ZapService.EarlyStopLeavesFlagUp | messaging/zeromq/authentication/service.cpp:102-165 | a run in which a stop made too early returns with the flag up and no thread |
| ZapService.NoPeerIsPermanent | messaging/zeromq/authentication/service.cpp:315-319 | the call after that never returns, whatever is requested or called |
| ZapService.HangIsPermanent | messaging/zeromq/authentication/service.cpp:135-139 | without an authentication request a hung join never ends |
| ZapService.RequestEndsHang | messaging/zeromq/authentication/service.cpp:135-165 | with one it ends, but the flag is left up without a thread |
| ZapService.TerminateEndsThread | messaging/zeromq/authentication/service.cpp:135-165 | a thread that finds TERMINATE ends in five steps of its own, with both flags down |
| ZapService.Service.Stop | messaging/zeromq/authentication/service.cpp:313-323 | a stop called when the flag is right returns in every interleaving, whatever was called before, with the thread gone; if the thread was ready, with both flags down |
| ZapService.Service.Advance | messaging/zeromq/authentication/service.cpp:313-323 | each action of the caller keeps what every run keeps; in a stop called when the flag was right it never gets stuck and brings the stop closer to its end; a join that returns leaves the thread gone |
| ZapService.Service.RunZAPThread | messaging/zeromq/authentication/service.cpp:102-165 | each action of the service thread keeps what every run keeps; while a stop called when the flag was right waits for the thread, each brings the wait closer to its end |

## Left out

- CBOR encoding of the JSON object, and JSON text: done by a library.
- PacketJson.ReadsBackIffSampled: reading a JSON object without a member it needs is undefined behaviour in the source; here it fails.
- `setData` with a pointer and a length: it copies into a vector and calls the vector overload.
- Copying and moving of packets and testers, and the mutexes inside the testers: they are used by one thread.
- The counters and the periodic log line of the sanitizer's two threads; the same counting is proved for the SEEDLink publisher.
- Starting and stopping the sanitizer's threads, the subscriber and the sockets.
- SEEDLink record parsing, selectors, option parsing, signal handling and the OpenTelemetry export.
- The decisions of the authentication service about addresses and credentials, and its replies.
- HTTP requests, TLS and the handshake of the web server; only the write queue of a session is modelled.
- Exceptions of socket calls in the service thread, and its ready messages, which nobody reads.
- Steps of the acquisition callback inside one round of the SEEDLink publishing loop; finer interleaving is modelled for the sanitizer.
- Ring indices are unbounded integers; the memory order of the shared flags is sequentially consistent.
- Coverage.FullRingCovers: promises nothing about rings that hold packets shorter than the first of the channel, because the source takes the capacity from the first packet alone.
- SanitizerRuns.DeliveredDisjoint: promises nothing when a check threw or a recorded packet strictly contained a stored one; either can let overlapping packets through (`DuplicateTester.OffRateLetThroughTwice`, `Disjointness.EngulfingAdmitted`).
