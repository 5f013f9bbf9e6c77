# Verified model of the tickchaos FIX framer, rate limiter and proxy loop

tickchaos degrades market-data traffic on purpose. Two of its parts have to be right for a run to be
usable as evidence: the FIX framer, which cuts messages out of a TCP byte stream, and the proxy loop,
which decides, delays, duplicates, drops and forwards datagrams. This project models both, with the
token-bucket rate limiter and the MoldUDP64 sequence filter, and proves what they promise over every
stream, every chunking, every history of arrivals and every run.

## The modules

- `Wrappers`, `Bytes`, `Digits`: results, slices and machine words; decimal digits, with the
  overflow-checked parser as a loop.
- `FixLayout`: the framer's verdict on a buffer, branch by branch as in the source; the grammar of a
  frame as an independent definition; permanence of verdicts. `FixErrors`: the table of verdicts.
- `FixDomain`, `FixHeaders`: messages; the header parser as a loop, and its declarative reading.
- `FixFraming`, `FixChunking`, `FixStreams`: the framer as a value, arbitrary interleavings of feeding
  and asking, whole streams, the printer. `FixNumerals`: the grammar in byte numerals. `FixFramers`: the
  framer as a class.
- `FixReceiving`, `FixConnections`: receiving over a socket as a function of what its reads return,
  and the classes `FixConnection` and `FixReader` with their read loops.
- `Binary64`: rounding to the nearest double. `Packets`, `RateLimiters`: datagrams; the token bucket as
  a class and over its history, with or without rounding. `LimiterLaws`: no choice forwards more.
  `LimiterDoubles`: the limiter in double precision: how far off, where it matters and where not.
- `Operators`, `Flows`: the seven operators, and any other, as deterministic steps; the chain of
  operators as a class. `OperatorLaws`: each operator alone, draw by draw.
- `MoldUdp64`, `Proxies`: sequence numbers; the proxy loop as a state machine and as a class.
  `ProxyRuns`: what every run keeps. `ProxyDecisions`: what decisions depend on, reloads included.
  `SequenceFilter`, `ProxyOperators`: end to end, what the operators do to the datagrams of a run.

Code that updates fields or runs a loop in the source is a class or a method here, proved against a
function; what the source promises is then proved about that function.

## How the model reads the source

- Machine words are 64 bits wide; additions of words are checked for overflow as in the source.
- The framer never sees the clock: the instant of arrival is a parameter of the methods.
- A socket is the list of what its reads are going to return: bytes, the end of the stream, or an
  error. After the list it is at its end.
- The proxy's environment is a list of rounds, one per turn of the loop: what is published before
  and after the slot is swapped, whether the loop holds the only reference to the flow it takes,
  which branch of the wait completes, and whether the send it causes succeeds. Timers may expire in
  any order. A journal records decisions, attempts and queue insertions for the statements only.
- The generator is an opaque pair of deterministic functions of its state; the theorems hold for all.
  Where a theorem needs that a chance of 0 never hits and one of 1 always does, or that a range is
  answered within its bounds, it says so (`Certain`, `KeepsRange`).
- The limiter computes in double precision, as the source does: seconds, product and sum are rounded
  one by one to the nearest double, ties to even (`BINARY64`); taking a token off rounds nothing
  (`SpendIsExact`). Times are in nanoseconds. The laws of its history are proved for any rounding of
  the refill, `EXACT` among them, and `Binary64SlipsAtMost` bounds the rounding of the program's.

## Where code and documentation disagree

- The framer's documentation says that the retained buffer holds at most one incomplete message. That
  is so once it has been asked until it has nothing more; feeding alone appends without bound, and
  the read loop may hold up to one incomplete message and one read. `FedTwice` has two whole messages
  in the buffer of a framer that was not asked.
- The comment on the checksum field says that BodyLength counts up to the SOH before `10=`. The code
  does not look at the last byte of the body, only at the seven bytes after it (`BodyWithoutSoh`).
- The kind of a framing failure depends on the chunking in one corner: when the first SOH stands at
  index 30 or 31, a scan of 32 or 33 bytes gives up before both bytes of `9=` are seen. `KindIndependentIff`
  gives the exact condition and `KindDependsOnChunking` a stream of 33 bytes.
- The proxy says that a published flow is picked up in the next iteration. If somebody still holds a
  reference to it when the slot is emptied, it is lost and the old flow goes on (`FullSlotDecides`,
  `LostFlowIsForgotten`; `LostReload` is such a round).
- The limiter is to forward a packet whenever the rate has room for it. In double precision the tokens
  of several refills can add up to just under one where they should add up to one, and the packet is
  dropped. With one packet a second and arrivals at 0, 0.3, 0.9 and 1 second the last is dropped at
  0.9999999999999999 tokens (`DoublesFallShort`); with ten a second, ten arrivals at once and then one
  every 10 ms, the tenth refill ends at 0.9999999999999999, and after twenty such arrivals 11 have been
  forwarded where exact arithmetic forwards 12. `ForwardedIffWindowsFit` is the exact law with the
  rounding in it, `RateHoldsInBinary64` the law up to five roundings of a full bucket for each refill.
  While these stay below a billionth of a token in all, only a window that the packet would fill to the
  last billionth can be told from exact arithmetic (`OnlyFullWindowsTell`), and steady arrivals are
  never dropped at all (`SteadyRateNeverDrops`).
- Overflowing packets are said to be dropped; the original of a duplicate is still sent, and neither
  case is counted as `dropped` (`DuplicateMeetsFullQueue`).

## Model

| member | source | states |
|---|---|---|
| Digits.ParseDigits | src/protocols/fix.rs:200-210 | a value if and only if the field is nonempty, all digits, and denotes at most 2^64-1; the overflow checks at each step lose nothing |
| Digits.ParsedByBytes | src/protocols/fix.rs:200-210 | byte by byte, in numerals: an empty field is no number, bytes 48 to 57 are the digits, each appends a decimal place as long as the number fits 64 bits, and any other byte spoils the field |
| Digits.ParsedDecimal | src/protocols/fix.rs:200-210 | parsing inverts decimal printing exactly for the numbers that fit 64 bits |
| Digits.PaddedDecimal | src/protocols/fix.rs:200-210 | a printed number with any zeros in front parses to itself, or to nothing beyond 64 bits |
| Digits.LeadingZeros | src/protocols/fix.rs:200-210 | leading zeros change neither whether a field parses nor its value |
| FixLayout.ScanSoh | src/protocols/fix.rs:189-198 | the first SOH from an index on within the 32-byte window, an error if the window is full without one, "not yet" otherwise |
| FixLayout.PrefixVerdictPermanent | src/protocols/fix.rs:184-187 | a mismatch with a prefix is final; a match is final once the whole prefix has been seen |
| FixLayout.AssembledIsFramed | src/protocols/fix.rs:116-182 | every well-formed message is framed at its own length with its own body range, whatever follows |
| FixLayout.FramedIsAssembled | src/protocols/fix.rs:116-182 | whatever is framed is a well-formed message of the grammar |
| FixLayout.FramedIffGrammar | src/protocols/fix.rs:116-182 | a verdict is a given frame if and only if a well-formed message with that layout stands at the front |
| FixLayout.TooLongRefused | src/protocols/fix.rs:140-149 | a message over 16 KiB is refused as too long on its header, before its body is buffered |
| FixLayout.FrameBounds | src/protocols/fix.rs:140-164 | a frame is 14 to 16384 bytes long and contains its body range |
| FixLayout.FrameIsPermanent | src/protocols/fix.rs:116-165 | a frame verdict stays the same when more bytes arrive |
| FixLayout.FrameIsLocal | src/protocols/fix.rs:116-165 | a frame verdict stays the same when bytes after the frame are missing |
| FixLayout.HeaderPermanent | src/protocols/fix.rs:131-164 | once both header fields are delimited every verdict but "not yet" is final |
| FixLayout.ErrorIsPermanent | src/protocols/fix.rs:116-198 | an error never goes away with more bytes; its kind changes exactly in the open corner, from HeaderTooLong to BadBodyLength |
| FixLayout.OpenKindIsHeaderTooLong | src/protocols/fix.rs:189-198 | in the open corner the verdict is HeaderTooLong |
| FixLayout.PrefixCode | src/protocols/fix.rs:116-165 | no accepted frame is a proper prefix of another |
| FixLayout.FrameLayout | src/protocols/fix.rs:116-165 | the accepted frames are exactly the byte strings framed as a whole |
| FixErrors.HeaderVerdict | src/protocols/fix.rs:135-164 | after the header: BadBodyLength, MessageTooLong, not yet, BadChecksumField or a frame, by the announced length and the tail |
| FixErrors.ShapeDecides | src/protocols/fix.rs:116-165 | the verdict, error kinds included, for each shape the bytes can have |
| FixErrors.ShapeExists | src/protocols/fix.rs:116-165 | the shapes are exhaustive |
| FixHeaders.ParseHeader | src/protocols/fix.rs:217-251 | the loop lifts the last 34, 35 and 43 of the fields of the body range, as ranges into the raw bytes |
| FixHeaders.ReadField | src/protocols/fix.rs:217-251 | one field overwrites exactly the entry its tag names, and nothing is read outside the message |
| FixHeaders.HeaderMeaning | src/protocols/fix.rs:217-251 | splitting the body at SOH and each field at its first `=`: the sequence number is missing exactly when the last 34 is absent, empty, not all digits or over 64 bits and is otherwise the number it denotes; the type is the last 35, from a range inside the body; the flag is whether the last 43 is `Y` |
| FixHeaders.PrintedFieldsRead | src/protocols/fix.rs:217-251 | reading a printed list of fields finds for every tag the value printed last |
| FixFraming.Poll | src/protocols/fix.rs:92-114 | a message takes at least 14 bytes out of the buffer; "nothing yet" leaves it below 16 KiB; an error is remembered |
| FixFraming.Drained | src/protocols/fix.rs:92-114 | draining ends after at most one message per 14 bytes buffered |
| FixFraming.CutsConserve | src/protocols/fix.rs:98-106 | the raw messages followed by the rest are the stream |
| FixFraming.CutsAreWhole | src/protocols/fix.rs:98-106 | every message cut is an accepted frame and its header depends on its own bytes only |
| FixFraming.CutsMore | src/protocols/fix.rs:80-106 | more bytes leave the messages already cut as they are |
| FixFraming.CutsDrain | src/protocols/fix.rs:92-106 | draining a stream gives the messages cut so far and then what the rest drains to |
| FixChunking.RunCuts | src/protocols/fix.rs:80-114 | after any schedule the messages handed out are the first frames of the bytes fed, and the buffer or the failure accounts for the rest |
| FixChunking.ChunkingIndependence | src/protocols/fix.rs:80-165 | for every schedule, messages, final buffer and failure are those of feeding the bytes at once; only HeaderTooLong may stand for BadBodyLength |
| FixChunking.ScheduleConserves | src/protocols/fix.rs:80-114 | unfailed, raw messages and buffer are the bytes fed; failed, the raw messages are a prefix of them and the buffer is empty |
| FixChunking.KindIndependentIff | src/protocols/fix.rs:116-198 | every schedule of a stream has the same outcome, kind included, exactly when no `9=` is refuted later than byte 32 of the failing message |
| FixChunking.LateRefutationShows | src/protocols/fix.rs:116-198 | otherwise a schedule exists that reports HeaderTooLong where feeding at once reports BadBodyLength |
| FixChunking.KindDependsOnChunking | src/protocols/fix.rs:116-198 | a stream of 33 bytes with two kinds of failure |
| FixStreams.FramesCut | src/protocols/fix.rs:92-106 | frames in front of a stream are cut off one by one, unchanged |
| FixStreams.FedTwice | src/protocols/fix.rs:80-85 | feeding alone keeps two whole messages buffered, which asking then hands out |
| FixStreams.CleanIffFrames | src/protocols/fix.rs:92-165 | a stream drains to a fresh framer exactly when it is a concatenation of accepted frames |
| FixStreams.UniqueSplit | src/protocols/fix.rs:116-165 | a stream splits into frames in at most one way |
| FixStreams.PrintedIsFramed | src/protocols/fix.rs:259-265 | a printed message is framed at its own length exactly when it is within the cap, and refused as too long over it |
| FixStreams.BodyWithoutSoh | src/protocols/fix.rs:151-164 | a message whose body does not end a field is framed |
| FixStreams.PrintThenFrame | src/protocols/fix.rs:259-265 | messages printed around any bodies and fed in any chunks come back in order with nothing left |
| FixStreams.PrintedHeadersComeBack | src/protocols/fix.rs:217-265 | whatever the bodies, every message that comes back holds what splitting its own body gives |
| FixStreams.PrintedFieldsComeBack | src/protocols/fix.rs:217-265 | and, for bodies printed from fields, the values printed last under 34, 35 and 43, the number written out |
| FixStreams.PrintedNumberIsHeld | src/protocols/fix.rs:242 | a number printed last under 34, with zeros in front or not, comes back as itself if it fits 64 bits and as none if not |
| FixNumerals.FramesAreSpelled | src/protocols/fix.rs:116-182 | in byte numerals and without the framer's names: the accepted frames are exactly 56 61, bytes but 1, 1 57 61, digits, 1, a body of that length, 49 48 61, three digits, 1, within the limits of 32 and 16384 bytes |
| FixNumerals.SpelledIsFramed | src/protocols/fix.rs:116-165 | such a message is framed whatever follows, with its own body |
| FixNumerals.CapInNumerals | src/protocols/fix.rs:146-149 | a printed message of 16384 bytes is framed and one of 16385 refused |
| FixNumerals.HeartbeatIsPrinted | src/protocols/fix.rs:259-265 | one message in numerals, checksum 217 included |
| FixNumerals.HeartbeatIsRead | src/protocols/fix.rs:92-251 | it is handed out whole, with number 12, type `0` and the duplicate flag |
| FixFramers.FixFramer.Extend | src/protocols/fix.rs:80-85 | appends to the buffer, or does nothing once failed |
| FixFramers.FixFramer.NextMessage | src/protocols/fix.rs:92-114 | moves the framer as one poll and returns the cut message with direction and instant, or the error |
| FixReceiving.Recv | src/transport/tcp.rs:111-127 | a failed framer reports its error for ever, without reading; a clean close leaves a fresh framer; a message makes progress |
| FixReceiving.RecvConserves | src/transport/tcp.rs:111-127 | no receipt loses a byte unless the framer fails: buffered and coming bytes are the message, the bytes buffered after it and those still to come, also after an I/O error or a close in the middle of a message |
| FixReceiving.EndRepeats | src/transport/tcp.rs:111-127 | after a framing error or a clean close every later receipt on the closed socket gives the same again |
| FixReceiving.ReceivesDrained | src/transport/tcp.rs:111-127 | from any buffer on, receiving reads off the drained stream and ends as it must |
| FixReceiving.CleanCloseExact | src/transport/tcp.rs:109-127 | receiving yields exactly the frames of the stream, then a clean close if and only if the peer closed on a concatenation of accepted frames |
| FixReceiving.ReadsDoNotMatter | src/transport/tcp.rs:111-127 | two deliveries of the same bytes give the same messages and the same end, up to the open corner |
| FixReceiving.TakeOver | src/transport/tcp.rs:133-147 | after k messages, framer and socket give exactly the rest of the transcript |
| FixConnections.NextFramed | src/transport/tcp.rs:189-193 | one poll, its error as a connection error |
| FixConnections.FixConnection.RecvMessage | src/transport/tcp.rs:111-127 | the loop computes one receipt and keeps the buffer below 16384 + 8192 bytes |
| FixConnections.FixReader.RecvMessage | src/transport/tcp.rs:156-172 | the same on the reading half |
| FixConnections.FixConnection.Split | src/transport/tcp.rs:136-147 | the reading half continues with the same socket, framer and buffer |
| FixConnections.ReadThroughSplit | src/transport/tcp.rs:136-172 | splitting after up to k messages loses nothing of what never splitting gives |
| Binary64.RoundIsNear | src/scripts/rate_limiter.rs:29-34 | one rounding is off by at most half a unit in the 53rd bit |
| Binary64.RoundIsIdempotent | src/scripts/rate_limiter.rs:29-34 | what was rounded is a double and rounds to itself |
| Binary64.RoundReaches | src/scripts/rate_limiter.rs:29-34 | a number that falls short of an integer by at most half a unit of its last bit is rounded up to it |
| Binary64.SubtractionIsExact | src/scripts/rate_limiter.rs:37-38 | taking a whole number off a larger double below 2^53 gives a double |
| RateLimiters.RateLimiter.Decide | src/scripts/rate_limiter.rs:23-43 | refills in double precision, decides and updates tokens and time as one step of the bucket |
| RateLimiters.LevelIsLeast | src/scripts/rate_limiter.rs:23-43 | for any rounding, the tokens a packet finds are the least, over all windows ending there, of allowance and rounding minus forwards |
| RateLimiters.ForwardedIffWindowsFit | src/scripts/rate_limiter.rs:29-42 | for any arrivals and any rounding, a packet is forwarded if and only if every window ending at it fits its allowance and what rounding added in it |
| RateLimiters.ExactIffWindowsFit | src/scripts/rate_limiter.rs:29-42 | without rounding, if and only if every window fits its allowance |
| RateLimiters.ForwardedWithinSlack | src/scripts/rate_limiter.rs:29-42 | when no refill is off by more than delta: forwarded only if every window fits with delta a refill to spare, and always if every window fits in spite of it |
| RateLimiters.CreditIsTimeIff | src/scripts/rate_limiter.rs:29-34 | the refill of a window is at least capacity per second elapsed, and exactly that if and only if the clock never goes back within it or the capacity is zero |
| RateLimiters.ExactIffRateHolds | src/scripts/rate_limiter.rs:29-42 | on such a clock and without rounding, forwarded if and only if the rate holds over every window ending there |
| LimiterLaws.LimiterIsOptimal | src/scripts/rate_limiter.rs:29-42 | over every prefix at least as many forwards as any choice of arrivals that fits its windows with the rounding to spare |
| LimiterLaws.LimiterIsFeasible | src/scripts/rate_limiter.rs:29-42 | the limiter's own choice fits its windows up to the rounding; without rounding the optimum is attained |
| LimiterLaws.NoChoiceWithinRateForwardsMore | src/scripts/rate_limiter.rs:29-42 | without rounding, no choice that keeps the rate in time forwards more |
| LimiterDoubles.RefillPaysADouble | src/scripts/rate_limiter.rs:31-32 | a refill pays every bucket the same double, which is added to the tokens held and the sum rounded |
| LimiterDoubles.RefillIsProportional | src/scripts/rate_limiter.rs:31-32 | that double is the one of one token a second times the capacity, rounded |
| LimiterDoubles.OneASecondPaysTime | src/scripts/rate_limiter.rs:30-31 | and that one is the time as a double of seconds: whole seconds and nanoseconds as doubles, added and rounded |
| LimiterDoubles.Binary64SlipsAtMost | src/scripts/rate_limiter.rs:29-34 | in double precision no refill is off by more than 5 * 2^-53 of the capacity, as far as the cap lets it be seen |
| LimiterDoubles.RateHoldsInBinary64 | src/scripts/rate_limiter.rs:29-42 | the program keeps the rate over every window up to that much a refill, and forwards what fits in spite of it |
| LimiterDoubles.NeverAboveRate | src/scripts/rate_limiter.rs:29-42 | it keeps the rate exactly over windows whose refills are off by less than a billionth of a token in all |
| LimiterDoubles.OnlyFullWindowsTell | src/scripts/rate_limiter.rs:29-42 | under that bound in all, what is forwarded keeps the rate exactly over every window, and what keeps it is forwarded unless it fills a window to the last billionth |
| LimiterDoubles.OptimalInBinary64 | src/scripts/rate_limiter.rs:29-42 | the program's choice fits up to the rounding, and no choice that fits in spite of it forwards more |
| LimiterDoubles.SpendIsExact | src/scripts/rate_limiter.rs:37-38 | the tokens found are a double, and so is what is left when one is spent |
| LimiterDoubles.RefillAfterOneSecond | src/scripts/rate_limiter.rs:89-100 | a second without packets fills the bucket exactly, whatever it held and whatever its capacity |
| LimiterDoubles.SteadyRateNeverDrops | src/scripts/rate_limiter.rs:102-112 | for any number of arrivals no closer than the rate, every one finds a full bucket and is forwarded, rounding notwithstanding |
| LimiterLaws.SteadyRateWithinSlack | src/scripts/rate_limiter.rs:102-112 | the same for any rounding, as long as it has not eaten up the burst |
| LimiterDoubles.DoublesFallShort | src/scripts/rate_limiter.rs:29-42 | four arrivals of which the program drops the last although every window has room, so that another choice forwards more |
| LimiterDoubles.BackwardsClockPaysTwice | src/scripts/rate_limiter.rs:29-34 | three arrivals on a clock that goes backwards for which the program exceeds the rate, and exact arithmetic just as much |
| Flows.Flow.Decide | src/flows/flow.rs:14-22 | the loop moves the operators, the generator and the effect as the chain does |
| Flows.Concatenation | src/flows/flow.rs:14-22 | A then B: B is consulted only when A forwards, otherwise it keeps its state and draws nothing |
| Flows.ConcatenationInTurn | src/flows/flow.rs:14-22 | the same over any sequence of packets |
| Flows.BehindSeesPassed | src/flows/flow.rs:14-22 | operators that draw nothing, custom ones included, behind any chain, leave it undisturbed and see exactly the packets it forwards |
| Flows.MergedAt | src/flows/flow.rs:14-22 | position by position, the effects of a chain in two parts |
| Flows.LimiterAlone | src/scripts/rate_limiter.rs:23-43 | a limiter in a flow forwards by its history of arrivals |
| Flows.LimiterBehindChain | src/flows/flow.rs:14-22 | behind any chain its history is that of the packets the chain forwarded |
| OperatorLaws.DropperAlone | src/scripts/dropper.rs:20-27 | over any packets: the k-th is dropped if and only if the k-th draw of the generator hits, and forwarded otherwise |
| OperatorLaws.DuplicatorAlone | src/scripts/duplicator.rs:21-28 | the k-th is duplicated at once if and only if the k-th draw hits |
| OperatorLaws.ReordererAlone | src/scripts/reorderer.rs:22-29 | the k-th is held for exactly the configured time if and only if the k-th draw hits |
| OperatorLaws.EndCases | src/scripts/dropper.rs:58-70 | with a generator that never hits at 0 and always at 1: all forwarded at 0, all dropped, duplicated or held at 1 |
| OperatorLaws.JitterAlone | src/scripts/jitter.rs:22-27 | every packet is delayed, the k-th by the k-th draw between the bounds clamped to 64 bits |
| OperatorLaws.JitterWithinBounds | src/scripts/jitter.rs:66-70 | with a generator that answers within its range, every delay lies within the bounds, equal bounds being exact |
| OperatorLaws.CustomAlone | src/domain/operator.rs:13-14 | any other operator holds the fold of its step over the packets, and has decided as the fold says |
| MoldUdp64.HeaderIsRead | src/protocols/moldudp64.rs:12-19 | any 64-bit number written behind any session is read back, whatever follows |
| MoldUdp64.ExtractedIff | src/protocols/moldudp64.rs:12-19 | a number is read exactly from payloads of at least 20 bytes, big-endian at 10..18, within 64 bits |
| MoldUdp64.BigEndianOfEight | src/protocols/moldudp64.rs:18 | which byte weighs how much, in numerals |
| Proxies.Adopted | src/backgrounds/proxy.rs:73-77 | adoption empties the slot and touches nothing but the flow, which changes only to the flow in the slot and only if solely owned |
| Proxies.Proxy.SendAndCount | src/backgrounds/proxy.rs:125-134 | one attempt, counted as forwarded or as a send error |
| Proxies.Proxy.Enqueue | src/backgrounds/proxy.rs:111-123 | inserts below the cap, counts an overflow at it, and says which |
| Proxies.Proxy.AdoptReload | src/backgrounds/proxy.rs:73-77 | the swap at the top of the loop |
| Proxies.Proxy.Receive | src/backgrounds/proxy.rs:80-101 | the receiving branch as one step |
| Proxies.Proxy.RunRound | src/backgrounds/proxy.rs:72-107 | one turn of the loop is one step of the state machine |
| Proxies.Proxy.RunRounds | src/backgrounds/proxy.rs:69-109 | the loop computes the state after its rounds, and fails exactly when the last receive does |
| ProxyRuns.PacketFate | src/backgrounds/proxy.rs:83-123 | a packet is decided once, and attempted, queued or refused as its effect and the room say; the original of a duplicate is always attempted |
| ProxyRuns.PacketCounts | src/backgrounds/proxy.rs:83-134 | every counter after one packet, for every effect, with room or not, sent or not |
| ProxyRuns.DuplicateMeetsFullQueue | src/backgrounds/proxy.rs:95-123 | a duplicate meets a full queue: the original is sent, the copy overflows and nothing is counted as dropped |
| ProxyRuns.ConservedAlways | src/backgrounds/proxy.rs:79-134 | in every reachable state, attempts plus queue are the packets decided Forward, those decided DuplicateAfter and the accepted insertions, as multisets; insertions and refusals are the decided delays and copies; the counters agree |
| ProxyRuns.EachDecidedOnce | src/backgrounds/proxy.rs:80-83 | whatever is published meanwhile, the packets decided are the packets received, each once, in order |
| ProxyRuns.DecidedAsArrived | src/backgrounds/proxy.rs:80-83 | in every run the i-th packet decided has the bytes and the instant of the i-th arrival, and the sequence number read in these bytes |
| ProxyRuns.AtMostTwice | src/backgrounds/proxy.rs:84-106 | a datagram was attempted or waits at most twice as often as it was received; nothing is sent that was not received |
| ProxyRuns.BooksBalance | src/backgrounds/proxy.rs:79-134 | received plus duplicated minus attempted, dropped and waiting is exactly the delays that found no room, at most the overflows; the queue stays within the cap |
| ProxyDecisions.DecisionsAreTheFlows | src/backgrounds/proxy.rs:72-107 | as long as no flow is adopted, whatever is published and lost, a run decides what its flow decides on the packets received, in order |
| ProxyDecisions.RunIsPlay | src/backgrounds/proxy.rs:72-107 | whatever is published, adopted or lost, decisions, generator and operators are those of playing the flows adopted and the packets received in their order |
| ProxyDecisions.QuietScript | src/backgrounds/proxy.rs:72-107 | without adoptions the packets received are all there is to play |
| ProxyDecisions.TimingDoesNotMatter | src/backgrounds/proxy.rs:72-107 | any two runs with equal seed and flow, the same packets and the same adoptions between them agree on decisions, generator and operators, whatever expiries, lost publications, send failures and caps |
| ProxyDecisions.DeliveriesDoNotDependOnTiming | src/backgrounds/proxy.rs:72-134 | and without overflows what was attempted and what waits are together the same datagrams, each as often |
| ProxyDecisions.FullSlotDecides | src/backgrounds/proxy.rs:72-82 | whatever is published later, the rounds up to the next adoption decide what one flow decides: the one in the slot if it is solely owned when taken, the old one otherwise |
| ProxyDecisions.ReplacedFlowIsForgotten | src/backgrounds/proxy.rs:73-77 | the replaced flow has no influence on anything afterwards, whatever is published later |
| ProxyDecisions.LostFlowIsForgotten | src/backgrounds/proxy.rs:73-77 | nor has a flow that is lost, or that another one takes the place of in the slot |
| ProxyDecisions.ReloadTakesEffect | src/backgrounds/proxy.rs:72-107 | a reload published while waiting is preceded by at most one more decision, none if a timer expires first, and then decides until another flow is adopted |
| ProxyDecisions.LostReload | src/backgrounds/proxy.rs:73-77 | a round in which a flow that drops everything is lost and the packet is forwarded |
| ProxyRuns.ExpiriesDrain | src/backgrounds/proxy.rs:103-106 | without receives each expiry attempts one waiting datagram; the queue is empty after exactly as many as waited |
| ProxyRuns.DrainExists | src/backgrounds/proxy.rs:103-106 | the queue can always be emptied so |
| SequenceFilter.BuiltHits | src/scripts/gap_burst.rs:17-31 | the operators built from a scenario drop exactly the targeted numbers, the burst being the unbounded interval in spite of saturation |
| SequenceFilter.ChainHits | src/scripts/drop_seq.rs:15-28 | a chain of such operators, in any order, drops exactly what some target hits, and keeps state and generator |
| SequenceFilter.FilterIsExact | src/backgrounds/proxy.rs:79-101 | over every run that adopts no other flow the attempts are the datagrams received, unchanged and in order, minus exactly the targeted ones; nothing waits and the removals are counted |
| SequenceFilter.FilterOnTheWire | src/backgrounds/proxy.rs:79-101 | the payloads sent are those that came in, byte for byte and in order, all to the upstream address, minus exactly the targeted ones |
| SequenceFilter.NoProtocolKeepsAll | src/domain/extractor.rs:11-17 | without a protocol that is every one of them |
| ProxyOperators.LimiterInRun | src/scripts/rate_limiter.rs:23-43 | in a run a limiter forwards by the instants of arrival and nothing else |
| ProxyOperators.EverythingTwice | src/scripts/duplicator.rs:21-28 | a duplicator that always hits: without overflow every datagram received was attempted or waits exactly twice |
| ProxyOperators.EverythingOrNothing | src/scripts/dropper.rs:20-27 | a dropper at 0 or 1: every datagram exactly once, or none |
| ProxyOperators.DelaysLoseNothing | src/scripts/jitter.rs:22-27 | jitter and reordering, without overflow: every datagram received was attempted or waits exactly once |

## Left out

- RateLimiters.RateLimiter.Decide: doubles have no limit on the exponent here, which the numbers of the limiter never reach.
- RateLimiters.ExactIffRateHolds: of exact arithmetic, the program's law being `RateHoldsInBinary64`; arrivals must not go backwards in time, which the transport's monotonic clock guarantees; `ExactIffWindowsFit` has no such condition and `CreditIsTimeIff` says when the two agree.
- RateLimiters.ExactIffWindowsFit: of exact arithmetic; the program's law is `ForwardedIffWindowsFit` at `BINARY64`.
- LimiterLaws.NoChoiceWithinRateForwardsMore: of exact arithmetic; false of the program by `DoublesFallShort`, whose law is `OptimalInBinary64`.
- LimiterDoubles.RateHoldsInBinary64: the same condition on arrivals; `ForwardedWithinSlack` has none.
- FixConnections.FixConnection.RecvMessage: one instant per call stands for the clock readings of the loop; the writing half, connecting and socket options are not modelled.
- Flows.Flow.Decide: operators are values inside the flow; one a library user writes is a step on a state encoded as a number.
- Proxies.Proxy.RunRounds: each turn of the loop is one step, counters are unbounded, and the times at which timers fire and their order are the environment's; which deadline a delay leads to is not modelled, only that it is handed to the queue.
- Proxies.Proxy.AdoptReload: the slot holds the published operators and adoption replaces those of the flow in place; reference counts appear only as "the only reference or not".
- The constructors' validation of probabilities and durations, the scenario file, the control plane, statistics snapshots and the command line.
- The value of the checksum, which the framer leaves unchecked on purpose.
- UDP and TCP sockets beyond what a read or a send returns, the latency harness and the benchmarks.
