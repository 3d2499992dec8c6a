# A verified model of the link demo's protocols

The repository measures and monitors direct links between two Macs. This project models the
parts of it that are protocols or round trips, and proves what they keep.

**The UDP echo measurement** (`Socket`, `EchoMachine`, `EchoLaws`, `EchoTiming`, `EchoSerial`,
`EchoEngines`, `Endings`, `Perf`, `MeasureEnds`, `OnTime`). A sender keeps up to `window` numbered datagrams in flight and
takes a reply, a stray or a timeout per read. The four engines (window or serial, count or
duration) are methods, loop for loop, over a socket object; each is proved to return what a step
machine says and to leave the socket in the same state, on success and on every error. About the
machine it is proved that it ends; that the window is never exceeded; that every number of the
plan is sent once and settled once, by the first reply between its send and its expiry or as a
loss when there is none, whatever is lost, delayed, reordered, duplicated or stray; that datagram
`k` is out by `k / window` timeouts and the run over one timeout after the last; that the
serial engine is the windowed one at window 1; and exactly when a run, and a whole measurement,
ends without error, and exactly when in each way with one.

The environment is a finite trace of arrivals in order of time. Time advances only while a read
waits, and a read with deadline `d` yields the next arrival no later than `d` or a timeout at `d`.
Writes take no time and fail at arbitrary, given, places. This idealised clock is an assumption of
every timing result.

**Both ends** (`Listener`, `Conservation`, `OwnReplies`). The echo server and the listen mode;
replies matched <= packets counted <= packets expected over any number of trials and streams on a
network that does not duplicate, with equality exactly when nothing is lost or late. A late reply
can count for a later trial, since numbers restart and the socket stays; every datagram is settled
by its own reply exactly when no reply left over from before settles one.

**The record** (`Sorting`, `Stats`, `Streams`, `Report`). The fan-in of concurrent streams as a state machine
over all schedules, aggregation over trials, order statistics; end to end, no schedule and no
network can break `datagrams + lost == count` or push a statistic over the packet timeout.

**Signals** (`Text`, `Base64`, `Signal`, `SignalLaws`, `Sdp`). The chunked line reader against the
simple reader of the whole input, exactly when its cap trips, base64, writing and reading back,
and the removal of candidate lines from a session description. Strings are byte strings.

**The link-health agent** (`Health`, `Signature`, `Advert`, `Agent`, `Txt`). One object whose
rounds refresh sockets, publish, sample and report. Over whole runs: which path is shown as
active, what the two stores hold, that no socket leaks, and that the advertisement and its cached
signature stay together; and the parser of TXT records.

**The trace line** (`Trace`, `TracePrint`, `TraceFields`, `TraceItems`, `TraceLists`, `TraceLaws`,
`TraceSummary`). What the demo prints about its connections is recovered by the summary of
another program, each part under its name.

Where code and documentation part, the model follows the code:

- Section 6.4 of RFC 6763 lets the first string of a TXT record that names a key decide, whatever
  the case of its letters and with or without a value; the parser lets the last one with a value
  decide for each spelling. `Txt.FirstRuleIff` says exactly when that is the same.
- The active path of a report is the one that was just sampled only while no profile before it
  has lost its address after a success (`Health.ActiveExact`, `Health.ShrinkingMisleads`).

The serial engine is chosen at window 1 (README.md:378-379 promises the serial behaviour there).
`EchoSerial.AgreementCondition` says when that special case could be removed from the dispatch
without changing any result: exactly when there is a packet timeout or a context deadline.

`dafny verify dfyconfig.toml` checks everything.

## Model

| member | source | states |
|---|---|---|
| `Socket.Receive` | main.go:2048-2063 | the environment's read: time never goes back nor past the deadline, one arrival is consumed or none, a timeout comes at the deadline |
| `Socket.PacketConn.ReadFrom` | main.go:1943-1951 | the socket object reads as `Receive` says |
| `Socket.PacketConn.WriteTo` | main.go:2035-2046 | a write is logged with number, size and time, or fails and leaves everything as it was |
| `EchoMachine.SurvivorsFewer` | main.go:2065-2074 | expiry never adds, and removes something whenever something is due |
| `EchoMachine.WorkFalls` | main.go:1930-1961 | `2 * (limit - next) + pending + unread` strictly falls at every send, match, stray and timeout |
| `EchoMachine.TimeoutExpires` | main.go:2048-2074 | a timeout that does not end the run comes at the earliest expiry and takes at least one entry, which is counted lost |
| `EchoMachine.RankFalls` | main.go:1972-2005 | the measure by which a run bounded by time ends |
| `EchoMachine.AdvanceReady` | main.go:1930-1961 | every step keeps the window, the numbers in range, and nothing pending past its expiry |
| `EchoMachine.RunReaches` | main.go:1930-1962 | a run that finishes does so in a state it reaches, with nothing pending and nothing more to send; one that fails does so in the next step of a state it reaches |
| `EchoLaws.NoStepLosesCount` | main.go:1930-1961 | at every step of every run: pending <= window, and sent == round trips + losses + pending |
| `EchoLaws.ReachInv` | main.go:1930-1961 | at every step, every sent datagram is pending without a reply so far, settled by its first reply in time, or never answered |
| `EchoLaws.ArrivalAccounted` | main.go:1941-1960 | one arrival settles the pending datagram of its number and no other |
| `EchoLaws.RunIsFaithful` | main.go:1923-1963 | a finished run sent each number of its plan once, in order; its round trips are, in order of arrival, those of the first replies between send and expiry over the whole trace; its losses are the datagrams that no arrival answers |
| `EchoLaws.NothingLeftToGain` | main.go:1877-1882 | once all is resolved later arrivals, duplicates and strays change nothing |
| `EchoLaws.StrayGain` | main.go:1954-1957 | an arrival whose number is not pending, late, repeated or from the warm-up, contributes nothing |
| `EchoLaws.ResolvedOnce` | main.go:1952-1960 | no datagram is settled by two arrivals, nor both settled and lost |
| `EchoTiming.RoundTripsBounded` | main.go:1941-1960 | every recorded round trip lies between 0 and the packet timeout, at every step |
| `EchoTiming.Schedule` | main.go:1930-1961 | datagram `k` is sent by `start + (k / window) * T`, the run is over by `start + ((count - 1) / window + 1) * T`, whatever the network does |
| `EchoTiming.LateContext` | main.go:2048-2063 | a context that is another with its deadline lowered to after that schedule changes no step |
| `EchoTiming.SampleDeadlineNeverFires` | ui.go:828-831 | under the agent's sample timeout the run is exactly the run under the context the sample was given, whatever its deadline and cancellation |
| `EchoTiming.DurationRun` | main.go:1965-2007 | at least one datagram, none at or after `end`, nothing pending, count == round trips + losses, over between `end` and `end + T` |
| `Endings.RunEnds` | main.go:1923-2007 | every run, with or without packet timeout, in any context: one that ends without error took only datagrams of its size, wrote all, and gave up what it lost at its expiry, before the context was done; a failed write, a wrong size, a socket error, or silence to the end of the context (without packet timeout: to its deadline or 30 s) is behind each failure |
| `Endings.RunEndsIff` | main.go:1930-1961 | under a packet timeout and a context that outlives the schedule: no error if and only if all that was taken is datagrams of the size sent and no write of the plan was stuck; and each error if and only if its cause |
| `Endings.RunFinishes` | main.go:1930-2005 | for any window, and seen before the call: sound arrivals until the last moment, writable writes and a live context are enough |
| `Endings.RunOfSilence` | main.go:1945-1948 | a silent network makes no error: every datagram is lost |
| `Endings.RunWithin` | main.go:2048-2063 | no run outlasts the deadline of its context, however it ends |
| `EchoSerial.AwaitIsRun` | main.go:2019-2033 | the serial inner read loop and the windowed outer loop consume the same arrivals and end the same |
| `EchoSerial.SerialIsWindowOne` | main.go:1863-1883 | serial and window 1 give the same round trips, losses, errors and socket state on every trace |
| `EchoSerial.SilenceTellsThemApart` | main.go:2024-2027 | the input on which the two functions differ: no packet timeout, no deadline, no reply |
| `EchoSerial.AgreementCondition` | main.go:1863-1883 | serial and windowed engine agree at window 1 on all traces if and only if there is a packet timeout or a context deadline |
| `EchoEngines.WindowReadDeadline` | main.go:2048-2063 | the earliest expiry, for any order of the map, or the context's deadline if sooner |
| `EchoEngines.ExpirePending` | main.go:2065-2074 | keeps exactly the entries not yet due and counts the others, for any order of the map |
| `EchoEngines.ReadWindow` | main.go:1941-1960 | one read and its bookkeeping are the machine's read step |
| `EchoEngines.FillCount` | main.go:1931-1937 | the sending loop stops with the window full or the plan exhausted, on the run it started on |
| `EchoEngines.EchoWindow` | main.go:1923-1963 | the fixed-count engine returns and leaves the socket as the machine's run does |
| `EchoEngines.FillUntil` | main.go:1974-1981 | the same for the sending loop of the duration engine |
| `EchoEngines.EchoWindowDuration` | main.go:1965-2007 | the duration engine is the machine's run with an end time |
| `EchoEngines.UdpEchoOnce` | main.go:2009-2033 | one echo: the reply, no reply in time, or the error, with the socket it leaves |
| `EchoEngines.EchoSerialCount` | main.go:1863-1875 | the serial loop is the serial run |
| `EchoEngines.EchoSerialDuration` | main.go:1898-1917 | the serial loop bounded by time is the serial run with an end time |
| `Perf.WarmUp` | main.go:1841-1845 | one datagram each, in order, losses ignored; no more answers than datagrams taken in |
| `Perf.RunUdpEchoPerf` | main.go:1820-1896 | validation in the code's order, each error if and only if its condition and no earlier one, before anything is sent; warm-up, dispatch on window and duration, and the result, as the measurement says |
| `Perf.SerialTally` | main.go:1898-1917 | the serial engines divide the datagrams between round trips and losses and number them in order, for any packet timeout |
| `Perf.WindowTally` | main.go:1923-1963 | the same for the windowed engines |
| `Perf.MeasureCounts` | main.go:1820-1896 | `rtt + lost == count`; the log shows `0, 1, ...` with warm-ups first; matched replies <= datagrams taken in |
| `Perf.DispatchPreservesMeaning` | main.go:1855-1882 | with a packet timeout the engine chosen cannot be told from the result |
| `Perf.MeasureTimes` | main.go:1847-1895 | all round trips of all four engines within 0..T; elapsed time within the schedule; a timed run sends nothing once its time is up |
| `Perf.SampleIsUnlimited` | ui.go:828-831 | a health sample's own deadline never decides its result, under any context it is started with |
| `MeasureEnds.EchoEnds` | main.go:2009-2033 | one echo is given up exactly at its expiry, or after 30 s without packet timeout; each failure has its cause |
| `MeasureEnds.WarmUpEnds` | main.go:1841-1845 | a warm-up fails for these causes only, at the number it reports |
| `MeasureEnds.MeasureEndsAs` | main.go:1820-1896 | the same for a measurement by any engine; done means every write of the plan made |
| `MeasureEnds.MeasureEndsIff` | main.go:1820-1896 | exactly when a measurement succeeds and exactly when it fails in each way, under a packet timeout and a context that outlives it |
| `MeasureEnds.MeasureFinishes` | main.go:1820-1896 | what can be looked at before the call is enough |
| `MeasureEnds.MeasureOfSilence` | main.go:1820-1896 | against a peer that never answers the result is lost == count, not an error |
| `MeasureEnds.MeasureClock` | main.go:1847-1895 | elapsed time runs from the first datagram after the warm-up; the result repeats the request's settings |
| `MeasureEnds.MeasureWithin` | main.go:1820-1896 | no measurement does, with any engine |
| `OnTime.AwaitInTime` | main.go:2019-2033 | waiting yields a reply exactly when one can be read by the deadline |
| `OnTime.WindowInTime` | main.go:1923-1963 | a windowed run records exactly as many round trips as datagrams have a reply within their timeout |
| `OnTime.MeasureInTime` | main.go:1820-1896 | a measurement matches, warm-ups included, exactly as many replies as its datagrams have in time; all of them if and only if each has one |
| `Listener.EchoUdpPackets` | main.go:1717-1745 | the server loop is `Serve`, with the error it reports and the socket it leaves |
| `Listener.ServeEchoes` | main.go:1717-1745 | a clean end has echoed exactly what was read, in order, to where it came from; with a count exactly that many unless the context ended |
| `Listener.ServeExitsClean` | main.go:1717-1745 | enough datagrams by the deadline make a counting server exit cleanly with exactly its count |
| `Listener.ServeLeaves` | main.go:1717-1745 | a server fails by a failed write, a socket error before its context ends, or, with a count only, 30 s of silence; without a count silence is no error, and it leaves within 250 ms of the end of its context and its last echo |
| `Listener.RunUdpPerfListen` | main.go:1507-1539 | echoes one for one, counts packets and bytes; leaves with its count, at the context's end, or when it has waited exactly long enough: having heard nothing, at its context's deadline or after exactly 30 s; each error has its cause |
| `Listener.ListenerWaits` | main.go:1515-1527 | a listener that leaves short of its count before its context ends has echoed all that was due, and waited since its last echo exactly the idle timeout or 30 s |
| `Conservation.ExpectedExact` | main.go:1747-1764 | the expected number is `(count + warmup) * trials * streams` if and only if that fits in 63 bits |
| `Conservation.ExpectedCases` | main.go:1747-1764 | 0 for a run by duration; each error if and only if its condition and no earlier one; else the product less a multiple of 2^64, within 64 bits |
| `Conservation.TrialsCount` | main.go:1453-1457 | trials on one socket write exactly `count + warmup` each and match no more than they take in |
| `Conservation.TrialsInTime` | main.go:1453-1457 | over all trials as many replies are matched as datagrams have one in time |
| `OwnReplies.RunOwn` | main.go:1923-1963 | for any run from any socket state: each settled datagram is settled by its own reply if and only if no reply left over from before the run settles one |
| `OwnReplies.RunOwnWhenClear` | main.go:1927-1930 | it is so if no reply still to come from before bears a number in `[seqBase, limit)` |
| `OwnReplies.MeasureOwn` | main.go:1841-1882 | the same for a whole measurement by any engine, warm-ups included |
| `OwnReplies.TrialsOwn` | main.go:1453-1457 | over any trials on one socket every reply counts for the datagram it answers if and only if no trial is given one left over from before it, as when none is still to come when it starts |
| `OwnReplies.LateReplyCrossesTrials` | main.go:1877 | an input on which a late reply counts for a later trial although the peer only echoes |
| `Conservation.RequestsCount` | main.go:1579-1592 | all streams together write exactly the number the peer is told to expect |
| `Conservation.TwoEndedConservation` | main.go:1507-1539 | replies matched <= packets echoed <= packets expected, for any streams and trials, without duplication |
| `Conservation.ListenerConservation` | main.go:1507-1539 | the same with the packet count that listen mode returns in the middle, and equality when nothing is lost or late |
| `Conservation.NetworkExists` | main.go:1453-1476 | a network that meets all these assumptions |
| `Conservation.MatchedAllIff` | main.go:1453-1476 | all replies are matched if and only if nothing is lost or late |
| `Conservation.NothingLost` | main.go:1717-1745 | then all three numbers are equal and the counting server has exited cleanly |
| `Sorting.SortKeeps` | main.go:2176-2177 | sorting keeps the elements |
| `Stats.SortIsUnique` | main.go:2176-2177 | any sort gives the same list |
| `Stats.NearestRank` | main.go:2381-2393 | the percentile is the least value with at least p percent of the values at or below it, in the unsorted list |
| `Stats.QuotBounds` | main.go:2189-2193 | an average by truncating division stays between the least and greatest value |
| `Streams.ScheduleInv` | main.go:1782-1813 | in every state of every schedule, what was delivered and what is owed make up what the streams return, until one fails |
| `Streams.NobodyBlocks` | main.go:1784-1793 | no sender finds the channel full, the collector never waits in vain; no stream delivers twice, and when all is received each has delivered once |
| `Streams.CollectStreams` | main.go:1794-1817 | the collector's loop: the first error in order of arrival, or the sums and all round trips |
| `Streams.FirstErrorIs` | main.go:1797-1803 | the error reported is that of the first failing item, with its stream's number counted from one |
| `Streams.RunUdpEchoPerfStreams` | main.go:1772-1818 | no streams is an error, one stream hands on its own result, which has the sums the collector would give; more are collected, and the error is that of the first to fail, numbered from one |
| `Streams.ScheduleIndependent` | main.go:1772-1818 | an error if and only if some stream fails of its own; otherwise every sum and the bag of round trips are those of the streams one after the other |
| `Streams.FoldKeepsCount` | main.go:1808-1812 | datagrams + lost == count survives the merge |
| `Report.UdpPerfRecordForTrial` | main.go:2174-2210 | counts and bytes; of the round trips in any order: extremes, the truncated average of their sum, and the 50th and 95th percentile by nearest rank; zero when there are none |
| `Report.SpreadSummarizes` | main.go:2198-2210 | each of the five figures means what it is called, on the unsorted list |
| `Report.SpreadOrdered` | main.go:2174-2210 | min <= p50 <= p95 <= max, min <= average <= max, all within any bounds of the round trips; min and max are attained |
| `Report.SpreadOrderFree` | main.go:2174-2210 | no statistic depends on the order of the round trips |
| `Report.AggregateUdpPerfResults` | main.go:2246-2265 | sums over all trials, round trips appended, settings of the first |
| `Report.SummedIsSum` | main.go:2255-2263 | the sums of one result are its own numbers, and lists add up number by number |
| `Report.AggregateSound` | main.go:2246-2265 | aggregation keeps datagrams + lost == count and the bound on round trips |
| `Report.RecordIsSound` | main.go:1772-1818 | from networks and schedule to the record: datagrams + lost == count and every statistic <= T |
| `Text.TrimNewline` | main.go:2998 | a line trims to the same text with and without its newline |
| `Text.SplitAppend` | signal_bonjour.go:543-560 | more text re-splits only the unfinished last line |
| `Text.IndexSound` | cmd/matrix-summary/main.go:277 | a search finds the first occurrence, or there is none |
| `Text.SplitJoin` | cmd/matrix-summary/main.go:342 | splitting undoes joining |
| `Base64.EncodedPlain` | main.go:3055 | the encoding has printing characters only, so trimming is the identity (section 4 of RFC 4648) |
| `Base64.EncodedLength` | main.go:3055 | four characters for every three bytes, padded |
| `Base64.RoundTrip` | main.go:3050-3077 | decoding undoes encoding for every byte string |
| `Base64.DecodedIsEncoding` | main.go:3073-3077 | newlines aside, what decodes is the encoding of what it decodes to, but for the unused bits before the padding |
| `Base64.Examples` | main.go:3055 | the alphabet and the padding, by examples of section 10 of RFC 4648 |
| `Signal.DecodeEncode` | main.go:3050-3090 | a signal survives encoding and decoding if and only if its description has an SDP |
| `Signal.DecodeLegacy` | main.go:3082-3089 | a bare description decodes to itself with no candidates, and to an error if it is empty |
| `Signal.DecodeGarbage` | main.go:3073-3077 | a character that is not base64, newlines aside, is an error |
| `Signal.SignalText` | signal_bonjour.go:548-552 | prefix, space and value make a signal with that value, with or without newline; the prefix alone does not |
| `Signal.SignalConn.Receive` | signal_bonjour.go:571-602 | the environment's receive: the next chunk, a failure, or the end |
| `Signal.SignalConn.WriteLine` | signal_bonjour.go:604-631 | a line and its newline are sent, or the error is returned and nothing is |
| `Signal.SignalConn.WriteWireSignal` | signal_bonjour.go:563-569 | sends exactly one line, prefix and value, or returns the error |
| `Signal.SignalConn.ReadWireSignal` | signal_bonjour.go:532-561 | the reader's result and how far it reads, as functions of the chunks |
| `Signal.CompleteLines` | signal_bonjour.go:544-547 | the empty piece after a final newline, counted as a line by the code, is harmless |
| `SignalLaws.ScanIsWhole` | signal_bonjour.go:532-561 | unless the cap trips, the chunked reader is the simple reader of the whole input |
| `SignalLaws.ChunkingIndependence` | signal_bonjour.go:532-561 | two cuttings of the same bytes that do not trip give the same result |
| `SignalLaws.TooLargeIff` | signal_bonjour.go:540-542 | the error comes if and only if some chunk, before any signal is complete, exceeds the cap together with the unfinished line |
| `SignalLaws.ShortLinesRead` | signal_bonjour.go:540-542 | lines up to the signal of at most 1 MiB - 64 KiB with their newline never trip, in chunks of up to 64 KiB |
| `SignalLaws.LongLineTrips` | signal_bonjour.go:540-542 | a line over 1 MiB up to the signal always trips, in any chunks |
| `SignalLaws.CuttingDecides` | signal_bonjour.go:532-561 | between the two bounds the cutting decides: same bytes, different results |
| `SignalLaws.WriteThenRead` | signal_bonjour.go:532-569 | what is written is read back, after any lines that are no signals, before anything, in any chunks that do not trip |
| `SignalLaws.LegacyLineRead` | main.go:3073-3090 | the same for an older peer's bare description |
| `Sdp.WithoutSdpCandidateLines` | main.go:2995-3005 | the loop keeps the lines that stay, joined |
| `Sdp.SdpCandidateLines` | main.go:3035-3048 | the loop lists the candidates in order and whether an end mark is there |
| `Sdp.SplitsAgree` | main.go:2997-3038 | splitting with and without newlines gives the same lines, and loses nothing |
| `Sdp.StrippedIsPartition` | main.go:2995-3005 | kept and removed lines weave back to the input; not a byte is lost or moved |
| `Sdp.StrippedAreListed` | main.go:3035-3048 | what is listed as a candidate is what is removed, in order |
| `Sdp.StripIdempotent` | main.go:2995-3005 | stripping twice is stripping once |
| `Sdp.StrippedHasNone` | main.go:2995-3048 | a stripped description lists no candidate and no end mark (section 5.1 of RFC 8839) |
| `Sdp.NewWireSignalTravels` | main.go:2986-2993 | what the other side decodes is the description as given, or stripped with the given candidates beside it, if and only if some line is left in it |
| `Sdp.OneDescription` | main.go:2995-3048 | one description in full: what is left, what is listed; what only begins like a candidate stays |
| `Txt.TxtRecordMap` | ui.go:1139-1165 | the parser's loop, total and ending, on any bytes |
| `Txt.ItemsCover` | ui.go:1149-1156 | every record is its strings, framed, and a truncated tail: nothing skipped, nothing read twice |
| `Txt.TailIgnored` | ui.go:1152-1154 | a truncated tail changes nothing |
| `Txt.LastWins` | ui.go:1157-1160 | a key is in the map if and only if a string names it, with the value of the last such string |
| `Txt.SilentStrings` | ui.go:1157-1160 | a string without `=` or without a key changes nothing |
| `Txt.RuleBroken` | ui.go:1157-1160 | three inputs on which the rule of RFC 6763 is broken: another value, another spelling, a key that came without value |
| `Txt.FirstRuleIff` | ui.go:1157-1160 | the map holds just what first strings give, keys compared without case and valueless strings counted, if and only if whoever names a key again with a value spells it as the first, which has one, and the last gives the same |
| `Txt.RecordRoundTrip` | ui.go:1124-1165 | any printable map is read back, printed in any order and followed by any truncated tail |
| `Signature.MetadataSignature` | ui.go:1167-1178 | the loops give one signature, whatever order the map yields its keys in |
| `Signature.SignatureFirst` | ui.go:1167-1178 | the least key's line comes first, then the signature of the rest |
| `Signature.OneSignature` | ui.go:1167-1178 | one signature in full |
| `Signature.AscendingUnique` | ui.go:1172 | a set of keys has one sorted list |
| `Signature.SignatureInjective` | ui.go:1167-1178 | equal signatures if and only if equal metadata, for keys without `=` or newline and values without newline |
| `Signature.NewlineCollides` | ui.go:1167-1178 | one newline in a value is enough to confuse two metadata |
| `Signature.ErrorMarkIff` | ui.go:697-699 | some error mark equals a signature if and only if the first key begins with `error:` |
| `Advert.AlwaysCoherent` | ui.go:685-702 | after every publish of every run: the advertiser is up with the current metadata and the cache holds their signature, or its start failed and the cache equals no signature |
| `Advert.RestartsIff` | ui.go:689-701 | a publish touches the advertiser if and only if it is the first, the metadata changed, or the last start failed |
| `Advert.NeverTwo` | ui.go:692-695 | every start is stopped before the next: no two advertisers at once |
| `Health.ChoiceIsFirst` | ui.go:783-801 | the sample chosen is of the first profile that succeeds, or of none |
| `Health.Preference` | ui.go:783-801 | Thunderbolt, then AWDL, then LAN: the first with an address, an open socket and a sample without error, under its name and the peer's with its figures |
| `Health.FailuresAre` | ui.go:783-801 | one failure is remembered for each profile tried in vain, in order, with what went wrong |
| `Health.ActiveNames` | ui.go:884-906 | the path shown is the most preferred profile whose last sample succeeded |
| `Health.ActiveExact` | ui.go:880-906 | the active path is the one chosen if and only if no profile tried before it, without an address now, holds an old success |
| `Health.ActivePathOverRuns` | ui.go:596-611 | over runs whose addresses never shrink, after every sampled round the active path is the first success of that round, or none |
| `Health.EveryRoundShowsItsChoice` | ui.go:596-611 | the same for every round of a run |
| `Health.ShrinkingMisleads` | ui.go:786-788 | whenever a peer drops a profile after a success, that profile is still shown |
| `Health.RefreshedEach` | ui.go:642-656 | every profile gets a socket; a usable one is untouched |
| `Health.UsableKept` | ui.go:642-656 | a working socket is kept for the rest of the run |
| `Health.Remembered` | ui.go:865-878 | remembering keeps the history at the last sixty of the log and the index at each profile's last sample |
| `Health.HeldUpdate` | ui.go:650-655 | opening a socket replaces the one of that profile and no other |
| `Agent.MetadataProper` | ui.go:704-729 | the agent's metadata are clean and never look like an error mark, if no value holds a newline |
| `Agent.MetadataDescribes` | ui.go:704-729 | the same of the metadata that are published |
| `Agent.LinkHealthAgent.constructor` | ui.go:567-574 | starts with nothing remembered, opened or published |
| `Agent.LinkHealthAgent.Remember` | ui.go:865-878 | adds one sample to the log; both stores agree with the log |
| `Agent.LinkHealthAgent.SamplePreferred` | ui.go:783-801 | remembers the failures before the first success and returns that success, or a sample of no profile |
| `Agent.LinkHealthAgent.TakeSnapshot` | ui.go:880-916 | active path, history and every link column by column, from the full log |
| `Agent.LinkHealthAgent.Refresh` | ui.go:642-656 | reopens exactly the unusable sockets; everything opened is held or closed |
| `Agent.LinkHealthAgent.BuildMetadata` | ui.go:704-729 | key by key: identity, and for each profile whose socket is up its address and, under `_if`, its interface; no other keys |
| `Agent.LinkHealthAgent.Publish` | ui.go:685-702 | changes cache, advertiser and calls as the cache's law says; after a failed start the cache holds `error:` and the reason |
| `Agent.LinkHealthAgent.Tick` | ui.go:594-610 | one round: sockets, log, cache and report as functions of those before; without a peer nothing is sampled |
| `Agent.StatusSays` | ui.go:596-610 | waiting without a peer, no path when no profile works, otherwise the most preferred that works |
| `Agent.LinkHealthAgent.Close` | ui.go:620-631 | closes every socket that was opened and stops the advertiser |
| `Agent.LinkHealthAgent.Rounds` | ui.go:583-611 | every report of a run is a function of the run so far; at the end every socket opened has been closed |
| `Agent.LinkHealthAgent.Run` | ui.go:576-611 | the same, or one report of the error if the browser does not start, and nothing done |
| `Agent.AgentStaysCoherent` | ui.go:685-702 | the cache's laws hold after every round of the agent's own runs |
| `Trace.CompactCandidateList` | cmd/matrix-summary/main.go:288-297 | the in-place loop compacts each item, in order |
| `Trace.CompactCandidatePairList` | cmd/matrix-summary/main.go:308-317 | the same for pairs |
| `Trace.SummarizeWebRtcTrace` | cmd/matrix-summary/main.go:242-273 | the loop, with its early exit on the whole line, is the summary segment by segment |
| `Trace.NoReports` | cmd/matrix-summary/main.go:243-245 | the early exit only skips lines in which no segment would count |
| `TracePrint.FormatWebRtcStats` | main.go:2856-2897 | the loop over the report prints three sorted lists, or nothing |
| `TracePrint.FormatOrderFree` | main.go:2858-2890 | the text does not depend on the order in which the report is walked |
| `TraceFields.FieldAt` | cmd/matrix-summary/main.go:275-286 | a field is found when its key does not stand earlier |
| `TraceFields.FieldsFind` | cmd/matrix-summary/main.go:275-286 | among many fields, when no earlier name ends with the name looked for |
| `TraceItems.DecimalValue` | main.go:2874-2885 | printed counters and ports can be read back |
| `TraceItems.CompactPrinted` | cmd/matrix-summary/main.go:299-306 | a compacted candidate keeps everything but the ID, which goes exactly for host, srflx and relay over UDP, if and only if no marker is met before the place of its kind |
| `TraceItems.SlashlessUnmistaken` | cmd/matrix-summary/main.go:299-306 | as with every candidate whose pieces hold no slash |
| `TraceItems.CompactPrintedPair` | cmd/matrix-summary/main.go:319-330 | a compacted pair is its state and all its counters if and only if the state holds no colon |
| `TraceItems.CountersInjective` | cmd/matrix-summary/main.go:319-330 | pairs shown alike have the same six counters and nomination, each in its place |
| `TraceItems.EndInjective` | cmd/matrix-summary/main.go:299-306 | candidates shown alike agree in kind, protocol, address, port and deletion |
| `TraceLists.BracketRoundTrip` | cmd/matrix-summary/main.go:332-343 | a bracketed list is read back item by item |
| `TraceLists.CandidatesRead` | main.go:2862-2872 | a printed candidate list comes back as those candidates, in printed order |
| `TraceLists.PairsRead` | main.go:2873-2885 | the same for pairs |
| `TraceLaws.SegmentSummary` | main.go:2813-2847 | from one snapshot the summary takes its label, states, and all candidates and pairs; the error text may hold spaces |
| `TraceLaws.NoListsNoReport` | main.go:2813-2847 | a snapshot without lists, or of no connection, is skipped |
| `TraceLaws.SummaryOfLine` | cmd/matrix-summary/main.go:242-273 | the summary of any line of texts and snapshots shows exactly the snapshots with lists, in order, as they were |
| `TraceSummary.SummaryReads` | cmd/matrix-summary/main.go:259-270 | in the summary of a snapshot `ice=`, `peer=`, `dc=`, `local=`, `remote=` and `pairs=` each stand before their own value, and the label first |
| `TraceSummary.CountersRead` | main.go:2874-2885 | the counters of a pair, taken apart: which is which |
| `TraceSummary.OneLine` | cmd/matrix-summary/main.go:242-273 | one printed line and its summary in full |

## Left out

- Network.framework, Objective-C and dispatch calls, socket creation and binding: only their contracts as read, write, receive, start and stop.
- Pion peer connections, ICE, DTLS and the choice of candidates: candidates are given to `Sdp.NewWireSignal`.
- The user interface, number and text formatting, error message texts (errors are constructors), flags, modes, shell scripts and build metadata: presentation and plumbing.
- Path records and path policies in results: a list carried along, without effect on the counts.
- JSON: an abstract codec, assumed invertible where a lemma says so; a bare description is assumed not to read as a signal with an SDP.
- Payload bytes after the sequence number: never looked at by the receiver.
- Floating-point bitrate and loss: the integers they are computed from are modelled instead.
- `readWireSignal` in main.go: the same filter over lines that a library scanner has already split.
- Latency records: the same numbers as the performance record under fewer columns.
- Listener.EchoUdpPackets: asks for a context that ends when there is no count, as the loop does not end otherwise.
- Scheduler and timer jitter: the clock is idealised as described above.
- Socket.Receive: a write takes no time and a reader never lags, so a timeout comes exactly at its deadline.
- Report.AggregateUdpPerfResults: does not model path records nor 64-bit overflow of summed durations; overflow is modelled for the expected packet count.
- EchoEngines.EchoWindow: sequence numbers are unbounded, where the code has 64 bits of them.
- EchoEngines.UdpEchoOnce: a write that is cut short without an error is not modelled; the socket either takes a whole datagram or fails.
- Signal.SignalConn.WriteLine: a send that its context cancels may still go out; here a send that fails leaves nothing in the stream.
- Agent.LinkHealthAgent.Tick: what sampling, opening and starting answer is given by the environment; the locks are not modelled, as one goroutine runs the loop.
- TraceLaws.SummaryOfLine: counters and ports are natural numbers; a candidate in which a marker is met too early and a pair whose state holds a colon are excluded, because for exactly those the summary shows something else (`TraceItems.CompactPrinted`, `TraceItems.CompactPrintedPair`).
