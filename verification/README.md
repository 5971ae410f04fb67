# Klipper host core

A Dafny model of the parts of the Klipper host program (`klipper/klippy`) that
talk to micro-controllers, schedule work and read configuration, with proofs of
what they promise:

- the wire protocol: CRC and the errors it detects, integer coding, typed
  messages, frames and the resynchronising stream scanner (`Crc16`, `CrcErrors`,
  `VarInt`, `Messages`, `Framing`, `MessageParser`, `ParseDump`);
- clock synchronisation: the decaying regression, its safety in whole runs, and
  the map of a secondary micro-controller (`ClockSync`, `ClockRegression`,
  `ClockBounds`, `ClockFilter`, `SecondarySync`);
- the cooperative scheduler and its mutex (`Reactor`, `ReactorSafety`,
  `ReactorTimes`, `ReactorMutex`);
- configuration: the autosave block, overridden options and includes
  (`Autosave`, `SaveConfig`, `Overrides`, `Includes`);
- numerics: trilateration and coordinate descent (`Trilateration`,
  `CoordinateDescent`);
- the G-code input queue and pin aliases (`GCodeInput`, `PinResolver`).

`Bytes`, `Reals` and `Text` hold what these share. `dafny verify dfyconfig.toml`
checks the project.

Objects whose methods update fields are classes with the same fields. Each
method is proved against a function on the values of those fields, and the
results about whole runs are lemmas about that function. Floating-point numbers
are modelled as reals. Some lemmas name products of reals (`Reals.Times`) or
hide word operations so that the inductions around them stay linear.

Where a greenlet may switch, the model splits the method: a reactor callback is
any sequence of reactor calls ending in a return or a pause, taken from an
oracle; `__enter__` of the mutex and `_process_data` of the G-code input are cut
at their pauses.

## Where the code and its intention differ

- `MessageParser.encode` appends the two CRC bytes as one nested list, where the
  receiver expects two bytes (msgproto.py:297). `Framing.EncodeFrame` is the
  frame with two flat bytes; `Framing.AsWrittenNeverAccepted` is what holds of
  the list as built.
- The CRC is sent high byte first while it is computed low bit first, so twelve
  of the bursts of up to 16 bits that reach it go unnoticed
  (`Framing.BurstRefusedUnless`, `Framing.UnseenBurstExists`).
- `dump` and `parse` read a message id before checking that payload is left
  (msgproto.py:267-274, 285-292). A frame without messages, as every
  acknowledgement is (klipper/docs/Protocol.md), is accepted, and then its first CRC
  byte is taken for an id (`MessageParser.AcknowledgementMisread`); dumps of
  other frames only are right (`MessageParser.PacketRoundTrip`,
  `ParseDump.SentIsPrintedIff`).
- `alias_pin` compares a repeated alias with the resolved pin, so a declaration
  that was accepted can be refused when repeated (`PinResolver.RepeatedAliasIff`,
  `PinResolver.RepeatedAliasRefused`).
- Aliases declared between commands can defeat the check for two names of one
  pin (`PinResolver.LateAliasIff`, `PinResolver.LateAliasDefeatsValidation`).
- `calibrate_clock` divides by the new frequency and fails when both sync clocks
  are equal; the new map runs backwards when the second is the earlier one
  (`SecondarySync.ThroughBothPoints`, `SecondarySync.EqualClocksDivide`,
  `SecondarySync.LaggingRunsBackwards`).
- `_handle_clock` updates the regression before a division that fails exactly
  when all samples have one sent time (`ClockRegression.ReplyStep`,
  `ClockRegression.FirstReplyDivides`).
- `__exit__` of the mutex does not ask who leaves; a leave by a task that does not
  hold the lock does harm exactly when another one does (`ReactorMutex.LeaveIff`).
- User text that contains the autosave marker is no longer told from the saved
  block, and saving again does not give the same file (`SaveConfig.SaveTwiceIff`).

## Model

| member | source | states |
|---|---|---|
| Crc16.Crc16Ccitt | klipper/klippy/msgproto.py:29-35 | the byte loop, with a register given room to overflow, computes the bit-at-a-time reflected CRC (polynomial 0x8408, start 0xffff, no complement) of any buffer, high byte first |
| Crc16.UpdateIsEightShifts | klipper/klippy/msgproto.py:31-34 | one turn of the loop on a 16-bit register is eight single-bit shifts, so the register stays within 16 bits |
| Crc16.FeedLinear | klipper/klippy/msgproto.py:29-35 | how much the CRCs of two messages differ depends only on where their bits differ |
| CrcErrors.FitsIff | klipper/klippy/msgproto.py:29-35 | whether a corrupted buffer fits its corrupted CRC depends only on which bits were flipped |
| CrcErrors.BurstDetected | klipper/klippy/msgproto.py:29-35 | two buffers of equal length that differ only inside some 16 consecutive bits have different CRCs |
| CrcErrors.AdjacentBytesDetected | klipper/klippy/msgproto.py:29-35 | two buffers of equal length that differ, but only in two adjacent bytes, have different CRCs |
| CrcErrors.BurstSlipsIff | klipper/klippy/msgproto.py:29-35 | of the bursts of up to 16 bits in data and CRC together, as sent, exactly twelve patterns go unnoticed |
| CrcErrors.FeedParity | klipper/klippy/msgproto.py:29-35 | the parity of the register is the parity of the bits absorbed |
| CrcErrors.OddFlipsDetected | klipper/klippy/msgproto.py:29-35 | any odd number of flipped bits, anywhere, changes the CRC |
| CrcErrors.NeverBack | klipper/klippy/msgproto.py:29-35 | a lone bit does not come back to itself within 512 shifts of the register |
| CrcErrors.FewFlipsDetected | klipper/klippy/msgproto.py:29-35 | up to three flipped bits in up to 64 bytes change the CRC |
| CrcErrors.FewBitsNoticed | klipper/klippy/msgproto.py:29-35 | up to three flipped bits in the data of a frame and its CRC together never make up for each other |
| VarInt.EncodeTo | klipper/klippy/msgproto.py:42-47 | the encoder appends its code and changes nothing before it |
| VarInt.ParseFrom | klipper/klippy/msgproto.py:48-60 | the parsing loop, including reading past the end |
| VarInt.ParseEncode | klipper/klippy/msgproto.py:42-63 | for every integer, parsing its code among any other bytes reads exactly the code and gives the number modulo 2^32 (unsigned) or its representative modulo 2^35 (signed) |
| VarInt.SignedRoundTripIff | klipper/klippy/msgproto.py:42-63 | a signed number comes back as itself exactly on [-2^33, 3*2^33) |
| VarInt.ParseFailsIff | klipper/klippy/msgproto.py:48-57 | parsing runs off the end exactly when no byte from there on has its high bit clear |
| VarInt.ValueInjective | klipper/klippy/msgproto.py:48-57 | terminated byte strings of one length stand for different signed numbers |
| VarInt.EncodeShortest | klipper/klippy/msgproto.py:42-47 | on that window the code is the unique shortest terminated string the signed parser maps to the number |
| VarInt.PrefixFree | klipper/klippy/msgproto.py:42-47 | no code is a proper prefix of another |
| Messages.ParamRoundTrip | klipper/klippy/msgproto.py:37-115 | an encoded parameter of any type is read back from among any bytes with exactly its length; it equals what was sent exactly when it is in range and, for a symbol, no later symbol has its value, and otherwise is the wrapped number, its last symbol or an unknown one |
| Messages.EncodesIff | klipper/klippy/msgproto.py:64-115 | which parameters a type can encode, and the error for a symbol it does not know |
| Messages.InjectiveReverse | klipper/klippy/msgproto.py:99-115 | in an injective enumeration every value leads back to its symbol |
| Messages.EncodeFormat | klipper/klippy/msgproto.py:171-176 | the id byte and then the parameters in declared order, failing on a missing parameter or unknown symbol |
| Messages.ParamsRoundTrip | klipper/klippy/msgproto.py:171-189 | the parameter loop reads back all parameters of a message and stops right after them |
| Messages.StoredByName | klipper/klippy/msgproto.py:183-189 | with distinct names each parameter is found under its own name |
| Messages.OutputComesBack | klipper/klippy/msgproto.py:198-214 | an output message is read back with all its arguments in order, without names |
| Messages.DumpFrame | klipper/klippy/msgproto.py:264-275 | the loop of dump, which reads an id before asking whether payload is left |
| Messages.DumpRoundTrip | klipper/klippy/msgproto.py:264-275 | walking a payload gives the same messages and parameters in order exactly when there are any |
| Messages.DumpNeverEmpty | klipper/klippy/msgproto.py:264-275 | a dump has at least one entry, so a payload without messages is never dumped as such |
| Messages.ParsePacketRoundTrip | klipper/klippy/msgproto.py:285-292 | parse accepts a frame of one message and refuses one of several as having extra data |
| Framing.FrameAccepted | klipper/klippy/msgproto.py:244-299 | the intended frame followed by any bytes is accepted with exactly its length, unless its payload exceeds 59 bytes, when it is refused |
| Framing.AsWrittenNeverAccepted | klipper/klippy/msgproto.py:293-299 | the list encode really builds for any command, with the CRC nested as one element, is never accepted by itself, whatever byte stands for the nested pair |
| Framing.VerdictStable | klipper/klippy/msgproto.py:244-263 | a verdict other than "more data" does not change when data arrives |
| Framing.AcceptedAlone | klipper/klippy/msgproto.py:244-263 | an accepted frame is accepted when cut out |
| Framing.WaitingIsShort | klipper/klippy/msgproto.py:244-263 | data still waited on is at most 63 bytes |
| Framing.WaitsIff | klipper/klippy/msgproto.py:244-257 | the receiver waits exactly for a smallest frame, or for the length announced after a fitting length and sequence byte |
| Framing.CorruptedAcceptedIff | klipper/klippy/msgproto.py:244-263 | a frame corrupted anywhere but in its length byte is accepted exactly when sequence and sync byte pass and the flips in the data ask for just the flips in the CRC |
| Framing.BurstRefusedUnless | klipper/klippy/msgproto.py:244-263 | a frame hit by a burst of up to 16 bits anywhere but in its length byte is refused, unless the burst is one of the twelve in the four bytes before the sync byte; those pass if the sequence byte does |
| Framing.UnseenBurstExists | klipper/klippy/msgproto.py:244-263 | two accepted frames that differ by such a burst |
| Framing.FlipsRefused | klipper/klippy/msgproto.py:244-263 | a frame with an odd number of flipped bits, or two, anywhere but in its length byte is refused |
| MessageParser.Parser.InitMessages | klipper/klippy/msgproto.py:375-392 | fills the four tables entry by entry and stops, the refused entry listed, exactly when a tag is not a single-byte one |
| MessageParser.AcceptedTagIsItsCode | klipper/klippy/msgproto.py:383-386 | a tag is accepted exactly when the integer coding gives it one byte, and that byte is its message id |
| MessageParser.IdsDistinct | klipper/klippy/msgproto.py:383-386 | different accepted tags have different message ids |
| MessageParser.RegisteredById | klipper/klippy/msgproto.py:375-392 | after an accepted initialisation with distinct tags every message is found under its id |
| MessageParser.RegisteredByName | klipper/klippy/msgproto.py:375-392 | with distinct names and texts, commands and responses are found under their names, and every tag under its text |
| MessageParser.AllListed | klipper/klippy/msgproto.py:375-392 | the list of messages grows by all entries in order, with tag, kind and text |
| MessageParser.RefusedIsLast | klipper/klippy/msgproto.py:375-392 | a refused tag ends it and is listed last |
| MessageParser.FormatSpelled | klipper/klippy/msgproto.py:383-392 | what is filed for an entry, by kind |
| MessageParser.RegisteredSendable | klipper/klippy/msgproto.py:375-392 | so every registered command or response with surviving parameters can be sent through the tables built |
| MessageParser.PacketRoundTrip | klipper/klippy/msgproto.py:244-299 | a frame of any registered messages is accepted with its length; it is dumped to the same messages exactly when there are any, and parsed when there is one |
| MessageParser.AcknowledgementMisread | klipper/klippy/msgproto.py:244-299 | a frame without messages is accepted, and its first CRC byte is taken for a message id |
| ParseDump.DrainBuffer | klipper/klippy/parsedump.py:32-42 | the inner loop terminates, prints what one scan of the buffer accepts and leaves what that scan leaves |
| ParseDump.Run | klipper/klippy/parsedump.py:26-42 | for any split of a stream into reads the output, the failure if any and the leftover are those of one scan of the whole stream |
| ParseDump.FailureEndsPrint | klipper/klippy/parsedump.py:38-42 | a frame whose dump fails ends the output after what was printed before it |
| ParseDump.ScanAppend | klipper/klippy/parsedump.py:27-42 | scanning what was left over together with new data continues the scan of the whole |
| ParseDump.ScanKeepsBytes | klipper/klippy/parsedump.py:32-42 | frames, skipped bytes and leftover in order make up the input; every frame is acceptable alone; the leftover is under 64 bytes |
| ParseDump.NoiseSkipped | klipper/klippy/parsedump.py:36-39 | bytes that cannot be a length are dropped and the scan resumes as if they had not been there |
| ParseDump.SentIsScanned | klipper/klippy/parsedump.py:26-42 | the bytes of any packets sent one after the other, acknowledgements included, are scanned as just these frames, nothing skipped, nothing left |
| ParseDump.SentIsPrintedIff | klipper/klippy/parsedump.py:26-42 | they are dumped to exactly their messages, without failure, exactly when every packet has a message |
| ClockSync.ExtendClockIff | klipper/klippy/clocksync.py:67-70 | the 64-bit clock is right after a report exactly when the true clock advanced by less than 2^32 since the last |
| ClockSync.Clock32To64Iff | klipper/klippy/clocksync.py:137-141 | exact precisely on the window from 2^31 below the last clock to just under 2^31 above it |
| ClockSync.Sync.BeginConnect | klipper/klippy/clocksync.py:32-39 | the state taken from the uptime reply |
| ClockSync.Sync.ForgetPrediction | klipper/klippy/clocksync.py:41-43 | what connect resets before each of its queries |
| ClockSync.Sync.HandleClock | klipper/klippy/clocksync.py:65-119 | one reply: clock extension, untimed replies, round trip, filter, regression, the division that may fail, and what the serial code is given |
| ClockSync.Sync.UpdateRtt | klipper/klippy/clocksync.py:75-80 | the round-trip tracking stage |
| ClockSync.Sync.FilterSample | klipper/klippy/clocksync.py:83-103 | the outlier stage: drop, reset or update of the prediction spread |
| ClockSync.Sync.AddSample | klipper/klippy/clocksync.py:104-112 | the regression stage |
| ClockSync.SystimeInvertsClock | klipper/klippy/clocksync.py:128-133 | the estimated system time of a clock is a time with that clock |
| ClockSync.ClockAfter | klipper/klippy/clocksync.py:128-130 | the clock some time after the estimate's moves on at the estimated frequency, in whole ticks |
| ClockSync.ConnectPredicts | klipper/klippy/clocksync.py:32-39 | from connect on clocks are predicted at the nominal frequency from the uptime, with a spread of 1000 ppm |
| ClockSync.ForSerialIsBehind | klipper/klippy/clocksync.py:113-117 | the serial code gets the frequency, a millisecond after the average time, and three standard deviations below the average clock |
| ClockFilter.IgnoredIff | klipper/klippy/clocksync.py:83-95 | a sample is ignored exactly if it is later than predicted by more than five standard deviations and by more than 500 ppm, and was sent within ten seconds of the last one as predicted |
| ClockFilter.IgnoredKeeps | klipper/klippy/clocksync.py:83-95 | then the regression, the spread and the estimate stay as they are |
| ClockFilter.UsedUpdatesSpread | klipper/klippy/clocksync.py:96-103 | a used sample far off restarts the spread at 1000 ppm; any other takes its deviation in and counts as predicted |
| ClockFilter.IgnoredLessThanTenSeconds | klipper/klippy/clocksync.py:83-95 | in every run, samples ignored on end were all sent within ten seconds of the last one as predicted |
| ClockRegression.ExpectStep | klipper/klippy/clocksync.py:104-112 | under the weights written out for a whole history, a new sample scales the old mean by 29/30 and enters with 1/30 |
| ClockRegression.ConnectTracks | klipper/klippy/clocksync.py:34-39 | the connect sample starts the history |
| ClockRegression.RegressTracks | klipper/klippy/clocksync.py:104-112 | the incremental update keeps the accumulators equal to the weighted means, variance and covariance of the whole history |
| ClockRegression.RunTracks | klipper/klippy/clocksync.py:65-112 | over every run from connect on |
| ClockRegression.ErrorExcess | klipper/klippy/clocksync.py:113-114 | how much any line exceeds the fitted one in weighted squared error |
| ClockRegression.LeastSquares | klipper/klippy/clocksync.py:113-114 | covariance over variance is the slope of the unique weighted least-squares line |
| ClockRegression.VarianceVanishesIff | klipper/klippy/clocksync.py:107-114 | the divisor is never negative, and zero exactly when all samples were sent at one time |
| ClockRegression.ReplyStep | klipper/klippy/clocksync.py:65-119 | after each reply the statistics hold, a new estimate is the least-squares line, and the division fails exactly when all sent times agree |
| ClockRegression.FirstReplyDivides | klipper/klippy/clocksync.py:65-119 | as for a first reply that carries the sent time of connect's query |
| ClockRegression.RunKeepsBestTrip | klipper/klippy/clocksync.py:71-80 | over every run the tracked round trip is the first of those seen that none beats when aged to the same time |
| ClockBounds.ClockStaysTrue | klipper/klippy/clocksync.py:65-74 | over every run in which the clock advances by less than 2^32 between reports, last_clock is the true 64-bit clock after every report, whatever the sent times, and whether samples are used, dropped or fail |
| ClockBounds.ClockGoesWrong | klipper/klippy/clocksync.py:65-74 | the first report that does not keep to this leaves it wrong |
| ClockBounds.ClockRecovered | klipper/klippy/clocksync.py:137-141 | after such a run a 32-bit clock is extended exactly precisely on the window around the last report |
| ClockBounds.HappeningSafe | klipper/klippy/clocksync.py:65-119 | one reply of a steady run keeps the invariant, never divides by zero, and any new frequency is within the rates |
| ClockBounds.SteadyRunSafe | klipper/klippy/clocksync.py:65-119 | over every run with increasing sent times and bounded rates, through dropped samples and resets: a weighted covariance within the rates times the variance, and a spread whose square root exists |
| ClockBounds.EstimatesWithinRates | klipper/klippy/clocksync.py:30-119 | from connect on: the true clock, a positive variance and a frequency in [fmin, fmax] after every accepted sample |
| SecondarySync.Points | klipper/klippy/clocksync.py:196-210 | the first sync time is the later of now and the print time; the second is the latest of four seconds on, the last sync time and 2.5 times the lead |
| SecondarySync.PrintTimeIsClock | klipper/klippy/clocksync.py:197-200 | the primary's print time is its clock in units of its nominal frequency |
| SecondarySync.Secondary.CalibrateClock | klipper/klippy/clocksync.py:195-217 | the new map is the line through the two points and the sync time is the later one, or nothing changes because a division failed |
| SecondarySync.ThroughBothPoints | klipper/klippy/clocksync.py:209-213 | the new map gives exactly both clocks, and rises exactly when the second clock is the later one |
| SecondarySync.Continuous | klipper/klippy/clocksync.py:201-213 | old and new map agree at the first sync time |
| SecondarySync.MeetsPrimary | klipper/klippy/clocksync.py:195-213 | when the primary reaches the second sync time, the own clock is what the new map gives there |
| SecondarySync.PrintTimeInvertsClock | klipper/klippy/clocksync.py:181-186 | the print time of a clock maps back to that clock |
| SecondarySync.RecalibrationJoins | klipper/klippy/clocksync.py:195-217 | one recalibration is continuous, rises if the second clock is the later one, and never takes the sync time back |
| SecondarySync.RunJoins | klipper/klippy/clocksync.py:195-217 | over any run of calibrations with later second clocks and first sync times that do not go back, failures included, the maps join up and the sync time never decreases |
| SecondarySync.RunNeverBackwards | klipper/klippy/clocksync.py:195-217 | over any such run no earlier time lands after a later one |
| SecondarySync.EqualClocksDivide | klipper/klippy/clocksync.py:195-217 | a clock four seconds behind its map: the calibration divides by zero |
| SecondarySync.LaggingRunsBackwards | klipper/klippy/clocksync.py:195-217 | a clock eight seconds behind: the new map runs backwards |
| Reactor.SelectReactor.UpdateTimer | klipper/klippy/reactor.py:120-122 | the wake time set and the cached one lowered |
| Reactor.SelectReactor.RegisterTimer | klipper/klippy/reactor.py:123-129 | a new timer appended to a fresh list |
| Reactor.SelectReactor.UnregisterTimer | klipper/klippy/reactor.py:130-134 | a timer taken off the list |
| Reactor.SelectReactor.PauseDispatcher | klipper/klippy/reactor.py:208-227 | a pausing dispatcher gets a wake timer and forces a rescan |
| Reactor.SelectReactor.CallTimer | klipper/klippy/reactor.py:154-163 | one callback, which may run any operations, return, pause, or be a paused task going on and finishing |
| Reactor.SelectReactor.CheckTimers | klipper/klippy/reactor.py:135-164 | the pass over a snapshot of the timers, and the time the poll may sleep |
| ReactorSafety.CallKeeps | klipper/klippy/reactor.py:154-163 | whatever one callback does, the timer called is accounted for in the cached wake time |
| ReactorSafety.CheckKeeps | klipper/klippy/reactor.py:135-164 | between passes the cached wake time is at most every registered wake time (or already due) |
| ReactorSafety.FdCallbackKeeps | klipper/klippy/reactor.py:271-284 | the same for descriptor callbacks, which may pause too |
| ReactorSafety.WakesInTime | klipper/klippy/reactor.py:136-151 | a poll sleeps past no registered wake time by more than a millisecond, and an idle one for a second unless the cached wake time comes first |
| ReactorSafety.PauseForcesRescan | klipper/klippy/reactor.py:208-236 | after a pause, in a pass or in a descriptor callback, the next pass looks at every timer |
| ReactorSafety.CheckCallsDue | klipper/klippy/reactor.py:152-164 | in an unpaused pass, whatever the callbacks do, every timer is called exactly once if it is due when the pass reaches it, else not at all |
| ReactorSafety.CheckCallsOnce | klipper/klippy/reactor.py:152-164 | no pass, paused or not, calls a timer twice or one registered since it began |
| ReactorSafety.CallOnceOnly | klipper/klippy/reactor.py:40-50 | a register_callback timer called once is gone for good |
| ReactorSafety.RunSafe | klipper/klippy/reactor.py:120-236 | for every program and run: no wakeup lost, and register_callback callbacks run at most once |
| ReactorTimes.UpdateSets | klipper/klippy/reactor.py:120-122 | the timer wakes at the time given, all others as before |
| ReactorTimes.RegisterAdds | klipper/klippy/reactor.py:123-129 | the new timer is last on the list and wakes at the time given, all others as before |
| ReactorTimes.UnregisterTakes | klipper/klippy/reactor.py:130-134 | the timer is off the list and asleep, all others as before |
| ReactorTimes.CallRunsOps | klipper/klippy/reactor.py:154-163 | a callback does to other timers what its operations do, and raises exactly if one of them does |
| ReactorTimes.FdCallbackRunsOps | klipper/klippy/reactor.py:271-284 | the same for a descriptor's callback |
| ReactorTimes.ReturnSetsWake | klipper/klippy/reactor.py:154-163 | a timer next wakes when its callback's return value says, whatever the callback did; a register_callback timer does not |
| ReactorTimes.PauseSetsWake | klipper/klippy/reactor.py:208-227 | a callback that pauses is woken at the time it gave |
| ReactorTimes.FinishSetsWake | klipper/klippy/reactor.py:154-236 | a paused task that finishes gives its answer to the timer it had paused in, and its wake timer is gone |
| ReactorTimes.CheckReturns | klipper/klippy/reactor.py:152-164 | in an unpaused pass a called timer that later callbacks leave alone ends with the wake time its callback returned |
| ReactorTimes.CheckCallsWaiting | klipper/klippy/reactor.py:152-164 | a timer that no earlier callback of a pass touches is called in it exactly if it was due when the pass began |
| ReactorTimes.CalledAgain | klipper/klippy/reactor.py:152-164 | so a periodic timer is called again by the first pass that finds the time its callback returned reached |
| ReactorTimes.IdlePass | klipper/klippy/reactor.py:152-164 | after a pass that finds nothing due the cached wake time is the earliest of all timers |
| ReactorMutex.Mutex.Enter | klipper/klippy/reactor.py:75-82 | entering a free lock, or queueing; it returns at once exactly if the task owns the lock |
| ReactorMutex.Mutex.Resume | klipper/klippy/reactor.py:81-86 | going on after a pause: taking a hand-over or pausing again |
| ReactorMutex.Mutex.Exit | klipper/klippy/reactor.py:87-92 | leaving, by whoever does: freeing the lock or waking the head of the queue |
| ReactorMutex.RunSound | klipper/klippy/reactor.py:65-92 | over every run in which nobody leaves another's lock: one owner at most, those let in followed by the queue are those who asked in order, one entry per leave, a pending hand-over has no owner and a woken head, and all others who queue are asleep |
| ReactorMutex.RunRecordsArrivals | klipper/klippy/reactor.py:75-82 | those who asked are all tasks that entered, in order |
| ReactorMutex.EnterTakesOrWaits | klipper/klippy/reactor.py:75-82 | a free lock is taken; at another the task queues, asleep |
| ReactorMutex.ExitFreesOrWakes | klipper/klippy/reactor.py:87-92 | the owner's leave frees a lock nobody waits for, and else wakes the first in the queue |
| ReactorMutex.LeaveIff | klipper/klippy/reactor.py:87-92 | a leave keeps all that exactly when no other task holds the lock |
| ReactorMutex.GrantsInOrder | klipper/klippy/reactor.py:75-86 | only a lock without owner is granted, and to the first who asked and is still outside |
| ReactorMutex.SpuriousWakeupsHarmless | klipper/klippy/reactor.py:81-86 | every run stays possible without its spurious wakeups, and ends the same but for wake times |
| ReactorMutex.HandOverSucceeds | klipper/klippy/reactor.py:81-92 | the wakeup of a hand-over is due and lets the head in |
| ReactorMutex.HandOverKept | klipper/klippy/reactor.py:75-92 | a pending hand-over stays pending and due over every run in which its task is not resumed |
| Autosave.ReadAutosave | klipper/klippy/configfile.py:166-188 | finding the block, refusing a tampered one, and taking off the prefixes |
| Autosave.PlainFile | klipper/klippy/configfile.py:166-188 | a file without the marker is all the user's |
| Autosave.BlockIsRead | klipper/klippy/configfile.py:166-188 | a file with a saved block is all the user's exactly if a line of the block was edited; otherwise the block is read without its prefixes |
| Autosave.WriteAutosave | klipper/klippy/configfile.py:388-407 | the text of the file SAVE_CONFIG writes |
| Autosave.SaveReadsBackIff | klipper/klippy/configfile.py:166-188 | reading back recovers the right-trimmed user text plus one newline and every saved line without trailing blanks, exactly when the user text is free of the marker |
| SaveConfig.StripDuplicateFields | klipper/klippy/configfile.py:189-213 | the loop comments out exactly the overridden fields and their continuation lines |
| Overrides.FieldInSection | klipper/klippy/configfile.py:189-213 | a field line is commented out exactly if the other configuration has that option in the section of the last header before it |
| Overrides.FieldBeforeSections | klipper/klippy/configfile.py:189-213 | or in no section, when there is no header before it |
| Overrides.ContinuationFollows | klipper/klippy/configfile.py:189-213 | indented lines after a field are commented out exactly if the field is |
| Overrides.OthersStay | klipper/klippy/configfile.py:189-213 | headers, comments and blank lines are never touched |
| SaveConfig.StrippedNothingOverridden | klipper/klippy/configfile.py:191-213 | afterwards no line is an overridden field or continues one |
| SaveConfig.StripIdempotent | klipper/klippy/configfile.py:191-213 | stripping twice is stripping once |
| SaveConfig.KeptIsStripped | klipper/klippy/configfile.py:405-407 | the user text a save leaves behind needs no stripping |
| SaveConfig.SaveTwiceIff | klipper/klippy/configfile.py:388-407 | saving the same settings again writes the identical file exactly when the stripped user text is free of the marker |
| SaveConfig.StripMakesNoMarker | klipper/klippy/configfile.py:191-213 | commenting out lines neither makes nor removes a marker, as no option has an empty name |
| SaveConfig.SaveOverReadsBack | klipper/klippy/configfile.py:388-407 | the whole round trip for every user text free of the marker |
| Includes.ConfigReader.ParseBuffer | klipper/klippy/configfile.py:214-223 | buffered lines, if any, are handed over as one unit with their file |
| Includes.ConfigReader.ParseConfig | klipper/klippy/configfile.py:239-264 | terminates, fails as the expansion does, else feeds the parser exactly the units of the expansion and leaves visited as found |
| Includes.ConfigReader.ResolveInclude | klipper/klippy/configfile.py:224-238 | the files of one include line, in order |
| Includes.FailureHasChain | klipper/klippy/configfile.py:224-243 | a failure has a chain of includes that comes back to an open file, if it is about recursion, or reaches a broken one |
| Includes.SuccessHasNoChain | klipper/klippy/configfile.py:239-264 | after a success no chain from the file does |
| Includes.LoadFailsIff | klipper/klippy/configfile.py:224-264 | loading fails exactly when such a chain starts at the root; reaching a file twice along different chains is fine |
| Includes.LoadIsTextualInclusion | klipper/klippy/configfile.py:239-264 | the lines the parser is fed are the text got by replacing include lines by file contents until none is left |
| Includes.UnitsAreRuns | klipper/klippy/configfile.py:244-262 | every unit is all the lines of one file between two of its include lines, its beginning or its end |
| Trilateration.Pythagoras | klipper/klippy/mathutil.py:97-103 | in the frame the code builds, squared length is the sum of squared coordinates |
| Trilateration.FrameIff | klipper/klippy/mathutil.py:94-103 | d and the norm of vect_ey are not zero exactly when the centres are not on one line |
| Trilateration.FrameFits | klipper/klippy/mathutil.py:94-103 | the frame is orthonormal, the centres lie at d and (i, j) in it, and j is not zero |
| Trilateration.AtDistancesIff | klipper/klippy/mathutil.py:105-107 | a point is at the three distances exactly when it has the computed x and y and the computed square of z |
| Trilateration.TrilaterationDefinedIff | klipper/klippy/mathutil.py:92-112 | division by zero exactly for collinear centres; otherwise the result is on all three spheres, or there is no such point |
| Trilateration.TrilaterationChooses | klipper/klippy/mathutil.py:107-112 | of the common points the result is the one with non-positive third coordinate, and any other is its mirror image |
| CoordinateDescent.Round | klipper/klippy/mathutil.py:28-45 | the inner loop |
| CoordinateDescent.RoundResult | klipper/klippy/mathutil.py:28-45 | a round keeps best_err the error of the current parameters and never raises it, moves a parameter by its step or not at all with the step adapted accordingly, keeps steps positive, and if nothing moved no single step improves |
| CoordinateDescent.Descend | klipper/klippy/mathutil.py:15-48 | the parameters after as many rounds from steps of one as it takes for the steps to add up to the threshold, at most 10000; never worse than the start, strictly better if some step of one improves on it; other parameters untouched |
| GCodeInput.GCodeIO.ProcessData | klipper/klippy/gcode.py:445-486 | reassembling lines, queueing, suspending reads, or starting a batch |
| GCodeInput.GCodeIO.TakeBatch | klipper/klippy/gcode.py:482-490 | the processing loop between two batches |
| GCodeInput.GCodeIO.FinishBatch | klipper/klippy/gcode.py:482-490 | going on when a batch is done |
| GCodeInput.RunSound | klipper/klippy/gcode.py:445-490 | what every run keeps, one running batch at a time included |
| GCodeInput.EveryLineOnce | klipper/klippy/gcode.py:445-490 | batches handed over followed by pending lines are exactly the complete lines received, however split; when nothing runs nothing is pending and reading is on |
| GCodeInput.ReadWhileRunning | klipper/klippy/gcode.py:455-479 | a read during a batch queues the lines it completes, and reading stops exactly when twenty are queued |
| GCodeInput.ReadAtRest | klipper/klippy/gcode.py:455-490 | a read at rest hands the lines it completes over as one batch |
| GCodeInput.BatchEnds | klipper/klippy/gcode.py:482-490 | after a batch all queued lines are the next one, or processing ends and reading goes on |
| GCodeInput.QueueBounded | klipper/klippy/gcode.py:474-479 | the queue never holds more than a full one plus one read |
| PinResolver.Resolver.ReservePin | klipper/klippy/pins.py:24-28 | a pin is reserved under one name only |
| PinResolver.Resolver.AliasPin | klipper/klippy/pins.py:29-40 | conflicts, invalid names, and the loop that redirects existing aliases |
| PinResolver.Resolver.FixupPin | klipper/klippy/pins.py:42-52 | one pin name of a command, with what stays behind after an error |
| PinResolver.Resolver.UpdateCommand | klipper/klippy/pins.py:41-53 | the command's text with each pin name replaced, up to the first error |
| PinResolver.UpdateUsesNames | klipper/klippy/pins.py:41-53 | the text comes to its pin names used in order, and put back as pins when all are accepted |
| PinResolver.SubstitutedNames | klipper/klippy/pins.py:41-53 | a rewritten command has the new names in the places of the old, and putting those back gives the command |
| PinResolver.NameAfterPrefix | klipper/klippy/pins.py:16-16 | a pin name is what stands between "pin=" after a blank or underscore and the next blank |
| PinResolver.NoNameIff | klipper/klippy/pins.py:16-16 | a command has no pin name exactly if no such prefix occurs |
| PinResolver.UseNameOutcome | klipper/klippy/pins.py:42-52 | a name is refused exactly if its pin is in use under another name or reserved, and otherwise becomes its pin |
| PinResolver.ValidTargetIff | klipper/klippy/pins.py:33-34 | targets have no modifier characters and no blanks |
| PinResolver.AliasedResolves | klipper/klippy/pins.py:29-40 | an accepted alias merges two classes of names and changes no other |
| PinResolver.ResolveIffConnected | klipper/klippy/pins.py:29-40 | after any accepted declarations, cycles included, resolving is idempotent and two names resolve alike exactly when a chain of declarations connects them |
| PinResolver.RepeatedAliasIff | klipper/klippy/pins.py:29-32 | declaring an accepted alias again is refused exactly when its target was itself an alias of another pin |
| PinResolver.RepeatedAliasRefused | klipper/klippy/pins.py:29-32 | a to b, declared twice when b stands for c |
| PinResolver.OneNameAPin | klipper/klippy/pins.py:41-53 | with aliases fixed and validation on, all commands together never get two names accepted for one pin |
| PinResolver.LateAliasIff | klipper/klippy/pins.py:29-53 | after an alias declared while names are in use, no commands that follow get two names accepted for one pin exactly when it merges nothing, or no accepted name stands for the pin merged, or the pin merged into is reserved without an accepted name |
| PinResolver.CarefulRunSafe | klipper/klippy/pins.py:24-53 | over every run of declarations, reservations and commands in which no used pin is merged into another, no two names are ever accepted for one pin |
| PinResolver.LateAliasDefeatsValidation | klipper/klippy/pins.py:29-53 | a name used, then aliased to a pin used afterwards, goes unnoticed |

## Left out

- Messages.EncodeParam: strings of more than 255 bytes, whose length entry is no byte any more; the code does not check.
- Framing.EncodeFrame: commands of more than 250 bytes, whose length entry is no byte any more; the code does not check.
- Messages.ParamType: enumerations over string types; the code would build them, and then fail in formatting.
- Messages.DumpFrame: the text lines made of the parsed messages; the result is the messages and parameters themselves.
- Messages.ParseParam: the text made of parsed parameters; an unknown enumeration value is its number, not the text "?" and the number.
- MessageParser.Parser.constructor: starts with empty tables; the two default messages are entries for InitMessages like any others.
- MessageParser.Definition: parsing a format string into names and types is not part of the model.
- ClockSync.Sync.HandleClock: rounding; math.sqrt is any function, and what the C code does with its estimate is not part of this model.
- SecondarySync.Secondary.constructor: connect of a secondary clock, which sets an initial map before the first calibration.
- Reactor.SelectReactor.CheckTimers: the garbage-collection heuristic of an idle pass.
- Reactor.Holds: an operation on a handle no callback can hold counts as an exception.
- Autosave.FindAutosaveData: file access and newline conversion; texts are strings of characters.
- SaveConfig.HasOption: the configuration parser's has_option is any predicate; for StripMakesNoMarker and SaveTwiceIff it has no option with an empty name.
- Includes.Item: matching section headers and file patterns; an include line is given as the sorted files it names.
- Reals.SquareRoot: rounding; math.sqrt is any function giving non-negative exact roots.
- GCodeInput.GCodeIO.ProcessData: decoding of bytes, the end of a debug input file and the emergency stop found among pending lines.
- ReactorCompletion, asynchronous callbacks from other threads, and the file descriptor lists of the poll loops.
- create_command, encode_by_name, process_identify and the enumerations it unfolds.
- G-code command handling, the user interface, and the services around the host.
