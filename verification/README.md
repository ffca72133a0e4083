# A verified model of the inverter tools

The repository talks to off-grid solar inverters that speak the Voltronic P18 protocol. A daemon accepts
client connections, validates requests, serialises access to one inverter, caches answers and writes
replies; below it a device layer frames requests with a checksum, sends and receives them over a serial
line or USB reports, and a decoder turns answers into values. This project models that stack, from bytes on
the wire to the threads of the daemon, and proves what its parts promise each other.

| module | models |
|---|---|
| `Crc`, `CrcTheory`, `CrcRemainder`, `CrcErrors`, `CrcPatterns` | the nibble-table checksum, the simple bit-serial division it equals, the polynomial remainder both compute, what errors it sees, and what the adjustment of reserved bytes costs |
| `Line`, `Device`, `Endings`, `Framing`, `Deadlines`, `HidLine`, `Exchanges` | the line as an adversary that commits to a schedule of partial transfers, errors and delays; the device class method by method; the cause of each of its endings; framing, deadlines and USB reports over every schedule; transactions one after the other |
| `Server`, `ServerHistory`, `Interleaving` | the body of `executeCommand` under its mutex, its state as a function of the history of calls, and a step machine with any number of threads |
| `Integers`, `Text`, `Parsing`, `Splitting` | unsigned arithmetic, the library's number parsing, rounding and printing, which texts are numbers and which number is next, and splitting at a separator |
| `Commands`, `Validator`, `Acceptance`, `Voltages` | acceptance and normalisation of arguments, for each of the 41 commands with its words and limits written out, and voltages through floats and doubles |
| `Encoder`, `Decoder`, `Spelling` | the encoder of all commands, a decoder that serves as the reference for it, and the layout of every payload, character by character |
| `Response`, `Unpackers` | header and list checks of answers, typed answers, round trips |
| `Requests`, `Replies` | request lines and the options of a connection; replies: partial sends, and reading the stream back |
| `Stack` | the layers put together, from user arguments to the inverter and back |

Conventions. A byte is a `bv8`, the checksum register a `bv16`; 32-bit and 64-bit wrap-around and the rounding of
voltages are written out where the code has them. Characters are bytes, as in every `std::string`; where a theorem
needs that, `Stack.OneByte` says so. Methods follow the loops and field updates of the source and are proved equal to a
function of the old state; the properties are proved about those functions. Where a C++ function throws, the
model returns `None`, `InvalidArgument` or `Failed`. An operation that uses up its schedule of answers is
`Stalled`: it is still waiting.

Findings, each with a lemma:

- The adjustment of reserved checksum bytes gives up burst detection: `63 FB` and `D4 49` differ within
  sixteen bits and carry the same checksum `00 0E` (`CrcErrors.AdjustmentHidesABurst`). Which error patterns are
  still seen in every message is `CrcPatterns.SeenExactly`.
- With the read flag set and the verify flag clear every response is rejected, valid or not
  (`Framing.UnverifiedRejectsAll`).
- After a transaction that took too long to send, the answer stays on the line and the next transaction takes it
  for its own (`Exchanges.LateAnswerIsTaken`); exactly when an answer is the right one is
  `Exchanges.SessionExactly`.
- Answers that announce a length below 5 are rejected, because the subtraction wraps around, so a correct answer
  with one character of data fails (`Response.OneCharacterIsRejected`); and the data may be up to ten characters
  shorter than announced, of which checksum and end mark account for only three (`Response.MissingDataPasses`,
  `Response.ValidatesExactly`).
- A delay whose microseconds exceed 32 bits is cut by `usleep`, so calls are spaced by the configured delay
  if and only if `delay * 1000 < 2^32`. The end time 0 also stands for "no success yet": while the clock is in its
  first millisecond a success is not seen, and spacing then holds only without a delay
  (`ServerHistory.SpacingExactly`, `ServerHistory.FirstMillisecondFails`).
- The limit of the charging voltages is 58.4 V, but 58.4 itself is refused, because its float is greater than its
  double (`Voltages.LimitIsRefused`, `Voltages.ChargeVoltagesExactly`).
- Validation accepts amperes and output voltages whose text is congruent to an allowed number modulo 2^32;
  packing then throws, exactly when `stoi` cannot hold the text (`Decoder.PackingThrowsExactly`).
- A reply can be read back exactly when its body neither starts nor ends with a line break nor contains an
  empty line; a lone carriage return at its end does no harm (`Replies.ReadsBackExactly`).
- An id text may end in a carriage return and still pass validation; the request then contains the end mark of
  the framing (`Stack.CarriageReturnInId`). `Stack.RequestText` says exactly when a request does.
- The length field of a request is right exactly when the device layer adds the checksum
  (`Stack.LengthOnTheWire`).

## Model

| member | source | states |
|---|---|---|
| Crc.Calculate | src/voltronic/crc.cc:34-58 | the do-while loop over a buffer computes the adjusted register of exactly the first bufSize bytes |
| Crc.Write | src/voltronic/crc.cc:27-32 | the two checksum bytes are stored high byte first and nothing else in the buffer changes |
| Crc.ReadBack | src/voltronic/crc.cc:18-32 | reading the two written bytes gives the checksum back, for all 65536 values |
| Crc.BytesReadBack | src/voltronic/crc.cc:18-32 | writing what was read gives the same two bytes back |
| Crc.AdjustBytes | src/voltronic/crc.cc:48-54 | the two increments act on each byte by itself: no carry ever passes from the low to the high byte |
| Crc.NeverReserved | src/voltronic/crc.cc:14-16 | no byte of any checksum on the wire is 28, 0D or 0A hexadecimal: an opening parenthesis, carriage return or line feed (also src/voltronic/crc.cc:48-54) |
| Crc.WireChecksum | src/voltronic/crc.cc:48-58 | the wire carries the two bytes of the remainder, high byte first, with 28, 0D and 0A hexadecimal moved up by one and all others as they are |
| CrcTheory.NibbleStepIsFourBitSteps | src/voltronic/crc.cc:42-43 | one table step equals four steps of bit-serial division by 0x1021, for every register and nibble |
| CrcTheory.TableIsBitSerial | src/voltronic/crc.cc:7-12 | the table-driven register equals the bit-serial one for every byte string and every start value |
| CrcRemainder.DivisionExists | src/voltronic/crc.cc:37-46 | for every bit string there is a quotient with which the register is the remainder of message times x^16 by x^16 + x^12 + x^5 + 1 |
| CrcRemainder.RemainderUnique | src/voltronic/crc.cc:37-46 | quotient and remainder of that division are unique |
| CrcRemainder.CrcIsTheRemainder | src/voltronic/crc.cc:34-46 | a coefficient string is the remainder for some quotient if and only if it is the unadjusted checksum |
| CrcErrors.BitSerialLinear | src/voltronic/crc.cc:37-46 | the register of a bitwise sum is the sum of the registers, for messages of any length |
| CrcErrors.BurstDetected | src/voltronic/crc.cc:34-46 | two different messages of equal length that differ only inside one window of 16 consecutive bits have different unadjusted checksums |
| CrcErrors.WireCrcCollides | src/voltronic/crc.cc:48-54 | the checksums on the wire of two messages are equal if and only if the adjustment merges both bytes of their remainders |
| CrcErrors.RemainderSeen | src/voltronic/crc.cc:48-54 | messages whose remainders differ by a byte other than 0, 1 and 3 have different checksums on the wire |
| CrcErrors.BurstOnTheWire | src/voltronic/crc.cc:34-58 | a burst of up to 16 bits goes unnoticed on the wire if and only if the adjustment merges the two remainders, and its pattern then leaves bytes 0, 1 and 3 only, not both 0 |
| CrcPatterns.TwoBytesReach | src/voltronic/crc.cc:34-46 | every 16-bit value is the unadjusted checksum of some two bytes |
| CrcPatterns.HidingPlace | src/voltronic/crc.cc:48-54 | for every pattern with bytes 0, 1 and 3 only in its remainder there is a message in which it goes unnoticed |
| CrcPatterns.SeenExactly | src/voltronic/crc.cc:34-58 | an error pattern changes the checksum on the wire in every message of its length if and only if its remainder has a byte other than 0, 1 and 3 |
| CrcErrors.AdjustmentHidesABurst | src/voltronic/crc.cc:48-54 | a concrete pair of messages whose burst the adjustment hides |
| Line.ReadOnce | src/voltronic/usb_device.cc:40-46 | one read call removes what it stores from the front of what is to come, never more than the room or one report |
| Line.FirstCR | src/voltronic/device.cc:158-167 | the index of the first carriage return, or the length |
| Device.Device.GetTimeLeft | src/voltronic/device.cc:42-51 | zero exactly when the deadline has passed, with 64-bit wrap-around and timeout 0 meaning none |
| Device.Device.WriteLoop | src/voltronic/device.cc:96-113 | the loop has the outcome and the effect on the line of writing all data call by call, for every schedule |
| Device.Device.BuildFrame | src/voltronic/device.cc:69-91 | the allocated buffer is the message, its checksum if the flag asks for it, and a carriage return |
| Device.Device.Send | src/voltronic/device.cc:69-94 | sending is writing exactly the frame of the message |
| Device.Device.Read | src/voltronic/usb_device.cc:40-46 | one read call stores its bytes at the given place and leaves the rest of the buffer alone |
| Device.Device.ReadPass | src/voltronic/device.cc:153-174 | one pass of the outer loop: where it ends, with what, and how far the buffer is filled |
| Device.Device.ReadLoop | src/voltronic/device.cc:150-175 | the two nested loops read up to the first carriage return; the buffer holds everything stored and is unchanged behind it |
| Device.Device.Recv | src/voltronic/device.cc:115-148 | outcome, line and buffer after checksum test and size test equal those of the specification, for all flags |
| Device.Device.Run | src/voltronic/device.cc:53-67 | the whole transaction: started clock, outcome, line and buffer |
| Endings.NoTimeout | src/voltronic/device.cc:42-44 | with timeout 0 every moment is in time |
| Endings.DeadlineExactly | src/voltronic/device.cc:42-51 | with a timeout the deadline holds exactly while less than it has passed on the 64-bit clock, whether it wraps or is set back |
| Endings.OneReadExactly | src/voltronic/usb_device.cc:40-46 | a read call stores the next bytes in order, as many as delivered, room and data allow, over USB at most 8 |
| Endings.OneWriteExactly | src/voltronic/usb_device.cc:48-68 | a write call takes the next bytes; over USB it sends exactly 8, padded with zeros, and reports at most 8 |
| Endings.ReadingEnds | src/voltronic/device.cc:150-175 | after n read calls the loop ends, and each ending has its cause: a device error exactly when the last call failed, success exactly when it brought a carriage return, a timeout exactly when it went well without one and the deadline is over, an overflow exactly when in time the buffer is full, waiting exactly when there was reason to go on and no answer is left; and there was reason to go on after each earlier call |
| Endings.WritingEnds | src/voltronic/device.cc:96-113 | the same for writing: device error, done, timeout and waiting each exactly when its cause holds after the last call, and there was reason to go on before |
| Endings.FlagBits | src/voltronic/device.cc:73-75 | the flags by their bits 1, 2 and 4 |
| Endings.FactorySettings | src/voltronic/device.cc:18-20 | a device starts with all three flags and a timeout of 1000 ms |
| Endings.FrameExactly | src/voltronic/device.cc:69-94 | a frame byte by byte: the message, with flag 1 the two bytes of its remainder with the reserved ones moved, 0D hexadecimal |
| Endings.ResponseExactly | src/voltronic/device.cc:123-148 | what becomes of a response that ended with a carriage return, for each combination of the read and verify bits |
| Endings.TransactionCauses | src/voltronic/device.cc:53-67 | each ending of a transaction if and only if sending or receiving ended so, a timeout also when sending left no time, and what is stored |
| Framing.FrameEndsAtFirstCR | src/voltronic/device.cc:69-94 | a frame of a message without carriage return has its first carriage return at its very end, whatever follows: the reserved-byte adjustment is what makes this true |
| Framing.WritesAPrefix | src/voltronic/device.cc:96-113 | whatever the partial writes, what was sent is a prefix of the data; all of it on success, less on a timeout |
| Framing.WriteSucceeds | src/voltronic/device.cc:96-113 | on a line that always takes something in time, everything is sent |
| Framing.ReadsUpToCR | src/voltronic/device.cc:150-175 | reading stores a prefix of what arrives and reports exactly the part up to the first carriage return, or fails or waits |
| Framing.ReadSucceeds | src/voltronic/device.cc:150-175 | on a line that always delivers in time, reading ends at the first carriage return |
| Framing.AcceptsExactlyFrames | src/voltronic/device.cc:123-148 | with verification, the test behind the read loop accepts bytes if and only if they are the frame of a message without carriage return, with that message's length |
| Framing.UnverifiedRejectsAll | src/voltronic/device.cc:131-143 | with a checksum expected, anything can be accepted if and only if the verify flag is set |
| Framing.ReceivesTheMessage | src/voltronic/device.cc:115-175 | a frame with anything behind it is received as its message, or the line fails; never a checksum error, never an overflow; surely on a responsive line |
| Framing.OnlyFramesAreReceived | src/voltronic/device.cc:115-175 | whatever the line does, a response that is accepted was a whole frame at the front of what arrived, and the buffer holds its message |
| Framing.ReceivesExactly | src/voltronic/device.cc:115-175 | on a line that delivers in time a message is received if and only if it has no carriage return, fits the buffer, and its frame is what arrives first |
| Framing.Loopback | src/voltronic/device.cc:69-175 | send into receive: every message without carriage return that fits the buffer arrives unchanged under all partial writes and all read chunkings |
| Deadlines.Elapsed | src/voltronic/device.cc:38-51 | without wrap-around the deadline holds exactly while less than the timeout has passed |
| Deadlines.TransactionEnds | src/voltronic/device.cc:53-67 | with a timeout of n ms and a ticking clock one transaction makes at most n device calls and cannot wait for ever |
| Deadlines.ReadsWithoutTimeout | src/voltronic/device.cc:150-175 | without timeout, if every read delivers something until the answer ends or the buffer is full, there are at most as many reads as the buffer has bytes |
| HidLine.ReportsCarryTheData | src/voltronic/usb_device.cc:48-68 | full reports concatenate to the data and zeros up to a multiple of 8, in ceil(n/8) reports |
| HidLine.HidLoopback | src/voltronic/usb_device.cc:48-68 | the padding of the last report does not disturb a receiver: the message arrives |
| Exchanges.WhatARoundReceives | src/voltronic/device.cc:53-67 | a transaction that ends well has received a whole frame from the front of what was unread followed by its answer |
| Exchanges.OwnAnswerExactly | src/voltronic/device.cc:58-66 | the answer received is the answer sent if and only if nothing was unread before, or the unread begins with the same frame |
| Exchanges.SessionExactly | src/voltronic/device.cc:53-67 | the same for every round of every session on one line |
| Exchanges.InStep | src/voltronic/device.cc:53-67 | as long as every round ends well nothing is left unread and every round receives its own answer |
| Exchanges.LateSendingLeavesTheAnswer | src/voltronic/device.cc:58-64 | a round that times out after sending leaves its whole answer on the line |
| Exchanges.LateAnswerIsTaken | src/voltronic/device.cc:58-66 | the next round that ends well receives that late answer, and the right one only if both are equal |
| Server.Server.DelayExecution | src/server/server.cc:136-142 | the sleep advances the clock by the 32-bit argument of usleep and changes nothing else |
| Server.Server.Record | src/server/server.cc:146-172 | cache entry, end time, error counter and shutdown flag after each of the endings of the device call |
| Server.Server.ExecuteCommand | src/server/server.cc:123-173 | the method body on its fields equals one step of the specification: new state, reply and history entry |
| ServerHistory.Changes | src/server/server.cc:126-172 | what each kind of ending changes and what it leaves alone |
| ServerHistory.RunConsistent | src/server/server.cc:123-173 | in every reachable state a command is cached if and only if its last device attempt succeeded, with that attempt's data; the end time is that of the last success; the counter is the errors since the last success; shutdown is set if and only if some error reached the limit |
| ServerHistory.HitExactly | src/server/server.cc:126-134 | a call is a cache hit if and only if the last attempt for the command succeeded with identical arguments and is at most cacheTimeout old; no subtraction wraps |
| ServerHistory.RepliesAreGenuine | src/server/server.cc:126-156 | every successful reply of every run is one the device gave for the same command and the same arguments |
| ServerHistory.HitsAreFresh | src/server/server.cc:126-134 | every hit of every run answers with the last attempt for its command, which succeeded with identical arguments and was at most cacheTimeout old |
| ServerHistory.ReplyExactly | src/server/server.cc:144-172 | every call is answered by what happened to it: a hit or a success with its response, any other answer with its own kind of error |
| ServerHistory.RunsAreSpaced | src/server/server.cc:136-146 | each device call after a success starts at least the delay after the last successful one ended, if the delay fits and the clock has passed its first millisecond |
| ServerHistory.WaitsExactly | src/server/server.cc:136-142 | in every run of a clock past its first millisecond a device call waits exactly the missing milliseconds, in microseconds cut to 32 bits, and not at all without delay or success or when the delay has passed |
| ServerHistory.LeastWait | src/server/server.cc:136-142 | if the delay fits the wait is the least one: a call is not held up when nothing has succeeded or the delay has passed, and otherwise until the clock shows exactly the end of the last success plus the delay |
| ServerHistory.TooLongADelayFails | src/server/server.cc:140-141 | for every delay that does not fit there is a run of two calls that are not spaced |
| ServerHistory.FirstMillisecondFails | src/server/server.cc:136 | for every delay there is a run in the first millisecond of the clock that is not spaced, because its end time 0 reads as no success |
| ServerHistory.SpacingExactly | src/server/server.cc:136-142 | all runs of a clock past its first millisecond are spaced if and only if the delay in microseconds is below 2^32; all runs of any clock if and only if there is no delay |
| Interleaving.KeepsExclusion | src/server/server.cc:124 | every step of every thread keeps at most one thread between lock and unlock |
| Interleaving.KeepsShared | src/server/server.cc:123-173 | every step keeps the shared state equal to the sequential run of the concluded calls, up to the phase of the thread inside, and the replies and clock readings of the threads equal to those of that run |
| Interleaving.KeepsOrdered | src/server/connection.cc:206-223 | every step keeps each record behind the calls that had concluded at its request, and one record for a request |
| Interleaving.KeepsTickets | src/server/connection.cc:206-223 | every step keeps it that a request under way has no record, an answered one has its own, and no two threads share a request |
| Interleaving.KeepsWhole | src/server/server.cc:144-172 | every step keeps the device transcript a concatenation of whole transactions and the one under way |
| Interleaving.AlwaysInvariant | src/server/server.cc:123-173 | the invariant holds in every state of every behaviour, with any number of threads |
| Interleaving.TransactionsAreWhole | src/server/server.cc:123-173 | at most one thread is inside a device transaction, and the transcript consists of whole transactions even when some throw |
| Interleaving.Serializable | src/server/server.cc:123-173 | each answered request has exactly one record, behind all calls concluded when it was made, with the reply and the clock readings that executeCommand has at this place of the sequential run; between calls the state is that of the run |
| Interleaving.OrderIsRealTime | src/server/server.cc:123-173 | if one request is answered before another is made, its record comes first, in every later state |
| Interleaving.HitsExactlyWhenFresh | src/server/server.cc:126-134 | in every reachable state the thread at the cache gets a hit if and only if the last attempt for its command succeeded with identical arguments at most cacheTimeout ago |
| Interleaving.ServedGenuinely | src/server/server.cc:126-156 | under every interleaving a successful reply is the device's own, or that of the last attempt before it for the same command, with identical arguments and at most cacheTimeout old |
| Interleaving.AllThreadsSpaced | src/server/server.cc:136-146 | the delay is kept by the device calls of all threads together, by the clock readings of the threads themselves |
| Interleaving.DeviceIsSpaced | src/server/server.cc:136-146 | in every reachable state the transaction under way started at least the delay after the last success |
| Interleaving.DeviceWaitsLeast | src/server/server.cc:136-146 | under every interleaving the thread in the device was not held up without need, and otherwise just until the last success plus the delay |
| Text.CheckNumeric | src/util.cc:12-16 | true exactly for nonempty strings of digits |
| Text.PaddedNumber | src/p18/client.cc:126-143 | a zero-padded number reads back as itself, and has exactly its width if and only if it fits |
| Text.ParseDigits | src/util.cc:53-59 | on digit strings the library parsers read exactly the number, within their limits |
| Parsing.IntegerIsRead | src/util.cc:53-59 | white space, at most one sign, digits and anything that does not go on with a digit are read as the integer the digits say |
| Parsing.OnlyIntegersAreRead | src/util.cc:53-59 | nothing else is read as an integer |
| Parsing.StoulExactly | src/util.cc:53-55 | stoul takes exactly the integers within 64 bits, negative ones modulo 2^64 |
| Parsing.StoiExactly | src/p18/client.cc:143-159 | stoi takes exactly the integers within 32 bits |
| Parsing.CutExactly | src/util.cc:53-59 | read with stoul and cut to 32 or 16 bits a number is kept modulo 2^32 or 2^16, negative ones included |
| Parsing.DecimalIsRead | src/p18/commands.cc:260-261 | sign, digits, a point and digits are read as that decimal number, whatever follows |
| Parsing.WholeIsRead | src/p18/commands.cc:260-261 | and so are digits without a point |
| Parsing.FloatExactly | src/p18/commands.cc:260-261 | between 8 and 64 a float is the multiple of the step of its binade next to the number, in the middle the even one |
| Parsing.DoubleExactly | src/p18/client.cc:168-170 | and so is a double between 8 and 1024 |
| Parsing.RoundExactly | src/p18/client.cc:170 | round goes to the nearest whole number, in the middle away from zero |
| Text.TenthsAreClose | src/p18/client.cc:166-191 | the tenths computed in double arithmetic are within half a tenth of the voltage, up to rounding errors, and exact for whole tenths |
| Splitting.SplitLoop | src/util.cc:38-51 | the find loop yields the pieces between separators, including empty ones |
| Splitting.JoinSplit | src/util.cc:38-51 | joining the pieces gives the input back and no piece contains the separator |
| Splitting.SplitJoin | src/util.cc:38-51 | separator-free pieces are recovered from their join, so splitting is the only inverse |
| Validator.DateValidIsGregorian | src/util.cc:18-36 | the date test accepts exactly the Gregorian dates of 2000 to 2099 |
| Validator.ValidateDateArgs | src/p18/commands.cc:64-103 | accepted if and only if year, month and day, as far as given, are numbers of at most 4 and 2 digits that form a calendar date |
| Validator.ValidateTimeArgs | src/p18/commands.cc:105-132 | accepted if and only if hour, minute and second are numbers of at most 2 digits in their ranges |
| Validator.GetArgs | src/p18/commands.cc:155-170 | the first `count` arguments, or an exception when there are fewer |
| Validator.FindIndex | src/util.h:13-20 | the first position of the word, or -1 exactly when it is absent |
| Validator.FindVoltage | src/p18/commands.cc:304-318 | found if and only if the float of some table entry equals the given float |
| Validator.ValidateClock | src/p18/commands.cc:421-445 | HH:MM is taken if and only if both parts read as numbers that, cut to 16 bits, are in range; the two fields are their decimal text |
| Validator.JudgeOne | src/p18/commands.cc:180-406 | each one-argument command accepts exactly its acceptable arguments and rewrites them as specified |
| Validator.JudgeTwo | src/p18/commands.cc:186-448 | each two-argument command accepts exactly its acceptable arguments and rewrites them as specified |
| Validator.ValidateInput | src/p18/commands.cc:172-455 | for all 41 commands: accepted exactly when acceptable, and then the argument vector is the normalised one |
| Acceptance.TakesNothingExactly | src/p18/commands.cc:450-451 | the commands without arguments are accepted exactly with none |
| Acceptance.YearOnlyExactly | src/p18/commands.cc:181-184 | exactly the four digits of a year from 2000 to 2099 |
| Acceptance.MonthsExactly | src/p18/commands.cc:186-189 | exactly such a year and a month from 1 to 12 in one or two digits |
| Acceptance.DaysExactly | src/p18/commands.cc:191-194 | exactly such a date with a day that its month has, by literal month lengths |
| Acceptance.DateTimeExactly | src/p18/commands.cc:408-415 | exactly such a date with hours to 23 and minutes and seconds to 59, of one or two digits, and kept as they are |
| Acceptance.ParallelExactly | src/p18/commands.cc:196-201 | exactly one digit |
| Acceptance.SwitchesExactly | src/p18/commands.cc:203-255 | the supply takes exactly 0 and 1, the frequency exactly 50 and 60 |
| Acceptance.SerialExactly | src/p18/commands.cc:399-406 | exactly 1 to 20 digits |
| Acceptance.OutputPriorities | src/p18/commands.cc:291-302 | exactly SUB, which becomes 0, and SBU, which becomes 1 |
| Acceptance.SolarPriorities | src/p18/commands.cc:339-349 | exactly BLU, which becomes 0, and LBU, which becomes 1 |
| Acceptance.InputRanges | src/p18/commands.cc:351-359 | exactly APPLIANCE, which becomes 0, and UPS, which becomes 1 |
| Acceptance.BatteryTypes | src/p18/commands.cc:361-371 | exactly AGM, FLOODED and USER, which become 0, 1 and 2 |
| Acceptance.FlagsExactly | src/p18/commands.cc:211-230 | exactly one of nine names, written out, with 0 or 1 |
| Acceptance.FlagLetters | src/p18/defines.cc:97-107 | the nine names become the letters from A to I in their order, and the state stays |
| Acceptance.AmpsExactly | src/p18/commands.cc:232-247 | exactly numbers within 64 bits of which the id is at most 6 and the amperes at most 999 modulo 2^32, and the texts stay |
| Acceptance.OutputVoltagesExactly | src/p18/commands.cc:272-289 | exactly numbers within 64 bits that are 202, 208, 220, 230 or 240 modulo 2^32 |
| Acceptance.ChargePrioritiesExactly | src/p18/commands.cc:323-337 | exactly such an id with SF, SU or S, which become 0, 1 and 2 |
| Acceptance.OutputModesExactly | src/p18/commands.cc:373-387 | exactly such an id with S, P, 1, 2 or 3, which become 0 to 4 |
| Acceptance.ChargeVoltagesAccepted | src/p18/commands.cc:257-270 | both texts are accepted exactly when their real values are from 48 to below 58.4, give or take half a step of a float, limits written out |
| Acceptance.ChargeTenthsAccepted | src/p18/commands.cc:257-270 | in whole tenths: accepted if and only if both are from 48.0 to 58.3 |
| Acceptance.CutOffVoltagesAccepted | src/p18/commands.cc:389-397 | the same from 40 to 48, with half a step of a float on each side |
| Acceptance.CutOffTenthsAccepted | src/p18/commands.cc:389-397 | in whole tenths: accepted if and only if from 40.0 to 48.0 |
| Acceptance.ThresholdsAccepted | src/p18/commands.cc:304-321 | exactly a re-charge voltage and then a re-discharge voltage, compared as floats, both lists written out (also src/p18/defines.cc:58-64) |
| Acceptance.ThresholdTenthsAccepted | src/p18/commands.cc:304-321 | in whole tenths: accepted if and only if the first is in the one list and the second in the other |
| Acceptance.BucketsExactly | src/p18/commands.cc:417-448 | exactly two times of day: two numbers within 64 bits around the only colon, modulo 2^16 at most 23 and 59 |
| Acceptance.BucketNumbers | src/p18/commands.cc:439-445 | and they become those four numbers modulo 2^16, in decimal without leading zeros, start before end, hour before minute |
| Encoder.AppendInts | src/p18/client.cc:142-143 | the field loops append exactly the two-digit fields with the year reduced and the comma in place, or throw when a conversion does (also src/p18/client.cc:203-220) |
| Encoder.AppendVolts | src/p18/client.cc:168-173 | the voltage loop appends two three-digit tenths with a comma between, or throws |
| Encoder.AppendSolar | src/p18/client.cc:193-201 | the fill loop appends zeros up to 20 digits behind length and number |
| Encoder.PackArguments | src/p18/client.cc:125-227 | the encoder method computes the specified payload for every command, or throws exactly when the specification says so |
| Encoder.BuildFrame | src/p18/client.cc:31-53 | header, three-digit length, command and payload, appended in this order |
| Decoder.LookupFinds | src/p18/defines.cc:10-54 | kind and name identify the command: no two of the table are confused |
| Decoder.IntsDecode | src/p18/client.cc:203-220 | every field of a run of two-digit numbers is found at its place with its value |
| Decoder.PayloadDecodes | src/p18/client.cc:125-227 | for every accepted request that packs, the payload reads back as what the arguments mean, has the fixed length of its command plus the raw id, and is otherwise digits, capitals and commas |
| Decoder.FrameDecodes | src/p18/client.cc:31-53 | the whole frame text decodes to the command and the values of the accepted arguments, across all 41 commands |
| Decoder.SameFrameSameRequest | src/p18/client.cc:31-53 | two accepted requests with the same frame are the same command with the same values and the same id text (also src/p18/client.cc:125-227) |
| Decoder.PackingThrowsExactly | src/p18/client.cc:156-180 | an accepted request fails to pack if and only if stoi cannot hold its amperes or output voltage (also src/p18/commands.cc:232-289) |
| Decoder.AcceptedButThrows | src/p18/client.cc:159 | a concrete request that is accepted and then throws (also src/p18/commands.cc:236-244) |
| Decoder.LengthFits | src/p18/client.cc:45-51 | the exact value of the length field; it has three digits if and only if it is below 1000, which only a very long id text can prevent |
| Spelling.PayloadSpelt | src/p18/client.cc:125-227 | every character of every payload: it is the layout of its command, written out on its own, filled with the accepted values in fixed numbers of digits and the id as it was spelt |
| Spelling.FrameSpelt | src/p18/client.cc:31-53 | and every character of the frame: caret, kind, length in three digits, name, payload |
| Spelling.SamePayload | src/p18/client.cc:125-227 | equal values, and the same id text, always pack to the same payload, however the arguments were spelt |
| Spelling.SameFrameExactly | src/p18/client.cc:31-53 | unique decodability: the frames of two accepted requests are equal if and only if command, values and id text are |
| Voltages.ChargeVoltagesExactly | src/p18/commands.cc:263-267 | the float of a voltage in whole tenths lies between 48.0 and the double 58.4 if and only if it is from 48.0 to 58.3 |
| Voltages.CutOffVoltagesExactly | src/p18/commands.cc:392-394 | the float of a voltage in whole tenths lies between 40.0 and 48.0 if and only if the tenths do |
| Voltages.ThresholdsExactly | src/p18/commands.cc:307-317 | the search for a float finds a voltage in whole tenths in a table if and only if the tenths are in it |
| Voltages.WholeTenthsAreSent | src/p18/client.cc:166-191 | what is sent for a voltage in whole tenths is exactly that number of tenths |
| Voltages.LimitIsRefused | src/p18/commands.cc:263-267 | 58.4, the upper limit in the code, is refused |
| Response.ValidatesExactly | src/p18/response.cc:50-64 | an answer passes if and only if it has at least 5 characters, starts with ^D and announces a number from 5 to its size plus 5; it throws if and only if such an answer announces no number |
| Response.OneCharacterIsRejected | src/p18/response.cc:62-63 | a correct answer with one character of data is rejected |
| Response.MissingDataPasses | src/p18/response.cc:62-63 | an answer that lacks seven characters of its data passes |
| Response.GetListLoop | src/p18/response.cc:74-110 | the method returns the split list if and only if it has enough items and each checked item fits its length |
| Response.JoinedSlice | src/p18/response.cc:74-110 | item i of joined pieces is the slice behind the earlier widths and commas |
| Response.SchemaAgrees | src/p18/response.cc:74-110 | data with n exact widths and n items is accepted if and only if the schema fits it position by position, and the items are those slices; this fixes the total length |
| Response.ListExactly | src/p18/response.cc:74-110 | with lengths in ranges a list is taken exactly when it has enough items and each item that the schema names is not shorter than its minimum nor longer than its maximum |
| Response.ListRoundTrip | src/p18/response.cc:74-110 | values in range survive printing, joining, splitting, the schema check and parsing |
| Unpackers.StatusRoundTrip | src/p18/response.cc:345-405 | every general status whose 28 fields fit their widths is recovered field by field |
| Unpackers.StatusExactly | src/p18/response.cc:345-405 | every status text, whoever wrote it, is accepted, and each of the 28 named fields is the number at its literal position and width |
| Unpackers.TimeStep | src/p18/response.cc:166-196 | one turn of the field loop moves one number from the rest to the front |
| Unpackers.CurrentTime.Unpack | src/p18/response.cc:158-197 | the loop assigns year, month, day, hour, minute and second in this order, or throws exactly when one of them is not a number |
| Unpackers.TimeExactly | src/p18/response.cc:158-197 | fourteen digits are a year of four digits and five numbers of two, whatever follows |
| Unpackers.CurrentTimeRoundTrip | src/p18/client.cc:203-211 | the digits sent to set the clock, with the century in front, unpack to the six accepted numbers (also src/p18/response.cc:158-197) |
| Unpackers.SerialNumberRoundTrip | src/p18/client.cc:193-201 | the payload of every accepted digit string is 22 characters and unpacks to that string, trailing zeros included (also src/p18/response.cc:225-232) |
| Unpackers.SerialExactly | src/p18/response.cc:225-232 | the serial number has exactly the length that its first two characters say, and throws exactly when they are no number or a negative one |
| Unpackers.ACChargeTimeBucket.Unpack | src/p18/response.cc:800-808 | the four fields, or an exception exactly when the list or a number is not as required |
| Unpackers.BucketRoundTrip | src/p18/commands.cc:417-448 | every accepted pair of times packs to HHMM,HHMM and unpacks to the four numbers that validation read (also src/p18/client.cc:213-220, src/p18/response.cc:800-808) |
| Unpackers.BucketExactly | src/p18/response.cc:800-808 | two pieces of four characters are start hour, start minute, end hour and end minute, two characters each |
| Unpackers.GetTimeAccepted | src/p18/response.cc:810-815 | a time as it is displayed is accepted by the validator with the same hour and minute (also src/p18/commands.cc:421-432) |
| Unpackers.BucketCircle | src/p18/response.cc:800-822 | set, read back, display and set again: the second request has the same payload |
| Requests.Tokenise | src/server/connection.cc:158-189 | the loop over blank-separated tokens yields the request type and the nonempty arguments, each cut at its line break |
| Requests.Session.ProcessRequest | src/server/connection.cc:149-234 | the new options and the way the request ends, for every request type and every way to be refused |
| Requests.RequestReadsBack | src/server/connection.cc:158-189 | a line of words without blanks and line breaks is understood word by word |
| Requests.UnderstoodExactly | src/server/connection.cc:158-189 | words joined by blanks are understood as they are if and only if none is empty or contains a blank or a line break |
| Requests.WordsArePieces | src/server/connection.cc:158-189 | the words of any line are its nonempty pieces between blanks |
| Requests.RequestsDoExactly | src/server/connection.cc:149-234 | from the line to the effect: a command with its arguments is handed over if and only if the words are exec, that command and those arguments; a request is accepted exactly when it asks for version 1 or one of four formats, by their names, and changes just that option; everything else is refused and changes nothing |
| Requests.OtherLines | src/server/connection.cc:149-234 | every other line is handled like the words it is understood as, and refused if its request type is empty |
| Requests.OptionsAreTheLastAsked | src/server/connection.cc:191-204 | over every run of requests the version is 1 and the format is the one last asked for properly, JSON before that |
| Replies.Connection.WriteLoop | src/server/connection.cc:108-125 | the send loop has the outcome and the effect of sending all data call by call |
| Replies.SendsAPrefix | src/server/connection.cc:108-125 | under all partial sends a prefix of the data has left, all of it on success |
| Replies.SendingEnds | src/server/connection.cc:108-125 | sending fails exactly when its last call does, succeeds exactly when all calls went well and nothing is left, waits exactly when no answer is left, and there was something left before each call |
| Replies.ReplyExactly | src/server/connection.cc:249-260 | a reply, character by character |
| Replies.ReadsBackExactly | src/server/connection.cc:249-260 | a reply in front of any stream is read back if and only if its body is clean |
| Replies.RepliesLeaveInOrder | src/server/connection.cc:127-136 | replies sent one after the other leave as a prefix of their concatenation |
| Replies.CompleteIsLargest | src/server/connection.cc:249-260 | the number of complete replies in a cut is the largest whose stream fits into it |
| Replies.CutStreamReads | src/server/connection.cc:249-260 | every cut of a stream of clean replies reads as exactly the replies that lie in it completely |
| Replies.ClientReads | src/server/connection.cc:108-136 | whatever the partial sends and wherever they stop, a client reads exactly the replies that have left completely, in order and as they were given; all of them on success (also src/server/connection.cc:249-260) |
| Stack.RequestText | src/p18/client.cc:45-53 | a request contains a carriage return, or a character wider than a byte, if and only if the raw id text does |
| Stack.CarriageReturnInId | src/p18/commands.cc:232-247 | a concrete accepted request whose text contains a carriage return |
| Stack.LengthOnTheWire | src/p18/client.cc:45-51 | the length field equals the number of bytes that follow it on the wire if and only if the checksum flag is set (also src/voltronic/device.cc:73-86) |
| Stack.RequestReachesInverter | src/p18/client.cc:31-55 | under all partial writes and reads an accepted frame is the request if and only if its id text has no carriage return, and then the command and values the user gave are decoded from it; it is accepted on a responsive line (also src/voltronic/device.cc:53-175) |
| Stack.AnswerArrives | src/p18/client.cc:55-111 | of an answer that is received the data part is the inverter's data, whatever remains in the buffer, and it validates if and only if it has at least two characters (also src/voltronic/device.cc:115-175) |
| Stack.StatusArrives | src/p18/response.cc:345-405 | a status travels from the inverter's fields to the caller's fields unchanged (also src/voltronic/device.cc:115-175) |

## Left out

- Text.TenthsAreClose: does not cover voltages written with exponents, in hexadecimal, or as infinity or NaN; text is plain decimal notation, which `Text.Stod` reads exactly before `Text.Float` and `Text.Double` round it.
- Parsing.FloatExactly: rounding is modelled between 8 and 64, and for doubles between 8 and 1024; apart from 0 no comparison of voltages accepts any other number.
- Validator.ValidateInput: starts from the command type; the lookup of the command name and the texts of the error messages are not modelled, and all exceptions become one `InvalidArgument`. It takes its arguments as the daemon does; the command line variant that stops at a dash is left out.
- Encoder.PackArguments: the switch is grouped by the number of arguments.
- Device.Device.WriteLoop: sizes are below 2^31, so the casts to `int` are exact; error codes of the serial library that the code stores in unsigned sizes are modelled as device errors.
- Device.Device.Run: verbose logging and the hexadecimal dump are left out; a read never returns more bytes than it was asked for.
- Unpackers.StatusRoundTrip: the 28 fields are built as one value instead of being assigned one after the other; enumerations stay numbers.
- Response.GetListLoop: the log line for unexpected extra items is left out.
- Interleaving.Serializable: one step reads the clock and tests the cache, and one step reads the clock and sleeps; that is enough because the mutex is held throughout. Memory order and the lifetime of shared responses are left out.
- Server.Server.ExecuteCommand: what the device call does inside is a parameter (time and answer); signals that cut `usleep` short are left out.
- Replies.ClientReads: the client's side is not part of the repository; the reader is the obvious one that looks for the first empty line.
- Exchanges.InStep: the inverter answers a request only when all of it was sent, and with one frame; how late the answer can be read is up to the schedule.
- Requests.Tokenise: works on the text of the line; the zeros that strtok_r writes into the buffer are not modelled. Lines of blanks only are excluded, because the request type is then unset.
- Requests.Session.ProcessRequest: ends where the server is called; the text of replies is left out.
- Sockets, the accept loop, signal installation, the connection registry, and the receive loop of a connection.
- Serial port configuration, option parsing, and the calls into hidapi and libserialport, which appear only as schedules.
- JSON and table output, enumeration names, help texts.
- Answer types that copy fields in list order like the general status does.
