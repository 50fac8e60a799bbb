# A model of the firmware's protocols, codecs and decision logic

This project models the parts of a radio device's firmware and of its build tools in which a mistake is easiest to make
and hardest to see: a file transfer over a lossy channel, three converters that must agree on one memory image, a flood
fill and a run-length code, calendar arithmetic, sliding windows kept in rings, a display scheduler that carries state
from frame to frame, a serial framing protocol, the recovery logic and the algebra of the sensor fusion, and change
propagation through a network of pins. Each is proved against what it is for. `dafny verify dfyconfig.toml` checks the
whole project.

Code that changes state step by step is a class or a method with loops, specified by functions on values; what the
source promises is then proved of those functions. The heap is modelled where the source links objects (the pin network,
the page buffers of the HEX converter, the counters of the airtime report). Integer wrap-around, truncating division and
early exits by exception are written out.

## Components

- `Bytes`, `LittleEndian`, `Throttle`, `Wrappers`: bytes and their bits, words in byte order, the 32-bit millisecond
  counter, optional values.
- `Crc16`, `Crc16Damage`: the checksum of the file transfer, against long division of polynomials; the damage it always
  notices.
- `XModem`, `XModemTransmit`, `XModemReceive`: one call of the adapter in either role; the adapter with a phone in the
  opposite role and a channel that loses, repeats, reorders and damages packets.
- `Uf2`, `IntelHex`: the container of 512-byte blocks, its decoder, and the converter from HEX records.
- `FloodFill`, `RunLength`: the background of a sprite, and its compressed form with the directory.
- `Calendar`, `ClockQuality`: broken-down time to seconds; which source sets the clock, and what it then serves.
- `AirTime`: the rings and histories of the airtime report, against a log of every report.
- `EInk`, `EInkRuns`: the refresh pipeline of one frame; runs of frames.
- `Ubx`: building a frame, matching an acknowledgement, reading a payload.
- `Recovery`, `Quaternion`: the recovery counters and the gain ramp; quaternions and rotation matrices over the reals.
- `GpioNetwork`: pins, splitters and transformers on the heap, and their settling.

## What the proofs brought to light

- A transmit session that is aborted while it waits for its last ACK leaves the end flag set, and the next session cuts
  every file off after its first packet (`XModemTransmit.StaleSessionReached`); it is complete exactly for files of at
  most 128 bytes (`XModemTransmit.StaleSessionCompleteIff`). One cancelled by refusals leaves its spent budget behind
  (`XModemTransmit.CancelledThenOneNakCancels`).
- ACKs carry no number, so one that is repeated can end a transfer early (`XModemTransmit.RepeatedAcksCompleteIff`), and
  the receiver refuses a packet it has, so one that is lost is not made good (`XModemReceive.LostAckNotMadeGood`).
- A CAN or EOT that reaches a transmitting adapter closes its file but not its session, which goes on with empty packets
  (`XModem.SessionPacketIff`, `XModemTransmit.DisturbedCompleteIff`).
- Every complaint `convert_from_uf2` makes about a block joins a string and a number, which raises a TypeError before
  the message or the assertion appears (`Uf2.DecodeImage` states when decoding succeeds). So a block with bad magic ends
  the conversion although the code means to skip it.
- `gm_mktime` is a day off in years before 1 that do not follow a leap year, because C division truncates
  (`Calendar.MktimeCountsIff`).
- The comment on `perhapsSetRTC` says that only a source of higher quality sets the clock. A GPS time is also applied
  over a GPS time, an NTP time after twelve hours over any, and a forced one always (`ClockQuality.ByRuleIff`,
  `ClockQuality.NtpReplacesGps`).
- `getTime` loses 2^32 ms when the clock is not set again for just under fifty days (`ClockQuality.ElapsedRightIff`).
- A frame of the display with the blocking flag and nothing else is decided by no check; it is drawn and, where full
  refreshes run in the background, never ended, so a later refresh clashes with it (`EInkRuns.UndecidedIff`,
  `EInkRuns.ClashIff`). Such a run exists in every build of that kind with a limit above 0
  (`EInkRuns.ClashPossibleIff`).
- With a limit of no fast refreshes, the first frame already exceeds it (`EInkRuns.FastRefreshLimitIff`).
- The ACK matcher does not look again at a byte that breaks a match, so a stray start of a frame hides the frame after
  it (`Ubx.FrameAnsweredIff`). The payload reader misses a frame that finds it inside a header (`Ubx.FrameReadIff`), and
  takes one that finds it inside an unfinished payload for the rest of that (`Ubx.UnfinishedPayloadTakesFrame`). It
  never looks at the checksum (`Ubx.ChecksumUnread`), and answers a reply without payload like silence
  (`Ubx.ZeroReplyIff`).
- At a gain of 10 the sensor fusion initialises forever, and above it may (`Recovery.InitialisationLasts`). New settings
  with a period below the trigger do not end a recovery (`Recovery.SettingsEndRecoveryIff`).

## Model

| member | source | states |
|---|---|---|
| `Crc16.CrcIsRemainder` | src/xmodem.cpp:67-90 | for every buffer the byte-parallel loop computes the remainder of the message times x^16 after long division by x^16+x^12+x^5+1 (section 2 of ITU-T V.41), from initial value 0 |
| `Crc16.Crc16Ccitt` | src/xmodem.cpp:67-90 | the loop over the buffer returns that remainder |
| `Crc16.Check` | src/xmodem.cpp:92-95 | accepts exactly the checksum that is that remainder |
| `Crc16.AdjacentBytesDetected` | src/xmodem.cpp:67-95 | two buffers of one length that differ only inside two adjacent bytes never share a checksum |
| `Crc16.AbsorbPairInjective` | src/xmodem.cpp:67-90 | from one register, two different pairs of bytes always lead to different registers |
| `Crc16Damage.BurstDetected` | src/xmodem.cpp:67-95 | a burst of up to sixteen bits, in the order the division takes them and wherever it starts, always changes the checksum |
| `Crc16Damage.OddFlipsDetected` | src/xmodem.cpp:67-95 | so does every odd number of flipped bits, wherever they are |
| `Crc16Damage.ParityKept` | src/xmodem.cpp:67-90 | because the checksum has the parity of its message: x+1 divides the generator |
| `XModem.XModemAdapter.constructor` | src/xmodem.h:56-62 | a fresh adapter neither receives nor transmits, has 25 retransmissions and no packet |
| `XModem.XModemAdapter.Send` | src/xmodem.cpp:97-103 | a control packet replaces whatever was announced before |
| `XModem.XModemAdapter.SendNextBuffer` | src/xmodem.cpp:141-157 | reads the next buffer, announces it under the current number with its checksum, and sets the end flag on a short read |
| `XModem.XModemAdapter.Open` | src/xmodem.cpp:120-163 | the packet with sequence number 0 names the file and begins a session in either role, or is refused |
| `XModem.XModemAdapter.Receive` | src/xmodem.cpp:164-187 | an expected, intact packet is appended and counted; any other is refused and changes nothing on flash |
| `XModem.XModemAdapter.Acknowledged` | src/xmodem.cpp:208-240 | an ACK ends the session after the last packet, else sends the next one with a fresh retransmission budget |
| `XModem.XModemAdapter.NotAcknowledged` | src/xmodem.cpp:241-272 | a NAK costs one retransmission, seeks back and sends the same packet again, or cancels when the budget is spent |
| `XModem.XModemAdapter.HandlePacket` | src/xmodem.cpp:115-277 | the fields after the call, and whether a packet was announced, are those of the step function the lemmas speak of |
| `XModem.NextChunkSends` | src/xmodem.cpp:208-235 | after an ACK the packet announced is chunk k+1 of the file, and the end flag is set just on the last one |
| `XModem.SameChunkSends` | src/xmodem.cpp:241-266 | after a NAK the packet announced is chunk k again, whatever was read in between |
| `XModem.ChunksMeet` | src/xmodem.cpp:141-157 | the chunks join up to the file; the last packet is the first short one, empty when the length is a multiple of 128 |
| `XModem.HandleFaithful` | src/xmodem.cpp:115-277 | one call, in any reachable state and with any packet, keeps the session invariant; while the session goes on its file stays open just when the packet was no CAN or EOT; a data packet announced is the chunk of the open file that its number names, or empty if the file was closed |
| `XModem.RunFaithful` | src/xmodem.cpp:115-277 | so over every run from power-on, with files of at most 65535 packets: each packet emitted under number k carries exactly chunk k of the file if that is open |
| `XModem.SessionFileOpenIff` | src/xmodem.cpp:188-207 | over every run of a session that is still on, its file is open, with the contents it was opened with, exactly when no CAN or EOT came from outside |
| `XModem.SessionPacketIff` | src/xmodem.cpp:208-271 | so the data packet emitted next carries the chunk its number names exactly when no CAN or EOT came from outside, or when that chunk is the empty last one |
| `XModemTransmit.OpenBeginsSession` | src/xmodem.cpp:137-163 | opening an existing file begins a transmit session, in the state of a fresh adapter exactly when no aborted session left its flags behind |
| `XModemTransmit.ReplyDecreases` | src/xmodem.cpp:208-271 | every ACK or NAK brings a transmit session closer to its end, or ends it with EOT or CAN |
| `XModemTransmit.SessionEnds` | src/xmodem.cpp:208-271 | whatever the sequence of replies, from any point of a session it is over after 25 replies for each packet still to come and one for each retransmission left, or one if none is; a fresh one after 25 a packet |
| `XModemTransmit.BoundReached` | src/xmodem.cpp:208-271 | some sequence of replies takes exactly that long |
| `XModemTransmit.DamagedRejected` | src/xmodem.cpp:67-95 | a packet damaged inside two adjacent bytes, by a burst of up to sixteen bits, or in an odd number of bits is refused by the phone |
| `XModemTransmit.NextKeepsInv` | src/xmodem.cpp:208-271 | every event of a losing, repeating, reordering and damaging channel keeps the link invariant |
| `XModemTransmit.TransferComplete` | src/xmodem.cpp:208-240 | over every run of a session begun with the end flag down, whatever is left of the retransmission budget: what the in-order phone holds is the file's first chunks, and EOT is emitted only when it holds the whole file, if ACKs are neither forged nor repeated |
| `XModemTransmit.RepeatedAcksCompleteIff` | src/xmodem.cpp:208-240 | with repeated ACKs, which carry no number, that holds over all runs exactly for files of at most 128 bytes |
| `XModemTransmit.DisturbedCompleteIff` | src/xmodem.cpp:188-207 | with a CAN or EOT from outside in between, a session is complete over all runs exactly when its file is empty, or when no retransmission is left and the file is at most 128 bytes |
| `XModemTransmit.AbortThenOpenIsStale` | src/xmodem.cpp:180-184 | a data packet that arrives while the last ACK is awaited aborts the session and leaves the end flag set; the next file opened gets a stale session |
| `XModemTransmit.StaleSessionReached` | src/xmodem.cpp:137-184 | from power-on there is a run into a stale session of every file, which is then complete exactly for at most 128 bytes |
| `XModemTransmit.CancelledThenOneNakCancels` | src/xmodem.cpp:241-252 | a session cancelled by its refusals leaves the spent budget behind, so the first refusal cancels the next session |
| `XModemTransmit.StaleSessionCutOff` | src/xmodem.cpp:208-217 | a session begun with the end flag still set loses all but the first packet of a longer file |
| `XModemTransmit.StaleSessionCompleteIff` | src/xmodem.cpp:208-217 | such a session is complete exactly for files of at most 128 bytes |
| `XModemReceive.OpenReceives` | src/xmodem.cpp:122-135 | the first packet creates the named file empty, touches no other and is acknowledged |
| `XModemReceive.DataKeepsUnderway` | src/xmodem.cpp:164-178 | a data packet that arrives in any order and number keeps the file equal to the chunks taken so far |
| `XModemReceive.NextKeeps` | src/xmodem.cpp:164-207 | every event of the channel keeps that, until the end or a cancel |
| `XModemReceive.EndFinishes` | src/xmodem.cpp:188-196 | whenever EOT comes, the file is the chunks taken so far, and no other file was touched |
| `XModemReceive.EndWholeIff` | src/xmodem.cpp:188-196 | it is the whole file exactly when nothing was left to send, so it is when every packet was seen acknowledged |
| `XModemReceive.AcksAccounted` | src/xmodem.cpp:164-178 | over every run the ACKs under way, seen and lost add up to the packets taken, and those seen and lost never exceed them |
| `XModemReceive.LostAckNotMadeGood` | src/xmodem.cpp:164-178 | a packet taken twice is refused: while the session lasts the ACKs under way and seen answer every packet taken exactly if none was lost, and once one was the phone never sees every packet acknowledged, not even after the end |
| `XModemReceive.CancelRemoves` | src/xmodem.cpp:197-207 | after CAN the file is gone, and no other file was touched |
| `XModemReceive.ReceiveSafe` | src/xmodem.cpp:115-207 | over every run, for files of fewer than 65535 packets, the received file is the concatenation of chunks 1 to packetno-1, also after an end that comes at any time; after a cancel it is gone |
| `LittleEndian.UnpackPack` | bin/uf2conv.py:117-127 | a number written in n little-endian bytes is read back |
| `LittleEndian.WordAtPackAll` | bin/uf2conv.py:65-66 | each header word is read back where it was packed |
| `Uf2.Converter.constructor` | bin/uf2conv.py:40-41 | the converters start from address 0x2000 |
| `Uf2.Converter.PlaceData` | bin/uf2conv.py:76-93 | data goes to its address after zeros for the gap; the first block sets the start |
| `Uf2.Converter.TakeBlock` | bin/uf2conv.py:63-93 | a block is skipped, placed, or ends the conversion with an exception |
| `Uf2.Converter.ConvertFromUf2` | bin/uf2conv.py:59-93 | returns the output of decoding the blocks, and leaves its start in appstartaddr |
| `Uf2.Converter.ConvertToUf2` | bin/uf2conv.py:106-135 | returns the container of the file's 256-byte pages, or the exception |
| `Uf2.Converter.PackBlock` | bin/uf2conv.py:112-134 | one block holds header, page, padding and end mark, or a number does not fit 32 bits |
| `Uf2.Converter.AppendZeros` | bin/uf2conv.py:107-109 | appends that many zeros, four at a time |
| `Uf2.Converter.FillPage` | bin/uf2conv.py:128-129 | a short chunk is filled with zeros to 256 bytes |
| `Uf2.DecodeImage` | bin/uf2conv.py:59-93 | decoding succeeds exactly when every block is valid and the segments are in order with word gaps of at most 10 MiB; then the output is the memory image of the segments, with len(outp) == curraddr - appstartaddr |
| `Uf2.PlaceAllImage` | bin/uf2conv.py:78-92 | the same for segments placed one after the other, both directions |
| `Uf2.SplitFlatten` | bin/uf2conv.py:61-64 | the blocks of a container are found again, 512 bytes each |
| `Uf2.DecodeContainer` | bin/uf2conv.py:59-135 | decoding a container is placing its pages |
| `Uf2.ContainerImage` | bin/uf2conv.py:59-135 | a container decodes exactly when its pages are in order, and then to their memory image |
| `Uf2.EncodeOkIff` | bin/uf2conv.py:117-127 | packing fails exactly on an address, count or family id outside 32 bits |
| `Uf2.FileEncodes` | bin/uf2conv.py:106-135 | a file converts exactly when its last page begins inside the 32-bit address space |
| `Uf2.FileRoundTrip` | bin/uf2conv.py:59-135 | converting a file to UF2 and back gives the file zero-padded to a multiple of 256, at its start address |
| `IntelHex.ParseRecord` | bin/uf2conv.py:174-178 | a line gives the bytes of its character pairs, or the exception of the first bad pair |
| `IntelHex.StoreByte` | bin/uf2conv.py:195-199 | a byte goes to the page at hand or begins a new page, in place |
| `IntelHex.StoreRecord` | bin/uf2conv.py:189-201 | a data record writes its payload byte by byte from its address |
| `IntelHex.TakeRecord` | bin/uf2conv.py:179-201 | one record changes address base, end, and pages as its type says |
| `IntelHex.TakeLine` | bin/uf2conv.py:171-201 | one line does what its record does; lines without a colon are skipped, empty ones raise |
| `IntelHex.PageBuffer.Encode` | bin/uf2conv.py:143-163 | a page buffer becomes one block |
| `IntelHex.EncodeBuffers` | bin/uf2conv.py:202-205 | the pages become one container |
| `IntelHex.ConvertFromHexToUf2` | bin/uf2conv.py:166-205 | returns the container of the pages that the text's records write, and leaves the first data address |
| `IntelHex.OrderCarriesOver` | bin/uf2conv.py:195-198 | pages come out in order exactly when the writes visit them in order with gaps of at most 10 MiB |
| `IntelHex.PagesHoldWrites` | bin/uf2conv.py:189-201 | for writes in page order the pages hold, at every address, the last byte written there |
| `IntelHex.HexImage` | bin/uf2conv.py:59-205 | converting HEX to UF2 and decoding it succeeds exactly for writes in page order, and then gives at every address from the first page to the last the last byte written, or zero |
| `IntelHex.HexTextImage` | bin/uf2conv.py:59-205 | the same from the text of the file to the decoded image |
| `IntelHex.HexEncodes` | bin/uf2conv.py:143-205 | a conversion with something to write succeeds exactly when every address written, the number of blocks and the family id fit 32 bits |
| `IntelHex.RecordRoundTrip` | bin/uf2conv.py:174-178 | a record printed as text, with or without a carriage return, is read back |
| `FloodFill.BackgroundMask` | scripts/gen_gen1_color_icons.py:53-76 | a pixel is marked if and only if a 4-connected walk of background pixels joins it to a background corner, for every image size; the queue loop ends; an image without pixels has no corner to look at |
| `FloodFill.MarkCorners` | scripts/gen_gen1_color_icons.py:65-68 | the background corners are marked and queued, and nothing unreached is |
| `FloodFill.Visit` | scripts/gen_gen1_color_icons.py:69-75 | a queued pixel's background neighbours get marked and queued |
| `FloodFill.WalkMarked` | scripts/gen_gen1_color_icons.py:69-76 | with nothing queued, every walk from a corner is marked to its end |
| `RunLength.CountRun` | scripts/gen_gen1_color_icons.py:160-163 | the inner loop finds a run of equal values that cannot go on: the list ends, 64 are reached, or another value follows |
| `RunLength.RleEncode` | scripts/gen_gen1_color_icons.py:153-166 | the bytes emitted decode to the list exactly for indices 0..3, and no code of the format that decodes to the list is shorter |
| `RunLength.RoundTrip` | scripts/gen_gen1_color_icons.py:153-166 | decoding the code gives the list back if and only if all its values are in 0..3 |
| `RunLength.CodeNoShorter` | scripts/gen_gen1_color_icons.py:153-166 | every other code that decodes to the list is at least as long |
| `RunLength.BuildDirectory` | scripts/gen_gen1_color_icons.py:253-259 | the flat stream joins the streams, and entries d and d+1 of the directory delimit stream d |
| `RunLength.DirectoryDecodes` | scripts/gen_gen1_color_icons.py:253-259 | a sprite is found again through the directory, in its shortest code |
| `Calendar.MktimeCountsIff` | src/gps/RTC.cpp:382-418 | gm_mktime is 86400 times the days counted one by one from 1970-01-01, plus the time of day, exactly for years from 1 on and years after a leap year (C division truncates) |
| `Calendar.MktimeValue` | src/gps/RTC.cpp:382-418 | in all other years it is one day more |
| `Calendar.MktimeIsPosix` | src/gps/RTC.cpp:382-418 | from 1970 on it is the formula of POSIX.1-2017 Base Definitions, section 4.16 |
| `Calendar.NextDayAdvances` | src/gps/RTC.cpp:382-418 | the next day, over month, leap-year and century ends, is 86400 seconds later |
| `Calendar.MktimeOrders` | src/gps/RTC.cpp:382-418 | it is strictly increasing and injective on valid dates from year 1 on |
| `Calendar.MktimeReachesAll` | src/gps/RTC.cpp:382-418 | every second from 1970 on is the value of exactly one valid broken-down time |
| `Calendar.YearStartClosed` | src/gps/RTC.cpp:387-394 | the days before a year, counted year by year, are the closed form with floored quotients |
| `Calendar.TruncatedLeapDays` | src/gps/RTC.cpp:391-392 | truncated quotients differ from floored ones by a day just before year 1 in years not after a leap year |
| `Calendar.MonthTable` | src/gps/RTC.cpp:396-403 | the table of days before each month, with the leap day, agrees with counting month by month |
| `ClockQuality.SystemClock.constructor` | src/gps/RTC.cpp:9-22 | the clock starts without quality, at zero |
| `ClockQuality.SystemClock.PerhapsSetRTC` | src/gps/RTC.cpp:163-213 | an offered time is refused as invalid, ignored, or taken with its quality, and the clock afterwards |
| `ClockQuality.SystemClock.PerhapsSetRTCFromTm` | src/gps/RTC.cpp:297-337 | a broken-down time is taken only for years 1900 to 2199, through its calendar value |
| `ClockQuality.RunIsLastTaken` | src/gps/RTC.cpp:192-213 | after any run of offers the clock is the one its last taken offer set |
| `ClockQuality.UnforcedQuality` | src/gps/RTC.cpp:183-206 | without forced updates the quality is the best one offered, except that NTP may stand in for GPS |
| `ClockQuality.LowersIff` | src/gps/RTC.cpp:183-206 | exactly when an offer lowers the quality: forced, or NTP over GPS after twelve hours |
| `ClockQuality.ByRuleIff` | src/gps/RTC.cpp:152-206 | exactly when an offer keeps the documented rule that just a time of higher quality sets the clock: one of higher quality by being plausible, another by being neither forced, nor from GPS, nor from NTP after twelve hours |
| `ClockQuality.RunByRule` | src/gps/RTC.cpp:152-206 | over every run that keeps it, the clock is set by the first offer of the best quality |
| `ClockQuality.BestKept` | src/gps/RTC.cpp:183-206 | over every unforced run in which NTP times come within twelve hours of a GPS time, the best source is kept |
| `ClockQuality.NtpReplacesGps` | src/gps/RTC.cpp:152-162 | the documented rule fails of a run: NTP replaces GPS after twelve hours |
| `ClockQuality.ElapsedRightIff` | src/gps/RTC.cpp:362-369 | the seconds added since the clock was set are right exactly while fewer than 2^32 ms have passed |
| `ClockQuality.TmServed` | src/gps/RTC.cpp:362-380 | after a broken-down time was taken, getTime and getValidTime serve its calendar value plus the seconds since |
| `AirTime.AirTime.constructor` | src/airtime.cpp:160 | nothing counts as logged before the first tick |
| `AirTime.AirTime.LogAirtime` | src/airtime.cpp:12-32 | a report is added to the log, and all counters still agree with it |
| `AirTime.AirTime.AirtimeRotatePeriod` | src/airtime.cpp:49-73 | when an hour ends each history moves back by one entry, and the public copies equal it entry by entry |
| `AirTime.AirTime.FirstRun` | src/airtime.cpp:169-192 | the first tick clears everything |
| `AirTime.AirTime.TurnWindows` | src/airtime.cpp:196-207 | the slot of a window period that has just begun is cleared, and no other |
| `AirTime.AirTime.RunOnce` | src/airtime.cpp:162-210 | every tick keeps all counters in agreement with the log of all events |
| `AirTime.AirTime.ChannelUtilizationPercent` | src/airtime.cpp:103-111 | the share is that of all airtime logged in the last six 10-second periods, modulo 2^32 ms |
| `AirTime.AirTime.UtilizationTXPercent` | src/airtime.cpp:113-121 | the share is that of transmit airtime logged in the last sixty 1-minute periods |
| `AirTime.AirTime.IsTxAllowedChannelUtil` | src/airtime.cpp:123-132 | sending is allowed just while less than 25 (politely) or 40 percent of that window was used |
| `AirTime.SumRing` | src/airtime.cpp:103-121 | summing a ring gives all that was logged in its window, whatever the current slot |
| `AirTime.RingLogs` | src/airtime.cpp:12-32 | logging into the current slot keeps a ring equal to the log, period by period |
| `AirTime.RingTurns` | src/airtime.cpp:196-207 | clearing the next slot turns a ring to the next period |
| `AirTime.HistoryRotates` | src/airtime.cpp:49-73 | shifting makes entry k the airtime logged k hour-periods ago, in the new period |
| `AirTime.LogAgrees` | src/airtime.cpp:12-32 | all five counters at once, for a report |
| `AirTime.TickAgrees` | src/airtime.cpp:162-210 | all five counters at once, for a second that passes |
| `EInk.EInkDynamicDisplay.constructor` | src/graphics/EInkDynamicDisplay.h:99-114 | the scheduler at power-on |
| `EInk.EInkDynamicDisplay.SettleFlags` | src/graphics/EInkDynamicDisplay.cpp:193-230 | the first frame demands a fast refresh; a frame after a skipped one inherits its urgency |
| `EInk.EInkDynamicDisplay.CheckBusyAsyncRefresh` | src/graphics/EInkDynamicDisplay.cpp:521-548 | a frame is skipped while a refresh runs, with the reason for its kind; one that has run out is ended |
| `EInk.EInkDynamicDisplay.CheckRateLimiting` | src/graphics/EInkDynamicDisplay.cpp:233-261 | a plain frame within 30 s, or a responsive one within 1 s, is skipped |
| `EInk.EInkDynamicDisplay.PassGate` | src/graphics/EInkDynamicDisplay.cpp:143-155 | the checks in front of the pipeline give the gate's verdict |
| `EInk.EInkDynamicDisplay.Decide` | src/graphics/EInkDynamicDisplay.cpp:264-370 | the checks, each leaving a decision already reached alone, amount to the decision table |
| `EInk.EInkDynamicDisplay.ApplyRefreshMode` | src/graphics/EInkDynamicDisplay.cpp:70-83 | the panel's window follows the decision |
| `EInk.EInkDynamicDisplay.AdjustRefreshCounters` | src/graphics/EInkDynamicDisplay.cpp:86-93 | a fast refresh is counted, a full one ends the count |
| `EInk.EInkDynamicDisplay.StoreAndReset` | src/graphics/EInkDynamicDisplay.cpp:390-403 | the outcome is kept for the next frame, the image's hash unless it was skipped |
| `EInk.EInkDynamicDisplay.DetermineMode` | src/graphics/EInkDynamicDisplay.cpp:143-190 | the whole pipeline, from the flags to the counters |
| `EInk.EInkDynamicDisplay.RefreshPanel` | src/graphics/EInkDynamicDisplay.cpp:96-140 | the refresh is begun, and ended or left running in the background |
| `EInk.EInkDynamicDisplay.Update` | src/graphics/EInkDynamicDisplay.cpp:96-108 | the state after a frame, and whether the panel was refreshed |
| `EInk.EInkDynamicDisplay.PollAsyncRefresh` | src/graphics/EInkDynamicDisplay.cpp:497-518 | a refresh that runs is ended when the panel is idle |
| `EInk.EInkDynamicDisplay.JoinAsyncRefresh` | src/graphics/EInkDynamicDisplay.cpp:474-494 | afterwards no refresh runs |
| `EInkRuns.TurnedAwayOwes` | src/graphics/EInkDynamicDisplay.cpp:521-548 | the reason a frame is skipped for records just how urgent it was |
| `EInkRuns.TurnedAwayIsOwed` | src/graphics/EInkDynamicDisplay.cpp:211-261 | over every run, from a frame skipped for rate or busy panel until one passes, every frame is at least as urgent; so a skipped responsive frame makes all of them responsive |
| `EInkRuns.UrgentIsDrawn` | src/graphics/EInkDynamicDisplay.cpp:264-370 | a frame that passes and was at least responsive is drawn unless the panel shows it already, and nothing stays owed |
| `EInkRuns.UndecidedIff` | src/graphics/EInkDynamicDisplay.cpp:143-190 | exactly which frames no check decides: plain ones with only the blocking flag, below every limit |
| `EInkRuns.WindowFits` | src/graphics/EInkDynamicDisplay.cpp:70-83 | over every run each fast or full refresh happens in the window of its kind |
| `EInkRuns.ClashIff` | src/graphics/EInkDynamicDisplay.cpp:111-140 | over every run a refresh is begun over an unfinished one exactly when full refreshes run in the background and a frame that no check decides is followed by a frame that is drawn |
| `EInkRuns.PlainBlockingFrameClashes` | src/graphics/EInkDynamicDisplay.cpp:111-140 | from every run that leaves nothing asked for, owed or running and the count below the limit, a plain frame with the blocking flag and one shown at once lead to such a clash |
| `EInkRuns.ClashPossibleIff` | src/graphics/EInkDynamicDisplay.cpp:111-140 | some run clashes exactly in the builds that refresh in the background and have a limit of fast refreshes other than 0 |
| `EInkRuns.CalmRunWithinLimit` | src/graphics/EInkDynamicDisplay.cpp:321-341 | with a limit of at least 1 and callers that never raise DEMAND_FAST or UNLIMITED_FAST, fastRefreshCount never exceeds the limit |
| `EInkRuns.FastRefreshLimitIff` | src/graphics/EInkDynamicDisplay.cpp:193-208 | the fast refreshes the panel sees since a full one stay within the limit over all such runs if and only if the limit is at least 1 |
| `Ubx.UBXChecksum` | src/gps/GPS.cpp:131-145 | the last two bytes become the checksum over all between them and the sync bytes; nothing else changes |
| `Ubx.MakeUBXPacket` | src/gps/GPS.cpp:168-187 | the scratch buffer starts with the frame of class, id and payload |
| `Ubx.ExpectedAck` | src/gps/GPS.cpp:321-344 | the ten bytes built in place are the frame makeUBXPacket(5, 1, 2, [class, id]) builds |
| `Ubx.GetACK` | src/gps/GPS.cpp:321-390 | the answer is that of the byte-by-byte matcher over what the port delivers before the time is up |
| `Ubx.OkWasRead` | src/gps/GPS.cpp:346-384 | OK is answered only when the ten bytes of the frame were read one after the other, with time left |
| `Ubx.NakWasRead` | src/gps/GPS.cpp:371-380 | NAK is answered only when 0xB5 0x62 0x05 0x00 was read in one piece |
| `Ubx.FrameErrorsWasRead` | src/gps/GPS.cpp:357-369 | the answer of frame errors is given only when the whole error text was read in one piece |
| `Ubx.NoSyncNoMatch` | src/gps/GPS.cpp:356-384 | bytes without 0xB5 start no match; only the error text can end the wait |
| `Ubx.FrameAnsweredIff` | src/gps/GPS.cpp:371-384 | a frame that arrives is answered with OK if and only if it carries on the bytes matched before it |
| `Ubx.FrameAfterNoise` | src/gps/GPS.cpp:346-384 | after bytes without 0xB5 it is answered with OK, unless the error text came first |
| `Ubx.StrayStartLosesFrame` | src/gps/GPS.cpp:371-384 | after any bytes that leave up to five of a frame matched, the next frame is answered with OK if and only if none are, since the byte that breaks a match is not looked at again |
| `Ubx.ReadBytes` | src/gps/GPS.cpp:453 | a blocking read fills the buffer until it has enough or the port goes silent |
| `Ubx.GetPayload` | src/gps/GPS.cpp:399-470 | the length returned, and the buffer, are those of the incremental parser |
| `Ubx.PayloadRoundTrip` | src/gps/GPS.cpp:399-470 | after any bytes without 0xB5, the payload of 1 to 242 bytes given to makeUBXPacket is returned exactly, whatever pauses there are outside and between its bytes short of silence |
| `Ubx.PayloadWasSent` | src/gps/GPS.cpp:399-470 | a payload is returned only if it arrived in one piece behind a header with its class, id and length |
| `Ubx.ChecksumUnread` | src/gps/GPS.cpp:443-463 | the payload is returned whatever stands where the checksum belongs; the frame was intact exactly when that is its checksum |
| `Ubx.ZeroReplyIff` | src/gps/GPS.cpp:443-470 | after a frame that arrived whole the result is 0 exactly when its payload is empty or does not fit the buffer, so only then is it mistaken for silence |
| `Ubx.NothingSent` | src/gps/GPS.cpp:405-470 | where no 0xB5 is heard the result is 0 and the buffer stays |
| `Ubx.FrameReadIff` | src/gps/GPS.cpp:408-463 | a frame without another 0xB5, which finds the reader at its start or inside a header, is returned exactly when it is not inside a header |
| `Ubx.UnfinishedPayloadTakesFrame` | src/gps/GPS.cpp:443-470 | a reader that still waits for the payload of a frame that was cut off takes the next frame for it: it returns the bytes that complete that payload, or nothing, and never the payload of the frame that arrived unless that is empty or has a 0xB5 in it |
| `Ubx.StrayStartLosesPayload` | src/gps/GPS.cpp:408-463 | so after c stray bytes of a frame's start, up to five, the next frame is returned exactly when c is zero |
| `Recovery.FusionAhrs.Reset` | src/Fusion/FusionAhrs.c:65-80 | the state after a reset |
| `Recovery.SettingsEndRecoveryIff` | src/Fusion/FusionAhrs.c:87-101 | new settings end a recovery exactly when their period is not below the trigger, and the next bad sample is ignored exactly when it is above it |
| `Recovery.SettingsWithoutRejection` | src/Fusion/FusionAhrs.c:87-109 | after settings without a gain or a recovery period, whatever the state before and the readings since, no non-zero sample is ignored |
| `Recovery.StepRestoresRange` | src/Fusion/FusionAhrs.c:165-173 | one non-zero sample brings the counters back into range, whatever new settings left of them |
| `Recovery.FusionAhrs.RampDown` | src/Fusion/FusionAhrs.c:137-145 | the gain falls and initialisation ends when it reaches its setting |
| `Recovery.FusionAhrs.UpdateAcceleration` | src/Fusion/FusionAhrs.c:149-180 | one accelerometer sample moves the recovery counters by one step |
| `Recovery.FusionAhrs.UpdateMagnetic` | src/Fusion/FusionAhrs.c:182-216 | one magnetometer sample does the same for its counters |
| `Recovery.FusionAhrs.Update` | src/Fusion/FusionAhrs.c:120-216 | the state after any reading in any state; a sensor that was not zero has its counters in range |
| `Recovery.FusionAhrs.GetFlags` | src/Fusion/FusionAhrs.c:508-517 | the four flags as reported |
| `Recovery.RunBounds` | src/Fusion/FusionAhrs.c:152-174 | over every run since a reset the trigger stays in [0, P] and the timeout in {0, P}; the samples ignored in a row are at most P, and in all at most P plus nine times the good ones |
| `Recovery.StreakReached` | src/Fusion/FusionAhrs.c:152-174 | P bad samples are all ignored and the next one is not, so the bound is exact |
| `Recovery.IgnoresIff` | src/Fusion/FusionAhrs.c:158-170 | a non-zero sample is ignored if and only if it is bad, no recovery runs, and the trigger is below P |
| `Recovery.RecoveryStep` | src/Fusion/FusionAhrs.c:165-172 | in a recovery no non-zero sample is ignored, and only a good one that drains the trigger ends it |
| `Recovery.RecoveryHolds` | src/Fusion/FusionAhrs.c:165-172 | once a recovery starts no non-zero sample is ignored until the trigger has drained to zero |
| `Recovery.FlagIffRecovering` | src/Fusion/FusionAhrs.c:508-517 | the flag shows a recovery exactly while the timeout is down |
| `Recovery.IgnoringPossibleIff` | src/Fusion/FusionAhrs.c:152-174 | some run ignores a sample if and only if the period is positive |
| `Recovery.InitialisationLasts` | src/Fusion/FusionAhrs.c:137-145 | for every gain, exactly when the algorithm still initialises after a reset: below 10 for three seconds, at gain 0 until the first reading, at 10 forever, above 10 until the first reading or, if that took three seconds, forever; and its gain until and after then |
| `Recovery.SensorsRunApart` | src/Fusion/FusionAhrs.c:120-216 | both sensors of an uninterrupted run go through runs of their own samples, so the bounds hold of them |
| `Quaternion.MultiplyAssociative` | src/Fusion/FusionMath.h:366-379 | quaternion multiplication is associative |
| `Quaternion.MultiplyNorm` | src/Fusion/FusionMath.h:366-379 | it multiplies squared norms |
| `Quaternion.MultiplyVectorIsMultiply` | src/Fusion/FusionMath.h:390-403 | multiplying by a vector is multiplying by the quaternion with w zero |
| `Quaternion.ToMatrixHomogeneousIff` | src/Fusion/FusionMath.h:457-480 | the matrix is the one of degree two, w^2+x^2-y^2-z^2 and so on, just for unit quaternions |
| `Quaternion.SandwichIsHomogeneous` | src/Fusion/FusionMath.h:366-480 | the matrix of degree two does to a vector what q v q* does, for every quaternion |
| `Quaternion.ToMatrixRotates` | src/Fusion/FusionMath.h:437-480 | for a unit quaternion the matrix rotates a vector as q v q* does |
| `Quaternion.ToMatrixMultiplicative` | src/Fusion/FusionMath.h:366-480 | for unit quaternions the matrix of a product is the product of the matrices |
| `Quaternion.ToMatrixOrthonormal` | src/Fusion/FusionMath.h:457-480 | for a unit quaternion the transpose is the inverse on both sides |
| `Quaternion.RotationKeepsLength` | src/Fusion/FusionMath.h:437-480 | and rotating keeps lengths |
| `Quaternion.HalfDirections` | src/Fusion/FusionAhrs.c:241-303 | the directions of gravity and of the magnetic field are half the earth's up and west, taken to the sensor by the inverse rotation, in all three conventions |
| `Quaternion.HalfDirectionsLength` | src/Fusion/FusionAhrs.c:241-303 | for a unit quaternion both have length one half |
| `Quaternion.IntegrateNorm` | src/Fusion/FusionAhrs.c:226-232 | a step of integration multiplies the squared norm by 1 plus the squared half angle, so it can be normalised |
| `GpioNetwork.Transformer.Unary` | src/GpioLogic.cpp:26-37 | the constructor makes the transformer the one dependent of its input |
| `GpioNetwork.Transformer.Not` | src/GpioLogic.h:103-112 | the same for the inverting one |
| `GpioNetwork.Transformer.Binary` | src/GpioLogic.cpp:60-71 | the same for both inputs of the binary one |
| `GpioNetwork.SetPin` | src/GpioLogic.cpp:4-24 | setting a pin ends, sets everything the pin stands for, and every transformer not pending is consistent |
| `GpioNetwork.SetVirt` | src/GpioLogic.cpp:4-11 | a virtual pin updates its transformer only when its value is new, and that is enough |
| `GpioNetwork.UpdateDependent` | src/GpioLogic.cpp:9-10 | the transformer of a changed pin drives its output, and everything downstream follows |
| `GpioNetwork.Update` | src/GpioLogic.cpp:39-100 | the output is driven to the gate's value; an unset input of a binary one does not count |
| `GpioNetwork.Set` | src/GpioLogic.cpp:4-100 | a set from outside ends and leaves every transformer with a set input driving its NOT, And, Or or Xor value; pins neither driven nor set stay |
| `GpioNetwork.SetAll` | src/GpioLogic.cpp:4-100 | so does any sequence of sets |
| `GpioNetwork.InitiallyAtRest` | src/GpioLogic.cpp:26-71 | a network nobody has set yet is at rest |
| `GpioNetwork.ShowsExpression` | src/GpioLogic.cpp:4-100 | at rest every virtual pin shows the value of the whole expression behind it |
| `GpioNetwork.DrivesExpression` | src/GpioLogic.cpp:4-100 | and so does every output of a transformer, hardware pins included |

## Left out

- XModem.HandleFaithful, XModem.RunFaithful: files of more than 65535 packets, for which the sequence number wraps.
- XModemTransmit.TransferComplete: ACKs may be lost and delayed but are neither forged nor repeated; NAKs may be all of
  it. No CAN or EOT comes from outside. What repeated ACKs do, and what a CAN or EOT does, is stated apart.
- XModemReceive.ReceiveSafe: files of fewer than 65535 packets.
- Files on flash: writes succeed, opening for writing truncates, a seek outside the file fails and leaves the position;
  whether a file can be opened at all is a parameter.
- IntelHex.ParseRecord: text of the characters that `is_hex` lets through; other characters are given an exception but
  not Python's full rules for integers.
- AirTime.AirTime.RunOnce: after 136 years the 32-bit second counter wraps, and from then on agreement with the log is
  not stated.
- AirTime.AirTime.ChannelUtilizationPercent, AirTime.AirTime.UtilizationTXPercent: percentages are exact reals, not
  rounded floats.
- The duty-cycle check, the silent minutes and the report by type of the airtime module: a float heuristic and plain
  reads.
- Calendar.MktimeCountsIff: integers are unbounded; years beyond some five million overflow the source's 32-bit int.
- ClockQuality.SystemClock.PerhapsSetRTC: writing to a hardware clock, reading one back and the timezone offset are
  device and library calls.
- EInk.EInkDynamicDisplay.Update: the image's hash and the count of ghosting pixels are given with the frame; the
  panel's BUSY pin only falls while a refresh runs; the base class's own guard against two updates in one millisecond
  is not modelled; the count of fast refreshes is unbounded.
- Ubx.MakeUBXPacket: payloads of 243 to 255 bytes, which do not fit the source's 250-byte scratch buffer.
- Ubx.FrameReadIff: readers at their start or inside a header, frames with no other 0xB5 in them, and buffers of at most
  25269 bytes.
- Ubx.GetACK, Ubx.GetPayload: time is what the port delivers before the wait ends; frames of other protocols, the CAS
  checksum and the text matcher are not part of this model.
- Recovery.FusionAhrs.Update: the squared errors are given with the reading; the trigonometry behind the thresholds, the
  fast inverse square root and the normalisation are not modelled.
- Recovery.RecoveryHolds: between resets and new settings; what new settings do to a recovery is stated apart.
- Recovery.InitialisationLasts: between readings beyond the range of the gyroscope, which begin it anew; time does not
  run backwards.
- Quaternion.ToMatrixMultiplicative and the other laws: over the reals, without rounding.
- GpioNetwork.Update: an update of a binary transformer with neither input set, which no set leads to.
- GpioNetwork.Set: networks without cycles in which nothing has two drivers and no splitter reaches a pin twice, and
  whose transformers were attached before their inputs were first set; one attached later drives nothing until an input
  of it changes, since constructors do not update.
- Screen drawing, image fetching and quantization, serial and bus drivers, power states, the game
  itself, the C-array output of the converter, drive discovery and command lines.
