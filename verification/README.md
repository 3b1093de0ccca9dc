# Verified model of the BeagleBone drivers

This project models three drivers of the repository in Dafny and proves what they are for.

* **The MediaTek Bluetooth UART transport** (`hc05/btmtkuart.c`). Packets travel inside STP frames: a 4-byte
  header (prefix 0x80, a 12-bit length, a checksum nobody checks), the H:4 packet, a 2-byte trailer.
  * `StpAutomaton` is the de-framer one byte at a time over its real state (pad, cursor, owed length);
    `StpReceiver` is the block-oriented code that mutates a 6-byte array, proved equal to it.
    `StpPhases` is the smallest machine with the same behaviour: two receiver states are indistinguishable by
    any future stream exactly when their phases are equal, which also says exactly which bits of the stream
    are ever looked at. `StpGrammar` is the stream as a grammar over whole frames, with no cursor at all.
  * `StpFramer` is the sending side's framing on a buffer with head and tail room, and its round trip with the
    receiver.
  * `TxMachine` is the transmit path as atomic steps of any number of callers, one worker, one flush and the
    serial port, which buffers what it accepts; `TxLine` describes the line as pieces of the frames sent, out of
    which a flush takes ranges of bytes. `TxSafety` proves the invariants over all runs and that worker and port
    settle; `TxDevice` is the driver's code, overtaken by the others between any two of its steps, each step
    recorded as one step of the machine. `EndToEnd` joins senders, worker, port, flushes, arbitrary chunking
    and receiver.
  * `Wmt` is stop-and-wait against a concurrent event handler; `Firmware` the chunked download on top of it.
* **The BMP280 SPI drivers** (`bmp280_spi/bmp280_spi.c`, `bmp280_spi/bmp280_spi_simple.c`).
  `Bmp280Temperature` is the compensation formula in wrapping 32-bit words; `Bmp280Bus` is the reading of
  registers by hand-built transfer lists, by bursts, and one at a time.
* **The character LCD** (`LCD_drv/lcd.c`). `Lcd` turns bytes into pin writes; an observer that samples on the
  falling enable edge of the board's pins recovers the bytes.

Conventions. A bitwise OR of fields that do not overlap is written as a sum, a mask with 2^n - 1 as a remainder,
a shift as a multiplication or a division that rounds down. Wrap-around of `u32` words is explicit. `H4Sink`
stands for the H:4 reassembler, which is not part of this model: it takes every byte handed to it and may report
an error as it likes. The serial port takes any part of a buffer and passes its bytes on when it likes; bytes
that a flush can no longer discard are on the line. The port's room is an input, as are the events, send
results, timeouts and signals of a WMT command, bus errors, allocation failures and copy faults.
`schedule_work` sets a pending flag; the worker never runs twice at once and its start clears the flag.
Automatic induction is switched off on every lemma, so that each proof is the one written.

What turned out false of the code, with the exact condition:

* An H:4 packet (type byte included) longer than 2048 bytes never survives framing and de-framing; every other
  one does (`StpFramer.RoundTripIff`). The sender masks the length and does not check it.
* The temperature computed is the one the formula means exactly when neither unsigned product leaves its 32-bit word,
  or both do so that the errors cancel (`Bmp280Temperature.IntendedIff`, for every reading and coefficient; the
  difference itself is in `Compensate`). For `dig_T2 <= 32767` and `dig_T3 <= 4096` that means a reading at or above
  the reference point (`adc_T >= 16 * dig_T1`) or `dig_T2` zero; below it the result is exactly 40960 too high
  (`IntendedIffWarm`). The formula takes the coefficients as the code declares them, unsigned. Against signed
  `dig_T2` and `dig_T3` the error is known exactly (`SignedCoefficients`); with `dig_T2` below 0x8000,
  a negative `dig_T3` and the reading at or above the reference point it vanishes exactly within 1024 of it
  (`SignedIffWarm`; `SignedDiffers` is an input).
* The bit a WMT command waits on can be cleared before the command is sent, by a late answer to an earlier one, and
  the command then succeeds although nothing answers it. `Wmt.AnsweredAfterSendingIff` and
  `Firmware.DownloadInStepIff` say exactly when every answer follows its command.
* At rest ACTIVE or WAKEUP is set if and only if a flush has cancelled a pending run while one of them was set,
  and no run has ended since (`TxSafety.BitsAtRest`; `FlushLeavesActive` and `FlushLeavesWakeup` are runs). It
  does no harm, because scheduling does not depend on them.
* With nothing scheduled a queue is left non-empty if and only if the last drain ended in a partial write, or a
  flush has cancelled a run behind packets queued after its purge (`TxSafety.NothingStranded`; `FlushStrands` is
  such a run). They stay until the next wakeup.
* A flush can cut a frame: the peer then takes bytes of the next frame for the missing ones, and loses that one
  too (`EndToEnd.FlushTears`). A step leaves a frame cut if and only if it empties a port whose bytes begin or
  end inside a frame, or drops the rest of a frame from the queue (`TxSafety.WholeStepIff`).
* A one-chunk firmware download carries no first-chunk flag, so a device that obeys flags recovers it only
  when no earlier download was left half done (`Firmware.ReassembledIff`).
* On a copy fault the LCD driver still displays as many characters as were asked for, and reports fewer
  (`Lcd.Driver.Write`).

## Model

| member | source | states |
|---|---|---|
| StpAutomaton.RunSplit | hc05/btmtkuart.c:320-367 | receiving a then b has the same output and the same final state as receiving a followed by b at once, from every state |
| StpAutomaton.FeedIsRun | hc05/btmtkuart.c:327-366 | any list of receive calls delivers what one call on the joined bytes delivers |
| StpAutomaton.ChunkingInvariance | hc05/btmtkuart.c:320-367 | two ways of cutting the same bytes give the same H:4 output and the same final state |
| StpAutomaton.RunPayload | hc05/btmtkuart.c:310-317 | up to dlen payload bytes pass unchanged and are deducted |
| StpReceiver.Receiver.constructor | hc05/btmtkuart.c:409-410 | opening puts the receiver before a header |
| StpReceiver.Receiver.Flush | hc05/btmtkuart.c:464-465 | flushing does the same and keeps the dead pad bytes |
| StpReceiver.Receiver.Fill | hc05/btmtkuart.c:284-304 | the pad-filling loop and header check equal the automaton on the framing bytes and deliver nothing |
| StpReceiver.Receiver.Split | hc05/btmtkuart.c:274-318 | returns null only if everything was framing, otherwise a window that is exactly the next H:4 output, as long as the data or the frame allows; progress of at least one byte; the receiver invariant |
| StpReceiver.Receiver.Recv | hc05/btmtkuart.c:320-367 | the block loop equals the byte automaton in output and state; it succeeds exactly if H:4 accepts every piece handed to it, and otherwise returns H:4's error, having run exactly to the end of the refused piece |
| StpReceiver.Receiver.ReceiveBuf | hc05/btmtkuart.c:369-382 | if H:4 accepts every piece the whole block is consumed, counted and returned; if it refuses one its error is returned and nothing is counted |
| StpReceiver.H4Sink.RecvBuf | hc05/btmtkuart.c:351-360 | takes and remembers the chunk, ignores an empty one, returns the verdict if it is an error |
| StpPhases.PhaseSimulates | hc05/btmtkuart.c:274-318 | a receiver behaves as its phase does, on every stream |
| StpPhases.IndistinguishableIffSamePhase | hc05/btmtkuart.c:274-318 | two receiver states give the same output for all streams if and only if their phases are equal |
| StpPhases.InterchangeableIffReadAlike | hc05/btmtkuart.c:281-304 | in any state, replacing the next byte by another changes nothing ever if and only if the phase reads the two alike: exactly the bits that count |
| StpPhases.NonInterference | hc05/btmtkuart.c:281-304 | streams that differ only in trailers, checksums and the type nibble give the same output and equivalent final states |
| StpGrammar.HeaderRun | hc05/btmtkuart.c:293-304 | four header bytes deliver nothing and lead to the payload, to the trailer of an empty frame, or back to a header |
| StpGrammar.ReceiverDeframes | hc05/btmtkuart.c:274-367 | from a frame boundary the output on any stream is that of the grammar, whatever the pad holds |
| StpGrammar.ReceiverContinues | hc05/btmtkuart.c:274-367 | from any state: the rest of the payload, of the trailer or of a half-read header, then the grammar |
| StpGrammar.Resynchronises | hc05/btmtkuart.c:297-303 | any bad headers, then any well-formed frames: exactly the payloads come out, the receiver is before a header, and after the junk it cannot be told from a new one |
| StpGrammar.DroppedIffBad | hc05/btmtkuart.c:297-303 | a header leaves no trace exactly when its prefix or length is bad |
| StpFramer.Encapsulate | hc05/btmtkuart.c:520-540 | the buffer becomes the framed packet, or, when it cannot grow, keeps the type byte in front, is not framed and gives -12; fails exactly without room and memory |
| StpFramer.FrameLayout | hc05/btmtkuart.c:532-540 | byte for byte: 0x80, the length modulo 4096 big-endian under a zero nibble, zero checksum, the packet, two zeros |
| StpFramer.RoundTripIff | hc05/btmtkuart.c:532-540 | de-framing gives the packet back if and only if type byte and payload fit in 2048 bytes, and then ends before a header |
| StpFramer.RoundTripAll | hc05/btmtkuart.c:514-546 | the same for any list of packets |
| TxSafety.ConservedStep | hc05/btmtkuart.c:228-242 | every step keeps the account: line, port, buffer in hand and queue joined are the pieces to be sent |
| TxSafety.PurgeConserves | hc05/btmtkuart.c:457 | dropping a queued buffer keeps the account of everything else, also while another buffer is in the worker's hands |
| TxSafety.PortConserves | hc05/btmtkuart.c:455-456 | emptying the port keeps the account of line, buffer in hand and queue |
| TxSafety.FaithfulStep | hc05/btmtkuart.c:224-261 | no step invents, reorders or repeats a byte of a frame |
| TxSafety.CountedStep | hc05/btmtkuart.c:236-254 | every step keeps every byte and every frame, by kind, accounted for by the counters, the buffers waiting and what was purged |
| TxSafety.AttendedStep | hc05/btmtkuart.c:259-272 | every step keeps somebody responsible for a non-empty queue |
| TxSafety.BitsMeanStep | hc05/btmtkuart.c:225-272 | every step keeps the meaning of the two bits |
| TxSafety.WireIsConserved | hc05/btmtkuart.c:224-261 | in every reachable state line, port, in-hand rest and queue joined are pieces of the frames sent, in order and without repetition; what is missing is, byte for byte, what flushes dropped |
| TxSafety.StatisticsAgree | hc05/btmtkuart.c:236-254 | over the whole history byte_tx counts the bytes on the line, in the port and discarded from it, and each kind's counter all frames sent of that kind but those waiting and those purged |
| TxSafety.NothingStranded | hc05/btmtkuart.c:224-272 | idle, nothing pending and no sender between queueing and scheduling: the queue is non-empty if and only if the last drain ended in a partial write or a flush has cancelled a run behind it |
| TxSafety.FlushStrands | hc05/btmtkuart.c:451-459 | a run in which a flush cancels the run of a frame queued after the purge, and the frame stays |
| TxSafety.BitsAtRest | hc05/btmtkuart.c:225-268 | at rest a bit is set if and only if a flush has cancelled a pending run with a bit set and no run has ended since |
| TxSafety.WholeStepIff | hc05/btmtkuart.c:451-459 | a step leaves a frame cut if and only if it empties a port whose bytes begin or end inside a frame, or drops the rest of a begun frame |
| TxSafety.UntornRun | hc05/btmtkuart.c:451-459 | a run without such a step leaves every frame whole |
| TxSafety.FlushLeavesActive | hc05/btmtkuart.c:451-459 | a run in which a flush leaves ACTIVE set with nothing to do |
| TxSafety.FlushLeavesWakeup | hc05/btmtkuart.c:451-459 | a run in which a flush leaves WAKEUP set and ACTIVE clear |
| TxSafety.Settles | hc05/btmtkuart.c:224-263 | without new calls worker and port take a bounded number of steps |
| TxSafety.SettledIsIdle | hc05/btmtkuart.c:259-263 | worker and port are stuck exactly when the worker is idle with nothing pending and the port is empty |
| TxSafety.QuietRunDrains | hc05/btmtkuart.c:217-272 | such a run, once it can go no further, has everything on the line if and only if its last drain did not end in a partial write and no flush cancelled its successor |
| TxSafety.RoomyRunDelivers | hc05/btmtkuart.c:224-263 | if the port takes every buffer in full, a run from any reachable idle state with work pending and no sender inside puts everything on the line |
| TxSafety.EagerRunsDeliver | hc05/btmtkuart.c:228-263 | if every write takes at least one byte, then whatever wakeups and flushes come between, after as many runs as bytes are waiting nothing waits |
| TxDevice.Transmitter.Facts | hc05/btmtkuart.c:217-272 | byte conservation, order and origin of the pieces, all four counters, the meaning of the two bits, and when a queue is left, said of the mutable object |
| TxDevice.Transmitter.TxWakeup | hc05/btmtkuart.c:266-272 | sets ACTIVE, sets WAKEUP if ACTIVE was set, and schedules in either case |
| TxDevice.Transmitter.SendFrame | hc05/btmtkuart.c:514-546 | queues the framed packet at the tail and leaves the worker scheduled; a packet that cannot be framed gives -12 and changes nothing but itself |
| TxDevice.Transmitter.TakeHead | hc05/btmtkuart.c:228-232 | takes the first buffer, as one machine step |
| TxDevice.Transmitter.Pull | hc05/btmtkuart.c:236-254 | accounts for a write of any size, as one machine step |
| TxDevice.Transmitter.CountFrame | hc05/btmtkuart.c:244-254 | counts the frame under its kind and no other |
| TxDevice.Transmitter.PutBack | hc05/btmtkuart.c:239-241 | puts an unfinished buffer back at the head, as one machine step |
| TxDevice.Transmitter.TxWork | hc05/btmtkuart.c:217-264 | one run of the two loops, overtaken anywhere by callers, port and a flush, ends, and is a run of the machine from the state it found; with room on the port it leaves nothing half written, and undisturbed it hands over everything sent |
| TxDevice.Transmitter.BeginFlush | hc05/btmtkuart.c:455-456 | emptying the port, as one machine step |
| TxDevice.Transmitter.PurgeBuffer | hc05/btmtkuart.c:457 | one buffer of the purge, as one machine step |
| TxDevice.Transmitter.CancelRun | hc05/btmtkuart.c:459 | cancelling, as one machine step, keeps both bits |
| TxDevice.Transmitter.Flush | hc05/btmtkuart.c:451-459 | a flush begun wherever the worker stands, overtaken by worker, callers and port, ends, is a run of the machine, and leaves the worker idle and nothing pending; undisturbed with the worker idle it empties port and queue and keeps both bits |
| EndToEnd.Delivered | hc05/btmtkuart.c:217-367 | at any moment of any interleaving, partial writing, flushing and chunking that leaves no frame cut, the peer's H:4 input is a prefix of the packets not dropped, in order, and includes every one whose frame has arrived; when drained it is all of them and the receiver is before a header; without dropping they are all packets sent |
| EndToEnd.DeliveredAfter | hc05/btmtkuart.c:217-367 | the same of any whole frames in the history, for a peer before a header when they begin |
| EndToEnd.FlushTears | hc05/btmtkuart.c:451-459 | a run in which a flush cuts a frame, and what the peer makes of it |
| Wmt.Link.RecvEvent | hc05/btmtkuart.c:184-209 | the raw vendor code goes up as 0xff, and exactly a vendor event clears the bit |
| Wmt.Link.WmtSync | hc05/btmtkuart.c:77-129 | result and marks for every environment; each error by its number: -22 for a command too long, the error of sending, -4 for a signal, -110 for any other end of the wait without an answer; the bit is clear on every return |
| Wmt.CommandDecodes | hc05/btmtkuart.c:86-95 | direction, operation, length, flag and parameters can be read back from the command |
| Wmt.HandledBit | hc05/btmtkuart.c:199-206 | the bit survives exactly the event lists without a vendor event, and one event takes it |
| Wmt.SuccessIff | hc05/btmtkuart.c:86-128 | 0 is returned if and only if the command fits, is sent, and either the bit is clear at the first look or an event clears it before a signal or the clock ends the wait; so an answer that comes before the wait is never lost |
| Wmt.ErrorIs | hc05/btmtkuart.c:86-128 | which error comes back in which case, by number, in terms of the bit at the first look and after the wait |
| Wmt.ArmedBeforeSent | hc05/btmtkuart.c:97-128 | the bit is set before the command goes out, and the last thing that happens is the return of the result |
| Wmt.AnsweredAfterArming | hc05/btmtkuart.c:97-128 | success means a vendor event hit the bit after it was set and before the return |
| Wmt.AnsweredAfterSendingIff | hc05/btmtkuart.c:97-128 | a successful command is answered after it was sent if and only if no vendor event came between setting the bit and sending |
| Wmt.InStepIff | hc05/btmtkuart.c:97-128 | no event clears the bit for a command before that command is out if and only if none comes early, nor after a send that failed |
| Wmt.ExchangeCounts | hc05/btmtkuart.c:97-128 | a command is sent at most once and its bit cleared by at most one event, and both exactly once on success; whether that event follows the send is InStepIff |
| Firmware.Chunk | hc05/btmtkuart.c:158-159 | every chunk has 1 to 250 bytes, all but the last exactly 250 |
| Firmware.Loader.SetupFw | hc05/btmtkuart.c:131-182 | a missing image, -22 for a short one, the error of the first failing chunk with exactly the commands before it successful, or success of all chunks, after which a device that checks every header byte holds the image from byte 30 on (a one-chunk image if it had nothing half done) |
| Firmware.Loader.Download | hc05/btmtkuart.c:154-177 | the chunk loop: the n-th chunk goes out with the flag of its position, the loop stops at the first failure, and after a full run that device holds the image |
| Firmware.DownloadDiscipline | hc05/btmtkuart.c:158-177 | sends are never more than one ahead of the events that cleared the bit, the successful commands are the first chunks' in order, a failing one adds at most itself, and the size limit is never hit |
| Firmware.DownloadInStepIff | hc05/btmtkuart.c:158-177 | every command of a download is answered, if at all, after it is sent and before the next one, if and only if no event clears the bit early for any of them |
| Firmware.FirstDisciplined | hc05/btmtkuart.c:158-177 | n successes are exactly n commands sent, in order, and n events that cleared the bit, never more than one send ahead of them |
| Firmware.TakesChunks | hc05/btmtkuart.c:161-168 | after k commands a device that accepts only direction 1, operation 1, the right length and flags 1, 2, 3 holds exactly that much of the image |
| Firmware.ReassembledIff | hc05/btmtkuart.c:148-177 | a complete download yields the image from byte 30 on in such a device if and only if it has more than 280 bytes, or more than 30 and nothing was half done before |
| Firmware.Downloaded | hc05/btmtkuart.c:148-177 | the same of the commands found on the link when all have succeeded |
| Bmp280Temperature.Compensate | bmp280_spi/bmp280_spi.c:288-291 | for every reading and coefficient, the wrapped result and t_fine in terms of the intended ones; the result is 5 * t_fine / 256 rounded to the nearest, halves up |
| Bmp280Temperature.FineIs | bmp280_spi/bmp280_spi.c:288-290 | for every input, t_fine is the sum of the two products over 2048 and 16384, each rounded down, less 0x200000 and 0x40000 for every word they leave |
| Bmp280Temperature.FineExact | bmp280_spi/bmp280_spi.c:288-291 | where neither product leaves its word, that sum itself, and the result is its rounding |
| Bmp280Temperature.SquareSurvives | bmp280_spi/bmp280_spi.c:289 | the squared difference is exact even when the difference wraps |
| Bmp280Temperature.IntendedIff | bmp280_spi/bmp280_spi.c:288-291 | for every reading and coefficient, the result is the intended one if and only if neither product leaves its word, or the first is negative by less than a word while the second is eight words too large |
| Bmp280Temperature.IntendedIffWarm | bmp280_spi/bmp280_spi.c:288-291 | for dig_T2 <= 32767 and dig_T3 <= 4096: the intended result if and only if the reading is at or above the reference point or dig_T2 is zero, and otherwise 40960 too high |
| Bmp280Temperature.SignedCoefficients | bmp280_spi/bmp280_spi.c:288-291 | for every input, how far t_fine is from that of the formula with signed dig_T2 and dig_T3 |
| Bmp280Temperature.SignedIffWarm | bmp280_spi/bmp280_spi.c:288-291 | for dig_T2 below 0x8000, at or above the reference point: t_fine is that of the signed formula if and only if dig_T3 is not negative and no product wraps, or it is negative and the reading is less than 1024 above |
| Bmp280Temperature.SignedDiffers | bmp280_spi/bmp280_spi.c:288-291 | an input with dig_T3 = -1000 for which 2983 is computed and 2508 intended |
| Bmp280Temperature.WarmRange | bmp280_spi/bmp280_spi.c:288-291 | for dig_T2 <= 32767 and dig_T3 <= 4096, at or above the reference point no product wraps and the result lies in 0..46078 |
| Bmp280Temperature.WarmMonotone | bmp280_spi/bmp280_spi.c:288-291 | for the same coefficients, there the result never falls when the reading rises |
| Bmp280Temperature.IntendedAccurate | bmp280_spi/bmp280_spi.c:288-291 | for dig_T2 <= 32767 and dig_T3 <= 4096, the intended result is within one unit of the unrounded formula everywhere, the computed one at or above the reference point |
| Bmp280Bus.PairsRead | bmp280_spi/bmp280_spi.c:187-214 | an address/answer list of any length fills every second byte of rx_buf |
| Bmp280Bus.PairFillAt | bmp280_spi/bmp280_spi.c:273-275 | byte 2k+1 is the register of the k-th address |
| Bmp280Bus.BurstReads | bmp280_spi/bmp280_spi.c:107-132 | a burst reads consecutive registers |
| Bmp280Bus.TempStored | bmp280_spi/bmp280_spi.c:187-284 | a chip stores given temperature inputs, byte by byte, if and only if they are what the drivers make of its registers |
| Bmp280Bus.PressureStored | bmp280_spi/bmp280_spi.c:73-160 | the same for a pressure reading and nine coefficients |
| Bmp280Bus.ListDriver.BuildPairs | bmp280_spi/bmp280_spi.c:241-256 | the loop builds exactly such a list |
| Bmp280Bus.ListDriver.ReadTemp | bmp280_spi/bmp280_spi.c:187-284 | the inputs are exactly those the chip stores, coefficients low byte first from 0x88, reading high byte first from 0xFA, or the first bus error is returned as it is |
| Bmp280Bus.ListDriver.ReadRawTemp | bmp280_spi/bmp280_spi.c:184-297 | the temperature value of exactly the inputs the chip stores, or the first bus error |
| Bmp280Bus.ListDriver.ReadPressure | bmp280_spi/bmp280_spi.c:73-160 | the same for the pressure inputs, from 0x8E and 0xF7, in the shifted layout of the raw value |
| Bmp280Bus.SimpleReadTemp | bmp280_spi/bmp280_spi_simple.c:373-401 | register by register, exactly the inputs the chip stores |
| Bmp280Bus.SimpleReadRawTemp | bmp280_spi/bmp280_spi_simple.c:373-413 | the same temperature value |
| Bmp280Bus.SimpleReadPressure | bmp280_spi/bmp280_spi_simple.c:57-113 | exactly the pressure inputs the chip stores |
| Lcd.Driver.LcdSendByte | LCD_drv/lcd.c:55-62 | the bit loop writes the eight bits and one enable pulse, and the board's display then takes in exactly that byte |
| Lcd.Driver.Display | LCD_drv/lcd.c:101-104 | a clear command and then the buffer's characters |
| Lcd.Driver.Write | LCD_drv/lcd.c:88-107 | at most 17 characters are displayed, after the clear command, and the number reported is short by those not copied; the driver's whole trace stays that of its writes |
| Lcd.Driver.WriteWhole | LCD_drv/lcd.c:88-107 | without a copy fault the display takes in the clear command and the first min(count, 17) characters, and these are reported |
| Lcd.ByteSampled | LCD_drv/lcd.c:45-82 | one byte is one sample with the right register select, on the board's pins, and the bus holds still while enable is high |
| Lcd.Transcript | LCD_drv/lcd.c:45-107 | over any sequence of writes the samples are, per write, the clear command and then the characters in order, with a still bus |
| Lcd.Driver.Displayed | LCD_drv/lcd.c:45-107 | the display's samples of the driver's own trace are, per write, the clear command and the characters in order, with a still bus |

## Left out

- StpReceiver.Receiver.Recv: a block of 2^31 bytes or more, whose length the code would keep in an int.
- Firmware.Loader.SetupFw: an image of 2^31 bytes or more, whose size the code casts to int.
- TxDevice.Transmitter.Pull: writing, pulling and counting are one step, since only the worker touches the counters; a write that returns an error code is not modelled.
- TxDevice.Transmitter.Flush: at most one flush at a time; a pending run is cancelled when the worker has stopped, where the kernel also bars new runs while it waits.
- EndToEnd.Delivered: after a frame has been cut the peer is left to resynchronisation, which nothing guarantees; DeliveredAfter takes over once it is before a header.
- Firmware.DownloadDiscipline: any vendor event that clears the bit counts, as in the driver; events carry nothing that ties them to a command. DownloadInStepIff adds when they come after their commands.
- Wmt.Link.WmtSync: the HCI opcode 0xfc6f, which is the same for every command, is not carried along.
- Bmp280Bus.ListDriver.ReadTemp: the chip select is taken to be released at the end of a message although the last transfer asks for a change, and the chip to step through consecutive registers.
- Bmp280Bus.SimpleReadTemp: bus errors, which that driver stores as data bytes.
- The two remaining setup commands and the shutdown command, which only add calls of the modelled one.
- Opening, closing, probing, clocks, runtime power management and module registration: calls into code not shown.
- The H:4 reassembler and socket buffer memory management.
- BMP280 pressure compensation: it mixes signed and unsigned words with a constant t_fine and has no independent statement.
- The initial display set-up and the delays of the LCD driver.
- The other drivers (I2C, GPIO, ADC, character device and template code, and the 4-bit and I2C LCD variants), which would only add easy members or have no property that holds.
