# Verified model of the Jacdac ESP32 firmware glue

The repository joins the Jacdac/DeviceScript runtime to ESP-IDF. This project models the parts of it where
state, interleaving or arithmetic is delicate, and proves in Dafny what they promise. The code appears twice:
as classes whose methods do what the C or Python code does, field by field and loop by loop, and as functions on
values that those methods are proved to compute. The theorems are lemmas about the functions, over every input,
every run or every interleaving.

| part | files | source |
|---|---|---|
| single-wire UART driver | `UartState`, `UartSections`, `UartDriver`, `UartProtocol`, `UartTheorems`, `UartRules` | `main/hw-esp32.c` |
| deferred-work queue and its timer | `Worker`, `TimWorker` | `main/worker.c`, `main/hw-esp32.c` |
| SPI transfers | `SpiProtocol`, `SpiTheorems`, `Spi` | `main/spi.c` |
| USB transmit path | `UsbProtocol`, `Usb` | `main/usb.c` |
| LED strip encoder and channel | `LedSymbols`, `LedEncoder`, `LedStrip` | `main/led_strip_encoder.c`, `main/ledstrip.c` |
| PWM dividers and timers | `PwmDivider`, `PwmTimers` | `main/led.c` |
| property bags | `PropertyBag` | `main/utils.c` |
| TCP sockets, plaintext | `SockProtocol`, `Sock` | `main/sock.c` |
| UF2 files | `Uf2Format`, `Uf2Reader`, `Uf2Writer`, `Uf2Converter`, `Uf2Theorems`, `Uf2Families`, `Uf2Selection`, `Uf2Layout` | `scripts/uf2conv.py` |
| Intel HEX files | `HexPages`, `HexText`, `HexFiles`, `HexErrors`, `HexConverter` | `scripts/uf2conv.py` |

`dafny verify dfyconfig.toml` checks everything.

## How interleavings are modelled

A protocol is a state, a set of events with guards, and a function `Next`. A run is a sequence of events each of
which is enabled in turn; the theorems quantify over all of them. An event is as small as the code's atomicity
allows: a section with interrupts off for the UART, a single read or write of a shared variable for USB and SPI,
a single call for the sockets.

The methods of the classes in `Sock`, `Usb` and `LedStrip` hand back, as a ghost, the very run of the protocol that
they are; those of `UartDriver` and `Spi` are proved equal to the protocol's steps.

## Assumptions

UART. `uart_init_` has run, so `uart_hw` and `intr_handle` are set. The guards in `UartProtocol.Allowed` are the
environment rules:

- the receiver reads idle while it is tied high (`main/hw-esp32.c:187`, `main/hw-esp32.c:400`);
- the client never calls `uart_disable` in mid-transmit, and starts no second packet before `jd_tx_completed` has been
  called for the last one;
- `uart_start_rx` is called from `jd_line_falling`, and every call of `jd_line_falling` calls it; that function
  belongs to jacdac-c, which is not part of this model;
- `cb_fall` is consumed before the frame that set it ends, since `main/hw-esp32.c:476` would erase it and
  `main/hw-esp32.c:356` would leave `rx_ended` behind;
- no second break arrives before `uart_start_rx` has answered the first.

The last two are timing rules that the code cannot enforce. `UartRules` drops each in turn and gives a run in which
the driver panics or abandons a transmission. The transmit and receive buffers of the client are distinct arrays.
The record `context` is one field of record type, updated member by member.

Deferred work. The result of a post is ignored at `main/spi.c:37`, `main/spi.c:138`, `main/usb.c:62` and
`main/ledstrip.c:77`. Whether posts are accepted is therefore part of the run: the theorems say what holds when they
are, and exactly what is lost when one is not. Two bodies of `jd_spi_xfer` do not interleave with each other, and
neither do two bodies of `devs_led_strip_send`.

RMT sub-encoders. They write as much as fits, answer COMPLETE exactly when nothing remains and MEM_FULL exactly when
no space is left, and resume where they stopped. Symbol durations are truncated from real arithmetic.

PWM. `LEDC_TIMER_MAX` is a parameter of at least 2 and `LEDC_TIMER_BIT_MAX` one of at least 15.

Sockets. Connect and write return whatever they like. The main task may close the socket between any two steps of
the worker, including between the test of `sock_fd` and its use.

HEX. The text has passed `is_hex` (`scripts/uf2conv.py:329`). The meaning of a file is that of the Intel Hexadecimal
Object File Format Specification, Rev. A, sections on the Data, Extended Segment Address and Extended Linear Address
records; before the first address record, addresses are taken to be 16-bit addresses from 0.

## Where the code and its intent differ

- `scripts/uf2conv.py:75` extends the output list with four integers, not four bytes, so `join` raises a TypeError
  whenever there is a gap. `Uf2Reader.Piece` keeps the difference: `Image` is the intended meaning, `Join` the code's.
- `scripts/uf2conv.py:50` and the assertion messages of the reader join a string and a number, so a bad magic
  number raises a TypeError as well instead of skipping the block: `Uf2Theorems.BadMagicRaisesIff` says exactly when.
- The wipe for several families (`scripts/uf2conv.py:104-106`) is skipped when the last block is not for flashing.
- After reading one family of an interleaved file, `appstartaddr` is the start of the family's last run.
- `main/hw-esp32.c:424` stores a 32-bit length in 16 bits: a transmission whose length is a multiple of 65536 never
  ends.
- `main/led.c:56` drops the top byte of the period, so the search works modulo 2^24; below 16 cycles it finds
  nothing and `main/led.c:93` reads through a null pointer.
- `main/utils.c:14` computes a negative length for some bags when the key contains a semicolon.
- The HEX reader adds the 16-bit address of a record to the base without wrapping within the segment
  (`HexFiles.PlacedIff`, `HexFiles.SegmentEndIsMisplaced`), and does not look at checksums or byte counts.
- `main/led.c:115` multiplies in 32 bits, so the duty drops to 0 where the product first reaches 2^32
  (`PwmDivider.DutyWraps`, `PwmDivider.DutyIsMonotoneIff`).

## Model

| member | source | states |
|---|---|---|
| UartDriver.Driver.ReadFifo | main/hw-esp32.c:222-250 | reading moves what fits in order through the shared pointer, into whichever buffer it points, and resets the FIFO when it held more than there was room for |
| UartDriver.Driver.FillFifo | main/hw-esp32.c:195-220 | one refill takes exactly the next chunk of the buffer that fits, and the one that reaches the end asks for the break |
| UartDriver.Driver.Disable | main/hw-esp32.c:471-484 | everything pending is dropped, the FIFO flushed, only the break interrupt left enabled |
| UartDriver.Driver.StartBgRx | main/hw-esp32.c:304-313 | a falling edge flushes the FIFO, opens the reception and schedules cb_fall when no buffer is there |
| UartDriver.Driver.Isr | main/hw-esp32.c:315-359 | the handler's branches, with their priority |
| UartDriver.Driver.StartTx | main/hw-esp32.c:383-433 | the transmit call: panic, refusal, lost race or accepted transmission |
| UartDriver.Driver.StartRx | main/hw-esp32.c:441-469 | the receive call, section by section, including the frame that ended too early |
| UartSections.ReadWaits | main/hw-esp32.c:226-228 | unless forced, fewer than 119 bytes are left in the FIFO while there is no buffer |
| UartSections.ReadIntoRx | main/hw-esp32.c:229-249 | otherwise the FIFO is emptied; its first bytes, as many as rx_len allows, are in the buffer, and the pointer and rx_len have moved by that many |
| UartSections.FrameStartsIff | main/hw-esp32.c:304-335 | on a quiet line exactly a break that is raised and enabled opens a reception, with all four interrupts on that can end or serve it; jd_line_falling is scheduled when no buffer is there |
| UartSections.FrameEndsIff | main/hw-esp32.c:302-358 | without a transmit interrupt, a reception ends if and only if a break, a timeout or a framing error is raised and enabled; data_left is then what remained, cb_rx and the timer are set when there was a buffer and rx_ended when not |
| UartSections.TransmissionEndsIff | main/hw-esp32.c:336-341 | a transmission ends if and only if the end of the break is raised and enabled; in_tx and the break are then off and cb_tx and the timer set |
| UartSections.EmptyFifoRefills | main/hw-esp32.c:342-344 | the FIFO running empty, raised and enabled, writes the next bytes of the buffer to it |
| UartSections.OtherwiseOnlyReads | main/hw-esp32.c:315-331 | with none of these the handler only acknowledges what was enabled and reads the FIFO |
| UartSections.RefillIs | main/hw-esp32.c:195-220 | a refill writes the next bytes up to 128 in the FIFO; with the last one it asks for one break and waits for its end |
| UartSections.DisableIs | main/hw-esp32.c:471-484 | every field and interrupt bit after uart_disable: only what was enabled is acknowledged |
| UartSections.StartTxIs | main/hw-esp32.c:383-433 | when the call panics, refuses, loses the line or is accepted, and with which first bytes, remaining length in 16 bits, break and interrupts |
| UartSections.StartRxIs | main/hw-esp32.c:441-469 | the panic of the receive call, the length in 16 bits, and the frame that ended before |
| UartProtocol.StepKeepsInv | main/hw-esp32.c:222-484 | every section and every hardware event keeps the invariant that a reception and a transmission never share the pointer, no callback flag is stranded, and counts of breaks and callbacks agree |
| UartTheorems.TransmitterIsUndisturbed | main/hw-esp32.c:222-250 | in every run no panic, failed assertion or store outside a buffer; a client that waits for jd_tx_completed finds the driver ready; while transmitting no reception is open and read_fifo leaves the transmit buffer and pointer alone |
| UartTheorems.NoCallbackIsLost | main/hw-esp32.c:91-105 | with the timer off and the task idle no callback flag is set; the client is busy exactly while a transmission runs or its callback is due, and jd_tx_completed has been called once for every other accepted transmission |
| UartTheorems.ReceptionIsPrefix | main/hw-esp32.c:441-469 | the bytes stored are a prefix of those received since the falling edge, stored plus rx_len is the length given, and what is stored plus what is in the FIFO is everything while there is room |
| UartTheorems.ReceptionListens | main/hw-esp32.c:308-308 | in every run an open reception has the four interrupts on that can end or serve it, and neither transmit interrupt |
| UartTheorems.FrameIsDelivered | main/hw-esp32.c:345-357 | when a break, a timeout or a framing error is raised on a lossless reception with a buffer, its interrupt leaves the first bytes of the frame in the buffer, up to the length given, what remains in data_left, and cb_rx and the timer set |
| UartTheorems.TransmissionIsSent | main/hw-esp32.c:336-344 | when a transmission ends, the wire has carried exactly its bytes, with one break after the last, and cb_tx, clear before, is set |
| UartTheorems.RefillProgress | main/hw-esp32.c:195-220 | a refill never overfills the FIFO, and shortens what remains unless the FIFO is full |
| UartTheorems.TransmissionCanComplete | main/hw-esp32.c:336-344 | from any state in mid-transmission the hardware can bring it to its end |
| UartTheorems.MovesAreBounded | main/hw-esp32.c:195-220 | in every run that stays in one transmission, the bytes moved into and out of the FIFO are bounded by what was left at its start, so no schedule keeps moving bytes for ever |
| UartTheorems.NextMove | main/hw-esp32.c:336-344 | until it ends a move is always on offer, or the end of the break, whose interrupt ends it |
| UartTheorems.EmptyTransmissionSticks | main/hw-esp32.c:195-198 | a transmission of length 0 modulo 65536 sends nothing and leaves in_tx set in every run |
| UartTheorems.TransmissionCompletesIff | main/hw-esp32.c:423-428 | an accepted transmission can end if and only if its length is not a multiple of 65536 |
| UartRules.SecondBreakPanics | main/hw-esp32.c:441-444 | without the rule on second breaks a run reaches the panic in uart_start_rx |
| UartRules.LateCallbackAbandonsTransmission | main/hw-esp32.c:471-479 | without the rule on cb_fall a run abandons a transmission halfway with in_tx still set |
| Worker.Worker.Run | main/worker.c:57-62 | accepted exactly when the queue of 20 has room, at its end |
| Worker.Worker.DoWork | main/worker.c:15-25 | the loop calls everything accepted before and during it once, in order, with the idle function between |
| TimWorker.NoLostWakeup | main/hw-esp32.c:107-118 | in every interleaving calls are made in acceptance order, and a non-empty queue means the timer is armed, a drain is running or a producer is about to arm it |
| TimWorker.SettledOnlyWhenStuck | main/hw-esp32.c:107-118 | nothing can move by itself exactly in the settled states |
| TimWorker.EveryScheduleDrains | main/worker.c:15-25 | without new posts every schedule ends, and then the items posted to a queue with room have all been called, in order |
| TimWorker.CalledArePosted | main/worker.c:57-62 | in every run what was called and what waits are exactly the items posted while fewer than 20 waited, in order |
| SpiProtocol.StepKeepsControl | main/spi.c:21-38 | every step keeps exactly one holder of the transaction while spi_in_use is set, and the completion assertions |
| SpiTheorems.CallbacksInOrder | main/spi.c:100-140 | in every run no assertion fails, and callbacks made, followed by those on their way, are the done_fn of the calls accepted on the empty, polled and queued paths, each once, in order |
| SpiTheorems.TransactionIsOwned | main/spi.c:115-135 | spi_in_use is set from before a transaction is queued until its completion clears it, and meanwhile no step writes the shared transaction |
| SpiTheorems.SettledIff | main/spi.c:21-38 | nothing but a new request can happen exactly when no transfer, completion or deferred work is under way |
| SpiTheorems.EveryCallbackOnceIff | main/spi.c:137-139 | every schedule comes to rest, and then the callbacks made are the done_fn of the accepted calls, each once, in order, if and only if no post was rejected |
| SpiTheorems.RejectedCompletionIsFinal | main/spi.c:37-37 | after a rejected completion spi_in_use stays set and no later transfer is accepted |
| SpiTheorems.FullQueueLosesCallback | main/spi.c:137-139 | from any ready state a full queue makes an accepted transfer lose its callback |
| SpiTheorems.DeviceIsSetUp | main/spi.c:40-84 | in every run the device is there exactly when the last set-up that was not refused succeeded, and a transfer under way means it is there |
| Spi.Driver.Xfer | main/spi.c:100-140 | the return codes, and on success the done_fn of this call in trans.user above 4 bytes, or at the end of the queue of 20 when it has room |
| Spi.Driver.DoneCb | main/spi.c:32-38 | the interrupt posts the completion, except after polling |
| Spi.Driver.DoneCbOutsideIsr | main/spi.c:21-30 | the callback is read before the flag is cleared |
| Spi.Driver.Configure | main/spi.c:40-84 | refused while in use; otherwise the device is set up anew or gone |
| UsbProtocol.NothingIsLost | main/usb.c:45-68 | with accepted posts, in every interleaving: bytes are conserved in order, a set flag means fill_queue is on its way, and waiting bytes mean a refill is coming or the CDC buffer is full |
| UsbProtocol.AtRestIff | main/usb.c:45-68 | nothing but new bytes or the host can set things going exactly when nobody is on the way to the bridge |
| UsbProtocol.EveryScheduleDeliversOrStrands | main/usb.c:45-68 | whatever posts are rejected, every schedule comes to rest; the flag is then stranded exactly when a post was rejected as the last hope, and otherwise all bytes are in the CDC buffer or it has under 64 free |
| UsbProtocol.EveryScheduleDelivers | main/usb.c:45-57 | with accepted posts every schedule comes to rest with all bytes in the CDC buffer or under 64 bytes free in it |
| UsbProtocol.StrandedIff | main/usb.c:59-64 | stranded means that the flag stays set in every continuation of the run |
| UsbProtocol.StrandsIff | main/usb.c:59-64 | a run strands the flag if and only if one of its posts is rejected while the flag is set, nothing is queued, fill_queue is not before its first line and no other producer is between its test and its post |
| UsbProtocol.StrandedForEver | main/usb.c:59-64 | stranding is final, and once fill_queue has returned nothing leaves the bridge again |
| UsbProtocol.RejectedPostStrands | main/usb.c:59-64 | a stranding run exists |
| Usb.Port.FillQueue | main/usb.c:45-57 | the call is a run of the protocol, and ends when the bridge is empty or under 64 bytes are free |
| Usb.Port.PullReady | main/usb.c:59-64 | the call is a run of the protocol that asks for at most one call of fill_queue |
| LedEncoder.LedStripEncoder.Encode | main/led_strip_encoder.c:20-54 | one grant of memory writes exactly the next symbols of the one-shot encoding, with the flags and state that go with it |
| LedEncoder.LedStripEncoder.Reset | main/led_strip_encoder.c:65-72 | the next session, for any data, starts at the beginning |
| LedSymbols.PartialSession | main/led_strip_encoder.c:28-50 | until the grants suffice, outputs concatenate to a prefix of the encoding and no call reports COMPLETE |
| LedSymbols.CompleteSession | main/led_strip_encoder.c:38-50 | when they do, the outputs are the whole encoding, exactly the last call reports COMPLETE, and the state is back at 0 |
| LedSymbols.DecodeEncoding | main/led_strip_encoder.c:85-99 | decoding the symbols, most significant bit first, gives back the bytes |
| LedSymbols.DecodableIff | main/led_strip_encoder.c:85-99 | different data have different symbols if and only if the resolution is at least 10^7/9 Hz |
| LedSymbols.SymbolInTicks | main/led_strip_encoder.c:85-99 | symbol 8i+k is high for 0.9 us and low for 0.3 us when bit 7-k of byte i is set, and the other way round when it is clear |
| LedSymbols.ResetInTicks | main/led_strip_encoder.c:104-110 | behind eight symbols a byte stands one that is low for twice 25 us |
| LedStrip.ChannelIsUsedRightly | main/ledstrip.c:68-105 | in every run enable and delete find a disabled channel, transmit and disable an enabled idle one, one transmission at most is outstanding, and at rest the strip is in use exactly when a completion was lost |
| LedStrip.LostForEver | main/ledstrip.c:77-84 | after a lost completion every send is refused |
| LedStrip.ChannelFitsCall | main/ledstrip.c:86-98 | in every run the channel in use was made for the pin and the context of the last call that was not refused |
| LedStrip.Strip.DevsLedStripSend | main/ledstrip.c:81-105 | the send is the corresponding run of the protocol; -100 exactly when in use |
| LedStrip.Strip.LedStripDoneOutsideIsr | main/ledstrip.c:68-72 | the channel is disabled before the flag is cleared |
| PwmDivider.Search | main/led.c:52-62 | the loop finds the finest resolution with a divider of at least 1.0 and within the register, never reports too fast, and fails exactly below 16 cycles modulo 2^24 |
| PwmDivider.DivInRange | main/led.c:55-62 | the divider lies between 256 and 0x3FFFF, and below 512 unless the resolution is the finest |
| PwmDivider.PeriodIsAccurateIff | main/led.c:52-62 | the programmed period is at most the request and short of it by less than 1/256 if and only if the request is between 16 and 2^24 cycles |
| PwmDivider.DutyIs | main/led.c:114-117 | the duty is the quotient of the product modulo 2^32 by the period, rounded down, or the maximum when that is less |
| PwmDivider.DutyIsMonotone | main/led.c:114-117 | without 32-bit overflow a larger request programs no smaller duty |
| PwmDivider.DutyIsMonotoneIff | main/led.c:114-117 | the duty grows with the request up to b if and only if the product for b fits 32 bits or the period is so long that the duty is always 0 |
| PwmDivider.DutySaturatesIff | main/led.c:114-117 | for every request the duty is the maximum exactly when the 32-bit product reaches one step below the whole period |
| PwmDivider.DutySaturatesUpToIff | main/led.c:114-117 | all requests from the whole period up to b program the maximum if and only if the product for b fits 32 bits |
| PwmDivider.DutyWraps | main/led.c:114-115 | at the first request whose product does not fit, 2^(32-bits), the duty is 0 whatever the period |
| PwmTimers.Pwm.Init | main/led.c:38-47 | the table is numbered once and left alone afterwards |
| PwmTimers.Pwm.SetDuty | main/led.c:107-119 | only the duty register of the timer's channel changes |
| PwmTimers.Pwm.PwmInit | main/led.c:49-105 | the pin's own timer, else the first free one, is configured, every other entry is untouched, and the two ways of not returning are told apart |
| PwmTimers.RunServes | main/led.c:64-87 | a run of requests returns exactly when each has a divider and there are no more pins than timers; timer i then serves the i-th pin asked for, as last requested, and the rest are free |
| PwmTimers.AnswerIs | main/led.c:93-104 | the id answered is the position of the pin in the order of first requests |
| PwmTimers.SameIdIffSamePin | main/led.c:64-95 | two requests of a run get the same id if and only if they name the same pin |
| PropertyBag.Extract | main/utils.c:6-25 | the nested loops compute the search, and return a fresh zero-terminated copy |
| PropertyBag.SearchIsLookup | main/utils.c:8-23 | for keys without a semicolon the search is: split at semicolons, take the first segment starting with key=, return its rest |
| PropertyBag.SafeIff | main/utils.c:13-16 | the copied length is non-negative for every bag if and only if the key has no semicolon |
| PropertyBag.ExtractInvertsJoin | main/utils.c:6-25 | looking up a key in joined k=v pairs gives the value of the first pair with that key |
| SockProtocol.StepKeepsInv | main/sock.c:220-342 | every step of the client and of the worker keeps the ownership of blocks and the bookkeeping of bytes |
| SockProtocol.EveryBlockIsFreedOnce | main/sock.c:298-324 | every host name and payload is freed at most once, and exactly once when nobody holds any |
| SockProtocol.NeverPanics | main/sock.c:331-340 | the panic for an unknown command is unreachable |
| SockProtocol.ServedInOrder | main/sock.c:326-342 | commands are served in the order in which they were accepted |
| SockProtocol.AcceptedAreRequests | main/sock.c:298-324 | the commands accepted in a run are the calls of the client that found room, with the host name or the bytes it gave |
| SockProtocol.HandedIsPrefix | main/sock.c:230-324 | for every pattern of short writes, errors and closes, the bytes handed to a connection are a prefix of the bytes the client gave to the accepted writes taken from the queue since the connection was opened, and all of them while it is open and the worker waits |
| Sock.TcpSock.New | main/sock.c:298-309 | 0 when queued, with a copy of the host name, else -1 and the copy is freed |
| Sock.TcpSock.Write | main/sock.c:311-324 | -10 without a socket, 0 when queued, with a copy of the bytes given, else -1 and the copy is freed |
| Sock.TcpSock.ForcedWrite | main/sock.c:230-241 | the loop over short writes is a run of write calls that hands over the whole buffer or ends with the first failure |
| Sock.TcpSock.ProcessWrite | main/sock.c:263-278 | serving a payload is a run of the protocol that ends idle with the payload freed |
| Sock.TcpSock.ProcessOpen | main/sock.c:220-228 | serving an OPEN is a run of the protocol that ends idle with the host name freed |
| Sock.TcpSock.ServeOne | main/sock.c:326-342 | one command is served from the head of the queue; panic exactly for an unknown code |
| Uf2Format.ParseBlock | scripts/uf2conv.py:48-62 | reading back a written block gives its address, family and payload |
| Uf2Layout.ParseIs | scripts/uf2conv.py:48-59 | on the bytes of a block: bad exactly without the magic numbers, else skipped exactly with bit 0 of the flags, else refused exactly above 476 bytes, else that many bytes from offset 32 on for the address at 12, of the family at 28 when bit 13 is set |
| Uf2Converter.Converter.ToUf2 | scripts/uf2conv.py:119-140 | the loop produces the blocks of the content in order, or fails when a header word does not fit |
| Uf2Writer.EncodedIff | scripts/uf2conv.py:130-134 | writing succeeds if and only if all addresses and the family id fit 32 bits |
| Uf2Writer.WrittenFileReadsBack | scripts/uf2conv.py:119-140 | the file has 512 bytes a block, and its blocks read back as they were written |
| Uf2Layout.WrittenBlock | scripts/uf2conv.py:119-138 | every block of a written file by the offsets of its bytes: magic numbers, flags, address, length 256, its number, the count of blocks, family, its bytes of the content or zeros, 220 zeros, final magic number |
| Uf2Converter.Converter.ReadBlock | scripts/uf2conv.py:47-84 | one block's effect on the addresses, the family and the output, or the exception |
| Uf2Converter.Converter.FromUf2 | scripts/uf2conv.py:35-107 | the loop over the blocks computes the scan, with the wipe at the last block and the final join |
| Uf2Theorems.ScanSkips | scripts/uf2conv.py:49-57 | the scan goes through exactly when no block is bad and the blocks to flash can be placed, and blocks not for flashing leave no trace in it |
| Uf2Theorems.BadMagicRaisesIff | scripts/uf2conv.py:49-51 | reading raises for a bad magic number if and only if the scan of the records before one goes through |
| Uf2Theorems.BadBlocksSkippedIff | scripts/uf2conv.py:49-57 | the scan is the one that skips bad blocks if and only if it meets none |
| Uf2Theorems.PayloadAtItsAddress | scripts/uf2conv.py:66-78 | every payload lies at its address minus the start address |
| Uf2Theorems.GapIsZero | scripts/uf2conv.py:73-75 | every byte between two payloads is zero |
| Uf2Theorems.AddressFaithful | scripts/uf2conv.py:52-78 | a selected single-family file is accepted if and only if no block is bad and its blocks are in order with word-sized gaps of at most 10M; the image is then its addressed memory, and it is returned if and only if there are no gaps |
| Uf2Theorems.RoundTrip | scripts/uf2conv.py:119-140 | decoding an encoding for the same or any family gives the content filled up to 256 bytes, and for a non-empty content its address |
| Uf2Families.FamilyImage | scripts/uf2conv.py:55-84 | reading any order-preserving interleaving of contiguous images for family f raises exactly when a block is bad, and otherwise gives exactly the image of f, each payload at its address |
| Uf2Families.StartRestoredIff | scripts/uf2conv.py:61-65 | the start address of f is restored if and only if its blocks stand in one run |
| Uf2Families.MixedFamilies | scripts/uf2conv.py:89-107 | with family 0 and two families reading raises exactly when a block is bad; otherwise the result is empty at address 0, unless the last block is skipped, when it is all images mixed |
| Uf2Selection.DecodeIs | scripts/uf2conv.py:35-107 | for every file, whatever its families and flags: reading returns if and only if no block is bad, the gaps within runs are words of at most 10M, and there are none unless the output is thrown away; it then gives the payloads of the wanted blocks in order and the start of the last wanted run |
| HexConverter.HexConverter.FromHex | scripts/uf2conv.py:161-198 | the nested loops over pages filled in place compute the conversion, or the exception, and the start address |
| HexConverter.HexConverter.PutByte | scripts/uf2conv.py:188-191 | a byte goes to the current page or to a new one, and nothing else changes |
| HexConverter.PageBuffer.Encode | scripts/uf2conv.py:147-159 | a page becomes a block of the format, or fails when a header word does not fit |
| Uf2Layout.ConvertedBlock | scripts/uf2conv.py:147-159 | the same of every block of a converted HEX file, which holds one page |
| HexFiles.RecordReadsBack | scripts/uf2conv.py:170-174 | every record shown as hexadecimal digits, in either case and with or without a carriage return, is read back |
| HexErrors.DigitIff | scripts/uf2conv.py:173-173 | a character has value d exactly when it is digit d in lower or upper case |
| HexFiles.FileReads | scripts/uf2conv.py:167-193 | reading any file of data, segment address, linear address and other records, in any order, carries each base to the data records behind it and gives their data at base plus offset, whatever follows the end record |
| HexFiles.EveryContentHasFile | scripts/uf2conv.py:167-174 | every list of such records has a file |
| HexFiles.PlacedIff | scripts/uf2conv.py:177-193 | a data record is placed as the specification says if and only if its data ends before the addresses wrap: within a segment, offset and length add up to at most 65536 |
| HexFiles.FilePlacedIff | scripts/uf2conv.py:177-193 | a file is placed as the specification says if and only if every one of its data records is |
| HexFiles.SegmentEndIsMisplaced | scripts/uf2conv.py:179-183 | two bytes at the end of a segment are not |
| HexFiles.HexFileConverts | scripts/uf2conv.py:161-198 | converting such a file gives the pages of its data and leaves its first address in appstartaddr, and fails if and only if a header word does not fit |
| HexFiles.FirstAddressIs | scripts/uf2conv.py:183-185 | the start address it leaves is that of the first data record, from the base in force |
| HexText.ConvertedFile | scripts/uf2conv.py:194-198 | the blocks of a converted file are the pages in order, at 256-aligned addresses |
| HexText.ConvertedIff | scripts/uf2conv.py:147-159 | the conversion of a readable file fails if and only if a header word does not fit |
| HexErrors.LineIs | scripts/uf2conv.py:167-182 | what a line does: ValueError for a pair that is no number, IndexError for an empty line or a record too short for its type or base, the end for an end record, and otherwise it is read |
| HexErrors.ConversionRaisesIff | scripts/uf2conv.py:167-182 | a text makes the conversion raise one of the two if and only if the reading comes to such a line, and then with that line's exception |
| HexText.ConvertedFlashes | scripts/uf2conv.py:161-198 | for every text that converts, flashing the blocks leaves at each address of a touched page the byte last written during the last visit to that page, or zero |
| HexText.HexFileFlashes | scripts/uf2conv.py:161-198 | when the text never returns to a page, that is the last byte written |
| HexFiles.FlashesAsSpecified | scripts/uf2conv.py:161-198 | when it also fits its segments, that is the memory the specification describes |
| HexPages.FlashedIs | scripts/uf2conv.py:186-193 | for any file, flashing leaves at each address the byte last written during the last visit to its page |
| HexPages.FlashedFaithfully | scripts/uf2conv.py:186-193 | without returning to a page, that is the byte last written |
| HexPages.DistinctIff | scripts/uf2conv.py:188-190 | the emitted pages are pairwise different if and only if the file never returns to a page it left |
| HexPages.ReturningLosesBytes | scripts/uf2conv.py:188-190 | a file that returns to a page can lose a byte |

## Left out

- Pin and register plumbing, log pulses, microsecond waits, and the insides of FreeRTOS, esp_timer, RMT, LEDC and mbedTLS: foreign calls with short contracts.
- The TLS path of `main/sock.c`: it rests on mbedTLS, and `main/sock.c:257` adds a negative result to the count written.
- The events `main/sock.c` queues for the client, and the receive side in `jd_tcpsock_process`: the event queue may drop them and no order is promised. Closing from that side is the event Close of the protocol.
- UartTheorems.TransmissionCanComplete: says that the hardware can finish; that it must, given that it keeps serving the FIFO, is MovesAreBounded with NextMove. The interrupt controller's fairness is not modelled.
- UartDriver.Driver.StartRx: the method runs its sections without an interrupt between them; the interleavings are in UartProtocol.
- LedStrip.ChannelIsUsedRightly: does not follow the user callback pointer, which `main/ledstrip.c:70-71` reads after clearing the flag.
- The second status light in `main/ledstrip.c:39-60`: it has no state machine.
- PwmTimers.Pwm.PwmInit: the search is run before the slots are looked up instead of around them, which is the order in which the loop body acts; enabling the output (`main/led.c:131` on) is register plumbing.
- Printing of the UF2 summary, family files, drive discovery, C arrays and the command line in `scripts/uf2conv.py`: input and output.
- HexConverter.HexConverter.FromHex: `appstartaddr` may be None there, so the class has its own copy of the two globals.
- `main/adc.c`, `main/i2c.c`, `main/flash.c`, `main/wifi_impl.c`, `main/platform.c`, `main/dmesg.c`, `main/sdcard.c`: thin wrappers.
- `main/main.c`: its loop flag repeats the argument of the USB path.
- `worker_main` in `main/worker.c:27-36` and `jd_hmac_b64` in `main/utils.c`: the first repeats the drain loop on a task of its own, the second is library cryptography.
