# MAX3140 half-duplex UART driver, modelled in Dafny

This project models the core of the Linux driver for the MAX3140, an SPI
UART with a built-in RS-485 transceiver (`drivers/tty/serial/max3140hd.c`).
Every exchange with the chip is one 16-bit SPI word. The word sent is a
command: write configuration, write data, or read data. The word received is
a status: R (a received character is waiting), T (the transmit buffer is
empty) and the received character. On a half-duplex RS-485 line the driver
must keep the transmitter enabled (RTS) while a character is on the wire,
and must drop it as soon as the last character has left.

The model covers:

- **Parity and framing** (`Parity`): the software parity bit in bit 8, over
  seven or eight data bits, odd or even.
- **Format mapping** (`Baud`, `Termios`):
  - the baud-rate table with its two crystal families and the fallback for
    rates the chip cannot produce;
  - the L/ST/PE configuration bits, merged under a mask;
  - the bits-per-character count;
  - the driver-enable hold time.
- **SPI transport** (`Transport`): an oracle bus gives each exchange a status
  word or an error. On top of it are modelled the status decode, the single
  command, and the bounded drain of the 8-deep receive FIFO.
- **The service loop** (`Service`):
  - drain, then pick the next character (x_char first, then the circular
    transmit buffer);
  - write it with RTS forced on, and push the driver-enable deadline forward;
  - when nothing more may be sent, wait for the deadline and switch the
    driver off;
  - the loop condition.
- **The worker's dispatch** (`Worker`): the fixed-order test-and-clear of the
  request flags, and the re-arming of the interrupt request.
- **The hooks around the worker** (`Lifecycle`):
  - interrupt, start_tx and stop_rx, which only set flags;
  - startup, shutdown, suspend and resume, with the configuration words they
    send;
  - the probe's power-down word;
  - get_mctrl, config_port and verify_port.

Time is integer nanoseconds from an oracle clock (`Env.clock`). A `Trace`
records the words sent and the characters handed to the tty layer. The
service loop runs at most `fuel + 1` rounds.

The model follows the code as written, with one exception. The transmit step
delivers the characters the chip returns in the corrected order described
under "Findings": the data exchange's character, then the switch-off
command's. Lines 578-579 deliver them differently. Every member built on
`Service.Transmit` inherits this order.

Behaviour of the code as written that the model keeps:

- **Hold time.** The comments at lines 547 and 552 describe holding the
  driver for a whole character. The hold time is computed at line 854 as
  `1000000 * bits / baud` microseconds, truncated, times 1000. It is
  therefore up to 1 µs SHORTER than a full character time. At 9600 baud 8N1
  it is 1041000 ns instead of 1041666 ns (`Timing.HoldTimeBounds`,
  `Timing.HoldTime9600Example`).
- **Switch-off request.** The compiled-out timer handler raised the driver
  switch-off request only once the hold time had expired (line 387).
  set_termios raises it directly (line 881), and the worker acts on it at
  once (lines 634-637). It does not consult the transmit buffer or the
  deadline; only the switch-off inside the service loop waits.
- **Suspend twice.** Startup and shutdown test the `suspending` mark (lines
  897 and 931); suspend does not. A second suspend sends the power-down word
  again (`Lifecycle.SuspendIsStable`, `Lifecycle.SuspendOpenIsStable`).
- **Suspend of an open port.** The serial core's stop_rx runs before the
  power-down word (lines 709-712, then 1219-1223), so the word goes out with
  RM cleared (`Lifecycle.SuspendResumeOpenPort`).
- **Resume of a closed port.** Probe puts the chip into shutdown until the
  port is opened (lines 1169-1171). Resume requests a configuration load
  whether or not the port is open (line 1239). On a port that was never
  opened, the worker then loads the zeroed configuration image (line 640),
  whose word has the shutdown bit clear, so the chip wakes while the port
  stays closed (`Lifecycle.ResumeWakesClosedPort`).
- **CTS.** `cts` is declared as the last CTS received (line 131) but is never
  assigned anywhere in the driver. get_mctrl therefore reports CTS only if
  the field was set elsewhere; the model keeps it as a port field.

## Model

| member | source | states |
|---|---|---|
| Words.SetRts | drivers/tty/serial/max3140hd.c:380-381 | The RTS field is the RTS bit alone, and it is set exactly when the requested level differs from the board's inversion. |
| Words.DisableWord | drivers/tty/serial/max3140hd.c:571-572 | The switch-off command is a write-data word with TE set. It drives RTS to the level that turns the RS-485 driver off, and carries no character and no parity bit. |
| Words.ConfWord | drivers/tty/serial/max3140hd.c:640 | The configuration command carries the write-configuration operation, and below it exactly the configuration image. |
| Words.ShutdownWord | drivers/tty/serial/max3140hd.c:913 | The power-down command is a write-configuration word with SHDN set. Every other configuration bit is as in the image. |
| Baud.ChipBaud | drivers/tty/serial/max3140hd.c:1155 | Every BAUD code gives a line rate between 300 and 230400 with either crystal. |
| Baud.SelectBaud | drivers/tty/serial/max3140hd.c:770-816 | A rate the crystal supports is kept, and the code chosen makes the chip produce exactly that rate. Any other rate keeps the previous rate and the previous BAUD code. |
| Baud.CrystalShiftsCode | drivers/tty/serial/max3140hd.c:779-805 | For the rates both crystals support, the fast crystal's code is the slow crystal's code plus one. |
| Baud.FallbackIsStable | drivers/tty/serial/max3140hd.c:812-814 | Requesting an unsupported rate again, from the state the first request left, gives the same rate and code. |
| Xmit.Pending | drivers/tty/serial/max3140hd.c:588 | The count of waiting bytes is below the buffer size, and zero exactly when the buffer is empty. |
| Xmit.NextTail | drivers/tty/serial/max3140hd.c:515-516 | The masked increment of the read index wraps from the last slot to slot 0 and otherwise adds one. |
| Xmit.Pop | drivers/tty/serial/max3140hd.c:514-516 | Taking the byte at the read index yields the oldest waiting byte. The rest of the buffer is the remaining contents in order, and the write side is untouched. |
| Xmit.PopContents | drivers/tty/serial/max3140hd.c:514-516 | Advancing the read index removes exactly the first byte of the buffer's contents and lowers the count by one. |
| Transport.RxData | drivers/tty/serial/max3140hd.c:343-346 | A reply yields a character exactly when the exchange succeeded and R was set. |
| Transport.Sr1Decodes | drivers/tty/serial/max3140hd.c:279-288 | After a successful exchange both cached flags equal the chip's R and T bits. After a failed one they are unchanged. |
| Transport.StatusIsLastSuccess | drivers/tty/serial/max3140hd.c:279-290 | After a stretch of exchanges, each decoded in turn, the cached flags are the R and T bits of the last one that succeeded. If none succeeded they are the flags from before. |
| Transport.StatusSplit | drivers/tty/serial/max3140hd.c:279-290 | Decoding a stretch of exchanges is decoding its first part, then the rest. |
| Transport.Cmd | drivers/tty/serial/max3140hd.c:323-352 | A command sends its word in one exchange, refreshes the flags from the reply, and delivers exactly the character that exchange reported. |
| Transport.ReadFifo | drivers/tty/serial/max3140hd.c:425-479 | The drain matches the closed-form outcome. It reads while the chip reports data, at most 8 times, and uses 1 to 8 exchanges. It returns the count read, leaving the received-data flag set only after 8 reads. After a failed exchange it delivers nothing and returns 0. |
| Transport.DrainFromOutcome | drivers/tty/serial/max3140hd.c:441-473 | The recursive drain, started with characters already read, produces exactly the closed-form outcome (count, flags, words sent, characters delivered). |
| Transport.DrainFromStatus | drivers/tty/serial/max3140hd.c:441-455 | The drain leaves the cached flags that its read commands' replies decode to, an abandoned drain included. |
| Transport.DrainStops | drivers/tty/serial/max3140hd.c:442-450 | A failed reply, or one without data, ends the drain at once. |
| Transport.DrainContinues | drivers/tty/serial/max3140hd.c:446-453 | A ready reply adds its character, and the rest of the drain determines the whole one. |
| Transport.RxJoin | drivers/tty/serial/max3140hd.c:643-652 | Characters delivered over two consecutive stretches of exchanges are those of the whole stretch. The worker's two service runs are joined this way. |
| Parity.DoParity | drivers/tty/serial/max3140hd.c:177-193 | The bit is 0 or 1. It makes the count of one bits among the masked data bits plus itself even, or odd for odd parity. |
| Parity.CheckParity | drivers/tty/serial/max3140hd.c:195-198 | A word passes exactly when its bit 8 completes the data bits' weight to the required parity. |
| Parity.CalcParity | drivers/tty/serial/max3140hd.c:200-209 | The framed character keeps the data bits, has nothing outside the data bits and bit 8, and has bit 8 clear when parity is off. |
| Parity.ParityIgnoresUpperBits | drivers/tty/serial/max3140hd.c:186-191 | The parity computed depends only on the data bits, so bit 8 and above never influence it. |
| Parity.ParityRoundTrip | drivers/tty/serial/max3140hd.c:177-209 | With parity on, every character framed by calc_parity passes check_parity, for 7 or 8 bits and odd or even parity. |
| Parity.FramedCharacter | drivers/tty/serial/max3140hd.c:207-208 | With parity on, bit 8 of the framed character is the parity of its data bits. |
| Parity.ParityDetectsSingleBitError | drivers/tty/serial/max3140hd.c:195-198 | Flipping any one data bit of a framed character makes the parity check fail. |
| Parity.FlipBreaksCheck | drivers/tty/serial/max3140hd.c:195-198 | A word that passes the check fails it after any one of its data bits is flipped. |
| Parity.FlipChangesWeight | drivers/tty/serial/max3140hd.c:191 | Flipping one of the low eight bits changes the parity of the hweight8 count. |
| Timing.HoldTime | drivers/tty/serial/max3140hd.c:854 | The hold time is a non-negative whole number of microseconds, in nanoseconds. |
| Timing.HoldTimeBounds | drivers/tty/serial/max3140hd.c:854 | The hold time is at most the exact character time `bits * 10^9 / baud`, and less than 1000 ns below it. |
| Timing.HoldTimePositive | drivers/tty/serial/max3140hd.c:854 | For 9 to 12 bits at any rate up to 230400 the hold time is strictly positive. |
| Timing.HoldTime9600Example | drivers/tty/serial/max3140hd.c:854 | 8N1 at 9600 baud holds 1041000 ns, short of the exact 1041666.6 ns. |
| Timing.NextDeadline | drivers/tty/serial/max3140hd.c:532-549 | The new deadline is one hold time after the later of the old deadline and the completion time, so it never falls behind either. |
| Timing.Burst | drivers/tty/serial/max3140hd.c:532-549 | A burst of characters never moves the deadline backwards. |
| Timing.BurstCoversEveryCharacter | drivers/tty/serial/max3140hd.c:532-549 | After a burst, the deadline lies at least one hold time per remaining character after each character's completion, and one per character after the starting deadline. |
| Termios.BitsPerByte | drivers/tty/serial/max3140hd.c:761-846 | The driver's count of bits per character is between 9 and 12. |
| Termios.MergeConf | drivers/tty/serial/max3140hd.c:817-876 | The merged configuration changes only the BAUD, L, ST and PE fields. Those follow the code and the requested format, and every other bit (RM, TM, SHDN, IR, ...) is kept. |
| Termios.SetTermios | drivers/tty/serial/max3140hd.c:752-886 | The returned c_cflag keeps CS8, turns every other size into CS7, clears CMSPAR and keeps every other field. The software parity follows PARENB, PARODD and the size. Both the configuration-load and the switch-off requests are raised. Only the format fields change. |
| Termios.SetTermiosFormat | drivers/tty/serial/max3140hd.c:819-876 | The chip's PE, L and ST bits and the software parity agree with each other and with the request, and no configuration bit outside the format field changes. |
| Termios.SetTermiosRate | drivers/tty/serial/max3140hd.c:770-817 | A supported rate is taken and the chip is set to produce it; an unsupported rate leaves the rate and the BAUD code as they were. |
| Termios.SetTermiosHoldsOneFrame | drivers/tty/serial/max3140hd.c:761-854 | The hold time is the hold time of one frame as the chip frames it under the new configuration: start bit, data bits, parity bit, stop bits. |
| Termios.SetTermiosKeepsValid | drivers/tty/serial/max3140hd.c:816-876 | A format change keeps the chip's rate equal to the port's rate and the operation bits clear. |
| Termios.SetTermiosIdempotent | drivers/tty/serial/max3140hd.c:752-886 | Applying the same request twice gives the port the first application gave. |
| Termios.ReselectSame | drivers/tty/serial/max3140hd.c:770-816 | Selecting the rate again from the configuration a selection produced returns that selection. |
| Termios.MergeConfIdempotent | drivers/tty/serial/max3140hd.c:876 | Merging the same format twice is merging it once. |
| Service.TxWord | drivers/tty/serial/max3140hd.c:520-524 | A data word is a write-data operation without TE. It drives RTS to keep the RS-485 driver on and carries the character's data bits. |
| Service.TxWordCarriesParity | drivers/tty/serial/max3140hd.c:520-525 | With parity on, the word sent passes a receiver's parity check. |
| Service.TxWordFramed | drivers/tty/serial/max3140hd.c:522-524 | The word sent carries the framed character's data bits and parity bit unchanged. |
| Service.PickTx | drivers/tty/serial/max3140hd.c:508-518 | A pending x_char goes first and is cleared. Otherwise the oldest byte of the buffer is removed, unless the buffer is empty or output is stopped. The transmit count goes up with every character picked. |
| Service.Delivered | drivers/tty/serial/max3140hd.c:576-582 | The transmit step delivers at most one character per exchange it made. |
| Service.DeliveredFollowsChip | drivers/tty/serial/max3140hd.c:571-582 | Corrected delivery hands over exactly the characters the chip reported in the data exchange and the switch-off exchange, in that order. |
| Service.DeliveredAsWritten | drivers/tty/serial/max3140hd.c:571-582 | Without a switch-off, after a successful exchange, the code as written delivers what the chip reported. |
| Service.AsWrittenLosesCharacter | drivers/tty/serial/max3140hd.c:571-582 | As written, a character returned with the data word is lost when the switch-off reply carries none. |
| Service.AsWrittenReordersCharacters | drivers/tty/serial/max3140hd.c:571-582 | As written, characters returned with the data word and the switch-off command are delivered in reverse order. |
| Service.AsWrittenInventsCharacter | drivers/tty/serial/max3140hd.c:571-582 | As written, when only the switch-off reply has data, the data word's empty receive field is delivered as an extra NUL. |
| Service.AsWrittenDeliversAfterFailure | drivers/tty/serial/max3140hd.c:576-582 | As written, a failed data exchange after a full drain delivers the stale receive buffer. |
| Service.Transmit | drivers/tty/serial/max3140hd.c:520-575 | The data word is the given one. The deadline is pushed from the clock reading after the exchange. The driver is switched off exactly when the buffer is empty or stopped, and then no earlier than the deadline and the fresh clock reading. The words sent are the data word and then the switch-off word. |
| Service.TransmitDelivers | drivers/tty/serial/max3140hd.c:525-582 | Every character the chip returns during the write and the switch-off goes to the tty layer in order. |
| Service.TransmitStatus | drivers/tty/serial/max3140hd.c:525-582 | The write and any switch-off after it leave the cached flags that their replies decode to. |
| Service.SwitchOff | drivers/tty/serial/max3140hd.c:552-573 | The switch-off happens at the later of the deadline and a fresh clock reading. It sends the switch-off word in one exchange and delivers what that exchange reported. |
| Service.Round | drivers/tty/serial/max3140hd.c:495-594 | A round keeps the buffer well formed and uses at least one exchange. It sends 1 to 8 read commands, then the written character's word and, if the driver was switched off, the switch-off word. On a bus without failures it delivers every character the chip reported. |
| Service.RoundEffectHolds | drivers/tty/serial/max3140hd.c:497-583 | A round writes at most one character, which is x_char or the oldest buffer byte, with the word and deadline of Transmit. If nothing is written the transmit side is unchanged, and T was clear or there was nothing to send. |
| Service.Drain | drivers/tty/serial/max3140hd.c:497 | The drain at the top of a round sends between 1 and 8 read commands and nothing else. On a bus without failures it delivers every character reported. |
| Service.DrainStatus | drivers/tty/serial/max3140hd.c:497 | The drain leaves the cached flags that its replies decode to. |
| Service.RoundStatus | drivers/tty/serial/max3140hd.c:495-594 | A round leaves the cached flags that its exchanges decode to: those of its last successful exchange. |
| Service.SendOne | drivers/tty/serial/max3140hd.c:507-584 | The transmit half of a round has a round's effect, sends the written character's word and any switch-off word, and delivers every character its exchanges reported. |
| Service.SendOneStatus | drivers/tty/serial/max3140hd.c:507-584 | The transmit half of a round leaves the cached flags that its exchanges decode to. With nothing written they are unchanged. |
| Service.SendPicked | drivers/tty/serial/max3140hd.c:520-583 | Writing the picked character has a round's effect, sends its word and any switch-off word, and delivers every character its exchanges reported. |
| Service.ReadFifoReliable | drivers/tty/serial/max3140hd.c:441-473 | On a bus where no exchange fails, a drain delivers every character the chip reported during it. |
| Service.Rounds | drivers/tty/serial/max3140hd.c:495-601 | The loop runs at least one round, and each round has a round's effect on the state the previous one left. When the loop condition ends it, that condition is false of the final state. The words sent are, round by round, the drain's read commands and the transmit step's words. On a bus without failures it delivers every character reported. The final cached flags are those the loop's exchanges decode to. |
| Service.ChainDrainsQueue | drivers/tty/serial/max3140hd.c:513-517 | Over the rounds, the buffer loses exactly the bytes written from it, oldest first, and the transmit count grows by the number of characters written. |
| Service.ChainXCharFirst | drivers/tty/serial/max3140hd.c:509-524 | Over the rounds every word is the character's framed word. Only the first character may come from outside the buffer, and then it is the pending x_char. |
| Service.ChainNothingToSend | drivers/tty/serial/max3140hd.c:507-520 | With no x_char and nothing sendable, the rounds write nothing and leave the transmit side and the deadline alone. |
| Service.ChainSwitchOff | drivers/tty/serial/max3140hd.c:552-575 | The driver is switched off at most once, after the last character, exactly when that character left nothing more to send, and not before the final deadline. |
| Service.ChainDeadline | drivers/tty/serial/max3140hd.c:532-549 | The final deadline is the starting one pushed forward once per character, at each character's completion time. |
| Service.ServiceStatus | drivers/tty/serial/max3140hd.c:480-612 | After the service routine the cached flags are those its exchanges decode to, so the received-data flag it leaves is what its last successful exchange reported. |
| Service.SendAndReceive | drivers/tty/serial/max3140hd.c:480-612 | Only the loop's own state changes, and the port stays valid. When the loop ends by its condition, a switch-off or stop was requested, or the system is freezing, or nothing is left to receive or send. On a bus without failures every reported character is delivered. |
| Service.ServiceChain | drivers/tty/serial/max3140hd.c:495-601 | The service loop's records, final state and words sent are those of a chain of rounds. |
| Service.ServiceBusWords | drivers/tty/serial/max3140hd.c:441-575 | Besides read commands, the loop sends exactly each written character's word, in order, and the switch-off word once, after the last character, exactly when it switched the driver off. |
| Service.ChainBusWords | drivers/tty/serial/max3140hd.c:441-575 | Over a chain of rounds, the words sent with the read commands removed are the characters' words and a final switch-off word when the last character switched the driver off. |
| Service.ServiceDrainsQueue | drivers/tty/serial/max3140hd.c:508-518 | The loop takes the bytes it writes from the front of the buffer, leaves the rest in order, and counts every character, x_char included. |
| Service.ServiceWritesXCharFirst | drivers/tty/serial/max3140hd.c:508-524 | Every word carries its character framed with the port's parity, with the driver on. A pending x_char is written first and is the only character not from the buffer. |
| Service.ServiceSwitchesOffOnce | drivers/tty/serial/max3140hd.c:552-575 | The loop switches the driver off at most once, right after the last character it writes, exactly when nothing more may be sent, and not before the final deadline. |
| Service.ServiceHoldsDriver | drivers/tty/serial/max3140hd.c:532-575 | The final deadline, and any switch-off, lie at least one hold time per remaining character after every character's completion. So back-to-back characters keep the driver on. |
| Service.ServiceIdleWhenNothingToSend | drivers/tty/serial/max3140hd.c:507-520 | With no x_char and an empty or stopped buffer, the loop writes nothing and keeps the buffer, x_char and deadline. |
| Worker.Clear | drivers/tty/serial/max3140hd.c:634-653 | Clearing the flag of an action leaves it unset and every other request flag as it was. |
| Worker.PlanFollowsFlags | drivers/tty/serial/max3140hd.c:634-652 | An activation takes each requested action exactly once, nothing else, in the fixed order: switch-off, configuration load, interrupt service, transmit service. |
| Worker.NoRequestIgnored | drivers/tty/serial/max3140hd.c:634-652 | A switch-off and a configuration load requested together run first and second, and a transmit request is served last. |
| Worker.Command | drivers/tty/serial/max3140hd.c:636-640 | A command step sends its word in one exchange, changes only the cached status, and delivers what that exchange reported. |
| Worker.Serve | drivers/tty/serial/max3140hd.c:643-652 | A service run keeps the buffer well formed and uses at least one exchange. On a bus without failures it delivers every reported character. It leaves the cached flags that its exchanges decode to. |
| Worker.Commands | drivers/tty/serial/max3140hd.c:634-642 | An activation sends at most two command words before servicing. |
| Worker.Activate | drivers/tty/serial/max3140hd.c:629-656 | The actions taken are the plan of the flags set on waking. Afterwards no request stands but a re-armed interrupt request. That request is set exactly when the activation's exchanges decode to a set received-data flag (`Transport.Status`): when the last successful exchange reported R, or, if none succeeded, when the flag was set before. The received-data flag is then cleared. The configuration is unchanged, and the port is valid after exactly when it was before. Only a service request needs a port set up by startup. The switch-off and configuration words go first, one exchange each; without a service request they are the only exchanges, and with one at least one more follows. With no request nothing is sent. On a bus without failures every reported character is delivered. |
| Worker.QuietActivation | drivers/tty/serial/max3140hd.c:629-656 | On a chip that answers every exchange with T set and R clear, an activation that acts on any request leaves no request standing: the interrupt is not re-armed. |
| Worker.Dispatch | drivers/tty/serial/max3140hd.c:634-652 | The requests are acted on in plan order: command words first, then service runs. Without a service request the transmit side is untouched and the command words are the only exchanges, and with no request nothing happens. The cached flags are those the exchanges decode to. |
| Worker.Rearm | drivers/tty/serial/max3140hd.c:653-654 | A received-data flag still standing becomes the only request left, and is cleared. Nothing else changes, so the port is valid exactly when it was with the loop's buffer. |
| Worker.SendCommands | drivers/tty/serial/max3140hd.c:634-642 | The switch-off word and then the configuration word are sent, one exchange each, exactly as requested, and only the cached status changes, to what the replies decode to. |
| Worker.RunServices | drivers/tty/serial/max3140hd.c:643-652 | The interrupt service and then the transmit service run exactly as requested, using at least one exchange if either runs; with neither requested nothing happens. On a bus without failures the characters delivered continue the activation's stream. The cached flags are those the exchanges decode to. |
| Lifecycle.Irq | drivers/tty/serial/max3140hd.c:664-676 | The interrupt sets the interrupt request, always wakes the worker, and changes nothing else. |
| Lifecycle.StartTx | drivers/tty/serial/max3140hd.c:689-699 | start_tx sets the transmit request and wakes the worker exactly when that request was not already standing. |
| Lifecycle.StopRx | drivers/tty/serial/max3140hd.c:701-713 | stop_rx clears RM and receive enable, keeps every other configuration bit, and requests a configuration load. It wakes the worker exactly when that request was new. |
| Lifecycle.RequestsReachWorker | drivers/tty/serial/max3140hd.c:671-881 | Each producer's request is in the next activation's plan, and set_termios' switch-off runs before its configuration load. |
| Lifecycle.StartTxIdempotent | drivers/tty/serial/max3140hd.c:697-698 | A second start_tx changes nothing and does not wake the worker. |
| Lifecycle.StopRxLoadsReceiveOff | drivers/tty/serial/max3140hd.c:709-712 | The word the worker loads after stop_rx has RM clear and every other configuration bit as before. |
| Lifecycle.ProbeWord | drivers/tty/serial/max3140hd.c:1169-1171 | Probe sends the power-down word over a zeroed configuration. |
| Lifecycle.Startup | drivers/tty/serial/max3140hd.c:919-958 | startup always resets the configuration to RM and TM, the rate to the oscillator rate, and receive enable. If suspending it returns 0 and changes nothing else. Otherwise it also clears the stop request and parity. A failed interrupt request returns -EBUSY and changes nothing more. A successful one sends the loopback word on a loopback board and requests a configuration load. No other field changes. |
| Lifecycle.StartupLoadsConfiguration | drivers/tty/serial/max3140hd.c:927-953 | After startup the worker loads the startup configuration. That configuration's rate is the port's, and it takes the chip out of the shutdown probe left it in. |
| Lifecycle.Shutdown | drivers/tty/serial/max3140hd.c:888-917 | Shutdown does nothing while suspending. Otherwise it tells the worker to stop, drops every request and sends the power-down word. Nothing else changes but the cached status. |
| Lifecycle.ShutdownEndsWork | drivers/tty/serial/max3140hd.c:900-903 | After shutdown the worker's plan is empty, and the loop condition read on the port shutdown leaves is false whatever the chip reports and whatever the loop's state. |
| Lifecycle.Suspend | drivers/tty/serial/max3140hd.c:1209-1226 | On a port the serial core does not have open, suspend marks the port suspending and sends the power-down word over the configuration image. Nothing else changes but the cached status, validity is kept, and the reply's character is dropped since no tty is attached. |
| Lifecycle.SuspendOpen | drivers/tty/serial/max3140hd.c:1209-1226 | On an open port, suspend marks the port suspending, has stop_rx clear RM and receive enable and request a configuration load, and sends the power-down word over that image. Nothing else changes but the cached status, and the reply's character is delivered. |
| Lifecycle.SuspendHooks | drivers/tty/serial/max3140hd.c:701-713 | stop_rx followed by shutdown on a port marked suspending has exactly stop_rx's effect, and the port stays valid: shutdown returns at once. |
| Lifecycle.PowerDown | drivers/tty/serial/max3140hd.c:1222-1223 | The power-down command sends WC, the image and SHDN in one exchange, changes only the cached status, and delivers the reply's character only when a tty is attached. |
| Lifecycle.SuspendOpenKeepsValid | drivers/tty/serial/max3140hd.c:709-712 | Suspending an open port keeps it set up for the service loop: clearing RM leaves the rate code. |
| Lifecycle.SuspendIsStable | drivers/tty/serial/max3140hd.c:1209-1226 | A second suspend of a closed port sends the same power-down word again and changes nothing else. While suspended, shutdown is a no-op and startup sends nothing and raises no request. |
| Lifecycle.SuspendOpenIsStable | drivers/tty/serial/max3140hd.c:1209-1226 | A second suspend of an open port sends the first one's power-down word again and leaves the port as the first left it. |
| Lifecycle.SuspendOpenKeepsImage | drivers/tty/serial/max3140hd.c:709-712 | After a suspend of an open port, clearing RM again leaves the image as it is. |
| Lifecycle.Resume | drivers/tty/serial/max3140hd.c:1228-1243 | Resume clears the suspending mark, requests a configuration load and wakes the worker. On a port that is not open nothing else changes. On an open port the port is the one the serial core's startup, set_termios and start_tx calls leave. |
| Lifecycle.ResumeHooks | drivers/tty/serial/max3140hd.c:752-886 | startup on a suspending port, then set_termios with the tty's format and start_tx, leave reception on, the chip out of shutdown, the requested rate when the crystal supports it and the oscillator rate otherwise, the requested parity, and requests for the switch-off, a configuration load and transmission. Only the format fields and requests change, and the port is valid exactly when its buffer is. |
| Lifecycle.StartupConfKept | drivers/tty/serial/max3140hd.c:876 | Any format merged into the startup image keeps RM and TM set and SHDN and the operation bits clear. |
| Lifecycle.ResumeReloadsConfiguration | drivers/tty/serial/max3140hd.c:1222-1240 | After suspend and resume of a port that is not open, the worker loads the configuration the port had, which leaves shutdown whenever that configuration did. |
| Lifecycle.SuspendResumeOpenPort | drivers/tty/serial/max3140hd.c:1209-1243 | Suspend of an open port sends the power-down word with RM clear. After resume the port is valid, and the worker switches the driver off, loads a configuration with RM set and SHDN clear, and serves the transmit side last. |
| Lifecycle.Probe | drivers/tty/serial/max3140hd.c:1097-1171 | Probe leaves a zeroed port with the board's options that is not set up for the service loop, and sends the power-down word. No tty is attached, so nothing is delivered. |
| Lifecycle.ResumeWakesClosedPort | drivers/tty/serial/max3140hd.c:1228-1243 | On a port probed but never opened, suspend repeats the power-down word and delivers nothing, and resume makes the worker load the zeroed configuration, whose word clears the shutdown bit. |
| Lifecycle.GetMctrl | drivers/tty/serial/max3140hd.c:728-741 | Carrier and DSR are always reported, CTS exactly when the cached flag is set, and nothing else. |
| Lifecycle.ConfigPort | drivers/tty/serial/max3140hd.c:980-990 | Autoconfiguration sets the type to MAX3100 exactly when the type is asked for. |
| Lifecycle.VerifyPort | drivers/tty/serial/max3140hd.c:992-1005 | A setting is accepted (0) exactly for an unknown type or a MAX3100, and refused with -EINVAL otherwise. |
| Lifecycle.VerifyAcceptsConfiguredType | drivers/tty/serial/max3140hd.c:988-1003 | A type autoconfiguration leaves, starting from an accepted one, is accepted again. |

## Left out

- **SPI transport.** The transport itself (spi_sync) is an oracle: `Env.reply(i)` is the result of the i-th exchange. Chip-select timing and the compiled-out multi-word transfer (`max3140_sr`, `spidev_complete`) are not modelled.
- **Concurrency.**
  - The kernel thread, wait queues, mutexes, spinlocks and wake-ups are not modelled.
  - Producers and the worker are separate functions over one port record, so the worker sees a snapshot of the flags at the start of its activation.
  - A flag a producer sets while the worker runs is not modelled.
- **Busy-wait.** `ndelay` is modelled as waiting exactly until the deadline: the switch-off happens at the later of the deadline and a fresh clock reading. The hrtimer/`dd` variant (lines 386-421 and 559-566) is compiled out and not modelled.
- **Poll timer.** The poll timer (`max3140_timeout`, `max3140_enable_ms`) and the hrtimer callback are kernel timers and are not modelled.
- **Flip buffer.** The tty layer's flip buffer is not modelled. `max3140_receive_chars` is modelled as appending to `Trace.received`. It drops the characters while no tty is attached (lines 303-308); the model follows this for probe (`Lifecycle.Probe`) and for the suspend of a port that is not open (`Lifecycle.Suspend`), and elsewhere assumes a tty is attached. The flip-buffer pushes, the `rxchars > 16` batching and `uart_write_wakeup` are not modelled.
- **Ignored status.** `ignore_status_mask` is only stored by set_termios (7 or 0); no code of the core reads it.
- **Unused clock readings.** The loop's clock readings at lines 493 and 606 are consumed from the oracle but their values are unused, as in the source.
- **Service loop bound.** The service loop runs at most `fuel + 1` rounds, because the source loop need not terminate while the chip keeps reporting data. A run that hits the bound reports `finished == false`, and the model says nothing about rounds beyond it.
- **No-op hooks.** tx_empty, type, release_port, request_port, stop_tx, break_ctl and set_mctrl only log or return a fixed value.
- **Registration.** Remove and the registration steps of probe (the `max3140s[]` table, driver registration, thread creation, scheduler priority, timers) are not modelled; probe is modelled as the zeroed port it leaves and the power-down word it sends. `request_irq` is the `irqOk` parameter of startup. The `s->irq = 0` reset on failure, `free_irq`, `disable_irq`/`enable_irq`, `msleep(50)`, `tty_termios_encode_baud_rate`, `uart_update_timeout` and `low_latency` are foreign calls and are not modelled.
- **Serial core.** `uart_suspend_port` and `uart_resume_port` (lines 1219 and 1233) belong to the serial core, which is not part of this model. The model takes the standard core's behaviour: on a port the core has open, suspend calls the driver's stop_rx and shutdown, and resume calls startup, set_termios with the tty's current format (`Termios.Request`) and start_tx; on a port not open neither calls the driver. Its other steps (stop_tx and set_mctrl, which are no-ops here, tx_empty, console handling, power state) are not modelled. Whether the port is open selects `Lifecycle.Suspend` or `Lifecycle.SuspendOpen`, and is the `open` argument of `Lifecycle.Resume`. The core resumes through the driver only a port it suspended, which the driver marked suspending first; `Lifecycle.Resume` requires that mark on an open port.
- **Crystal and divisors.** `crystal` is a boolean, as the platform data documents. The divisor table follows the MAX3100/MAX3140 data sheet, over `uartclk / 16` (line 1155).
- **SetTermios.** It requires a non-zero previous rate: the hold time divides by the rate, and an unsupported request keeps the previous rate, so a port that never ran startup would divide by zero.
- **Service.SetupOf.** The service loop receives the word for each character as `Setup.frame`. `Service.SetupOf` fixes it to `TxWord` under the port's parity and RTS polarity. The chain lemmas speak of `frame`, and `Service.ServiceWritesXCharFirst` therefore of `TxWord`.
- Service.Drain: states only the read commands sent and, on a bus without failures, that everything reported is delivered. The full outcome, failures included, is `Transport.ReadFifo`'s contract.
- Service.Round: the characters delivered are stated only for a bus on which no exchange fails. A failed drain exchange drops the characters of that drain (`Transport.ReadFifo`). Delivery follows the corrected order, not lines 578-579.
- Service.SendOne: delivery follows the corrected order, not lines 578-579.
- Service.SendPicked: delivery follows the corrected order, not lines 578-579.
- Service.Rounds: the characters delivered are stated only for a bus on which no exchange fails, as for `Service.Round`. Delivery follows the corrected order, not lines 578-579.
- Service.SendAndReceive: the characters delivered are stated only for a bus on which no exchange fails, and follow the corrected order, not lines 578-579. The number of clock readings is not stated. Its contract states only that the words sent extend the earlier ones; which words they are is `Service.ServiceBusWords`.
- Worker.Serve: reduced to the well-formed buffer, the exchange count growing, the cached flags and the reliable-bus delivery. The rest is `Service.SendAndReceive`'s contract. Delivery follows the corrected order, not lines 578-579.
- Worker.Activate: with a service request the exact number of exchanges is not stated, only that the service runs add at least one. Only the command words at the front of the words sent are stated, not the service words after them. Delivery is stated only for a bus without failures, and follows the corrected order, not lines 578-579.
- Worker.Dispatch: as for `Worker.Activate`.
- Worker.RunServices: only that the words sent grow is stated, not which words. Delivery follows the corrected order, not lines 578-579.
- Worker.Command: delivers the character its exchange reported whether or not a tty is attached. After the resume of a port never opened (`Lifecycle.ResumeWakesClosedPort`) the configuration load's reply is dropped by receive_chars (lines 303-308); the worker's model keeps no notion of an attached tty. The same holds for `Worker.Activate` and `Worker.SendCommands` on that port.
- Lifecycle.ShutdownEndsWork: the service loop reads its setup, the stop request included, once when it starts, while the code re-reads `force_end_work` at every loop test (line 596). The lemma states the loop condition on the port shutdown leaves, which is what that re-read sees; it does not follow a run that started before shutdown.

## Findings

| source | as written | input that shows it | evidently intended | confidence | as-written member | corrected member |
|---|---|---|---|---|---|---|
| drivers/tty/serial/max3140hd.c:571-582 | After the last character, the switch-off command goes through `max3140_cmd`. That delivers the command's own received character and refreshes RX_PENDING from the command's reply (lines 344-349). Line 578 then tests that refreshed flag and delivers the low byte of the earlier data exchange's reply. | Data reply `0x8041` (R set, 'A'), switch-off reply `0x4000` (no data): 'A' is never delivered. Both replies carry data (`0x8041`, `0x8042`): delivered as "BA". Data reply `0x4000`, switch-off reply `0x8042`: "B" plus an invented NUL. A failed data exchange after a full drain delivers the stale buffer byte. | Each exchange's character is delivered once, in the order the chip reported it: the data exchange's, then the switch-off command's. | not executed | Service.DeliveredAsWritten (with Service.AsWrittenLosesCharacter, Service.AsWrittenReordersCharacters, Service.AsWrittenInventsCharacter, Service.AsWrittenDeliversAfterFailure) | Service.Delivered (with Service.DeliveredFollowsChip; `Service.Transmit` and `Service.TransmitDelivers` use this order) |
