# Inverter LIN controller, modelled in Dafny

A model of the auxiliary controller of a 12 V to 230 V inverter. An 8051 drives
the inverter's own controller over a LIN bus. It starts and stops the 230 V
output, force-cuts the inverter controller's supply when asked, and watches the
battery and the load. Error codes are blinked on a red LED. The model covers
four layers, one Dafny module each:

- `Uart` (uart.dfy): the two eight-slot circular byte queues behind the serial
  interrupt. They are a class whose arrays, counts, cursors and `tr_armed`
  flag change in place. Ghost queues (`RxQ`, `TxQ`) and the bytes already on
  the wire (`Wire`) state what the rings hold. `Valid` keeps the count in
  0..8 and the write cursor `count` slots past the read cursor.
- `Lin` (lin.dfy): the protected identifier, the checksum as the code
  computes it, and the frames. It also holds `LIN_send_request`,
  `LIN_send_data` and `LIN_read_response` as methods on a `Uart`.
- `Board` (board.dfy): the routines that only read pins or drive the LED.
  These are `is_power_good`, `anything_plugged`, `wait_if_plugged` and
  `show_error`, plus the error codes.
- `Control` (inverter.dfy): `start_inverter`, `stop_inverter` and
  `enough_power_drawn`. They are methods of a class `Inverter` that owns the
  serial port, `resp_buff` and the EN_OV pin. A ghost log records every
  frame put on the bus (`Frames`), and `Logged` ties it to the bytes the
  serial port has queued. A ghost count records the EN_OV pulses
  (`CutPulses`). Every polling method also returns, as ghost results, the
  bytes each poll consumed and what each poll saw. `Heard` ties those bytes
  to the `bus` oracle, and `Seen` derives the observations from them and
  from `resp_buff` as it was before the first poll.
- `Supervisor` (mainloop.dfy): the pass-by-pass state machine of `main`. It
  keeps `no_load_counter`, `prev_was_load` and `low_batt_counter`. `Step` and
  `Run` specify it, and the method `MainLoop` is proved equal to `Run`.

The hardware is given as oracles:

- A pin is a function from read number to level.
- The bytes that arrive on RX during each delay of a response read are a list
  of lists.
- A `bus` gives one such list per status poll.

In `main`, a pass sees the results of the routines it calls as a `Check`
record. It records the calls it makes as a list of `Action`s.

Two details the model takes as the code writes them:

- **The checksum.** `LIN_send_data` folds the carry of the 16-bit sum back in
  once (software/inverter.c:163). That is not LIN's sum with carry.
  `Lin.Checksum` is what the code computes. `Lin.ChecksumMatchesLinIff` states
  exactly when it equals the LIN 2.x checksum (section 2.3.1.5 of the LIN 2.x
  specification): when the single fold lands in a byte. Otherwise it is
  one higher. A raw sum of 0x1FF gives 0xFF where LIN gives 0xFE. The two
  payloads the controller sends never reach that case (`Lin.StartChecksum`,
  `Lin.StopChecksum`).
- **Command payloads.** `power_on_data` holds three bytes 02 00 00
  (software/inverter.c:65), but each command sends two of them, as the
  comment on that line says: 02 00 from the first byte to start and 00 00
  from the second to stop.

## Model

| member | source | states |
|---|---|---|
| Uart.OfferAllKeepsPrefix | software/inverter.c:75-79 | a burst of received bytes keeps exactly the bytes that fit, in arrival order, and drops the rest |
| Uart.OfferAllFits | software/inverter.c:73-80 | bytes that fit in the free slots are all queued, in order |
| Uart.OfferAllBounds | software/inverter.c:75-79 | a burst never overfills a ring and never empties one; the ring stays empty only if it was empty and nothing arrived |
| Uart.OfferAllLength | software/inverter.c:75-79 | a burst grows the ring by at most its own length |
| Uart.RingPop | software/inverter.c:123-126 | taking a byte at the read cursor yields the oldest queued byte, and the ring still holds the rest with the read cursor one slot on (mod 8) |
| Uart.RingPush | software/inverter.c:76-78 | storing at the write cursor of a ring that is not full appends the byte to the queue and keeps the cursor relation |
| Uart.Uart.constructor | software/inverter.c:53-63 | at boot both queues are empty, nothing has gone out, and the transmitter is idle |
| Uart.Uart.ReceiveInterrupt | software/inverter.c:73-80 | the received byte is appended to the receive queue, or dropped with nothing changed when the ring holds 8; the transmit side and the read cursor are untouched |
| Uart.Uart.TransmitInterrupt | software/inverter.c:81-89 | the oldest pending byte goes out and leaves the queue, or with nothing pending the transmitter is marked idle; what was queued for the bus so far is unchanged |
| Uart.Uart.Send | software/inverter.c:99-118 | the byte joins what is bound for the bus unless the ring is full; with the transmitter idle it goes straight onto the wire; otherwise it waits in the ring, and a full ring gives one byte to the wire first; the ring always leaves with a free slot and the transmitter armed |
| Uart.Uart.Read | software/inverter.c:120-130 | on an empty ring it returns 0 and changes nothing; otherwise it returns the oldest byte and removes it (FIFO) |
| Uart.Uart.ReceiveAll | software/inverter.c:72-80 | the bytes arriving during one delay are queued in order, with drop-on-full |
| Lin.ProtectedId | software/inverter.c:149-151 | the low six bits are the identifier's; bit 6 is ID0^ID1^ID2^ID4; bit 7 is NOT(ID1^ID3^ID4^ID5) |
| Lin.ProtectedIdOfLowBits | software/inverter.c:151 | the identifier byte depends only on `ID & 0x3F`, and its low six bits equal `ID & 0x3F` |
| Lin.KnownProtectedIds | software/inverter.c:149-151 | 0x3A maps to 0xBA and 0x3B maps to 0xFB |
| Lin.SumBound | software/inverter.c:158-162 | the sum of n bytes is at most 255·n, so the 16-bit word cannot wrap for the payloads `len` allows |
| Lin.Invert | software/inverter.c:163 | `^ 0xFF` on a byte value x gives 0xFF − x |
| Lin.FoldBound | software/inverter.c:163 | the single fold of a 16-bit word is below 0x200 |
| Lin.FoldChecksum | software/inverter.c:163-164 | checksum plus fold is 0xFF when the fold fits in a byte, and 0x1FF (the ninth bit cut off) when it does not |
| Lin.Checksum | software/inverter.c:157-165 | the same for the identifier byte plus the payload, whose raw sum stays below 0x10000 |
| Lin.CarrySum | software/inverter.c:163 | the LIN sum with carry, an independent reference definition, stays within a byte |
| Lin.LinChecksum | software/inverter.c:163 | the LIN enhanced checksum: checksum plus sum with carry is 0xFF |
| Lin.CarrySumResidue | software/inverter.c:163 | the sum with carry equals the plain sum modulo 255 and is zero only for a zero sum |
| Lin.FoldResidue | software/inverter.c:163 | the single fold equals the plain sum modulo 255 and is zero only for a zero sum |
| Lin.FoldMeetsCarry | software/inverter.c:158-163 | the code's fold and LIN's sum with carry agree modulo 255 and are zero together |
| Lin.FoldAgainstCarry | software/inverter.c:163 | a fold and a sum with carry of the same word are equal when the fold fits in a byte and 255 apart otherwise |
| Lin.ChecksumMatchesLinIff | software/inverter.c:157-165 | the code's checksum equals LIN's exactly when the single fold is at most 0xFF; past that it is exactly one higher |
| Lin.ChecksumSingleFoldExample | software/inverter.c:163 | identifier byte 0xBA with payload FF 46 has raw sum 0x1FF; the code sends 0xFF where LIN requires 0xFE |
| Lin.StartChecksum | software/inverter.c:206-207 | the start payload 02 00 under identifier byte 0xBA gets checksum 0x43, which is also LIN's |
| Lin.StopChecksum | software/inverter.c:235-236 | the stop payload 00 00 under 0xBA gets checksum 0x45, which is also LIN's |
| Lin.StartFrameBytes | software/inverter.c:206-207 | the start command is 00 55 BA 02 00 43 on the wire |
| Lin.StopFrameBytes | software/inverter.c:235-236 | the stop command is 00 55 BA 00 00 45 on the wire |
| Lin.CommandFrames | software/inverter.c:141-165 | the start and stop commands as above, and a status request is 00 55 FB |
| Lin.LinSendRequest | software/inverter.c:141-155 | after waiting for the transmitter to drain, the break is on the wire and exactly sync and the protected identifier are pending; the frame header follows what was bound for the bus before, and the identifier byte is returned |
| Lin.ChecksumStep | software/inverter.c:158-162 | adding one more payload byte to the 16-bit `checksum` word never wraps it |
| Lin.LinSendData | software/inverter.c:157-165 | the whole payload and then its checksum follow what was bound for the bus, none dropped, for any payload length below 256 |
| Lin.Store | software/inverter.c:176 | after a read, `resp_buff` holds the first min(n, 9) consumed bytes in order and its other bytes are untouched |
| Lin.StoreKeepsStaleGuard | software/inverter.c:176 | a three-byte response leaves `resp_buff[3]` as it was |
| Lin.StoreStep | software/inverter.c:176 | one more consumed byte is stored at the next index while fewer than nine are stored, and ignored after that |
| Lin.AwaitEmptyIff | software/inverter.c:168-172 | the polls from poll i on read nothing exactly when the ring is empty and nothing arrives in the remaining polls |
| Lin.ResponseEmptyIff | software/inverter.c:167-180 | a read consumes nothing (and returns 0) exactly when the ring was empty and nothing arrived during the five polls |
| Lin.DrainQuiet | software/inverter.c:174-178 | once the bus is quiet, the drain consumes exactly the buffered bytes |
| Lin.DrainStep | software/inverter.c:174-178 | one drain round consumes the oldest byte and then lets that delay's bytes arrive |
| Lin.ResponseToBurst | software/inverter.c:167-180 | a burst that is all in before the first poll is read as its first eight bytes (what the ring held); an empty burst reads nothing |
| Lin.ResponseToSteadyStream | software/inverter.c:167-180 | a response arriving one byte per delay is consumed whole, in order; no arrivals read nothing |
| Lin.DrainBound | software/inverter.c:173-178 | the drain consumes at most the bytes buffered plus the bytes still to arrive |
| Lin.AwaitBound | software/inverter.c:168-178 | from poll i on, a read consumes at most the bytes buffered plus those arriving from that poll on |
| Lin.ResponseBound | software/inverter.c:167-180 | a read consumes at most the bytes buffered plus all the bytes that arrive during it |
| Lin.KeepByte | software/inverter.c:176 | a byte is stored at the next index while fewer than nine are stored; otherwise nothing changes |
| Lin.DrainInto | software/inverter.c:173-179 | the drain loop empties the ring, consumes the bytes the specification function names, stores the first nine of them and counts them |
| Lin.LinReadResponse | software/inverter.c:167-180 | it returns min(n, 9) for the n bytes the read consumes (0 when nothing came in five polls), stores them as Store says, and leaves the ring empty |
| Board.LowsMonotone | software/inverter.c:184-186 | the count of low reads never decreases as more reads are taken |
| Board.IsPowerGood | software/inverter.c:182-190 | the battery is good exactly when fewer than 5 of the 10 reads are low; a bad verdict comes on the read that makes five |
| Board.AnythingPlugged | software/inverter.c:192-197 | a load is reported only when two reads in a row see it; a first read that sees nothing ends the check after one read |
| Board.PluggedForExtend | software/inverter.c:276-279 | a further positive plug check lengthens a run of positive checks |
| Board.WaitIfPlugged | software/inverter.c:275-280 | at most `rounds` waits, each after a positive plug check; it ends early exactly at the first check that sees nothing |
| Board.BlinkPattern | software/inverter.c:284-287 | every code blinks as exactly three pulses |
| Board.BlinkRoundTrip | software/inverter.c:284-290 | the pulses give back the low three bits of the code, most significant first |
| Board.BlinkDistinct | software/inverter.c:44-49 | two codes below eight blink alike exactly when they are equal |
| Board.ErrorPatterns | software/inverter.c:45-49 | the five error codes blink short-short-long, short-long-short, short-long-long, long-short-short and long-short-long |
| Board.ShowError | software/inverter.c:282-291 | a wake-up happens exactly when the 5 V rail is off; the pulses read off bit 2, with a left shift after each, are BlinkPattern of the code |
| Control.CommandData | software/inverter.c:65 | each command takes two bytes of `power_on_data` |
| Control.CommandBytes | software/inverter.c:141-165 | the literal wire images of the start command, the stop command and the status request are what LIN_send_request and LIN_send_data produce |
| Control.StatusBytes | software/inverter.c:212 | a status request is 00 55 FB |
| Control.BytesAppend | software/inverter.c:141-165 | the bytes of frames sent one after another are the bytes of each frame in turn |
| Control.TrafficRound | software/inverter.c:205-212 | j polls into a round, the traffic is the earlier rounds, then the command, then j status requests |
| Control.FullRounds | software/inverter.c:205-228 | a full round of polling is the command followed by ten status requests, repeated once per round |
| Control.TallyAppend | software/inverter.c:210-222 | the passing polls of two runs of polls add up |
| Control.TallyNone | software/inverter.c:210-222 | no poll passes a test exactly when the tally is zero |
| Control.NotGoodAnswered | software/inverter.c:214-220 | every poll that shows "operating but output not good" was answered |
| Control.TestsExclusive | software/inverter.c:215-221 | one poll cannot both report running and not-good, and a stop confirmation excludes the start, not-good and load tests |
| Control.StaleGuardCounts | software/inverter.c:267 | a three-byte response with nonzero power and the operating bit counts as a load when a stale 0xFF sits in `resp_buff[3]` |
| Control.WakeupsSent | software/inverter.c:200-204 | wake-up pulses go out while the 5 V rail reads low, at most three; three exactly when all three reads are low |
| Control.HighRun | software/inverter.c:245-250 | a run of high reads stops at the first low read or at the limit |
| Control.FinalWait | software/inverter.c:255-258 | up to ten reads of the rail; it ends at the first low read, and reports a drop exactly when one came |
| Control.TransmitCommand | software/inverter.c:206-207 | sending a command adds exactly its frame's bytes to what the serial port has queued for the bus |
| Control.HeardSnoc | software/inverter.c:212-213 | the next poll's reply extends the replies heard |
| Control.HeardAppend | software/inverter.c:205-228 | the replies of two runs of polls, one after the other, are heard together |
| Control.Fill | software/inverter.c:176 | `resp_buff` stays nine bytes whatever the polls consume |
| Control.Seen | software/inverter.c:212-216 | one observation per poll |
| Control.FillAppend | software/inverter.c:176 | filling `resp_buff` with two runs of replies is filling with the first, then the second |
| Control.SeenAppend | software/inverter.c:205-228 | two runs of polls see what the first sees, then what the second sees from the buffer the first left |
| Control.SeenAt | software/inverter.c:212-216 | poll k reports its own reply's byte count and `resp_buff` as the replies up to its own left it |
| Control.Compose | software/inverter.c:205-228 | a round of polls after earlier ones: together they heard, saw and filled what all their replies give |
| Control.SilentBusStart | software/inverter.c:208-226 | on a silent bus with nothing buffered no poll is answered: none reports running, and the third attempt has no answer |
| Control.RunningReplyStart | software/inverter.c:214-219 | a first reply 00 03 00 FF, one byte per delay, reports the output running at the first poll |
| Control.StartOnSilentBus | software/inverter.c:199-226 | from reset, with the transceiver awake and nothing ever answering, start_inverter returns the no-response code 2 |
| Control.StartOnRunningReply | software/inverter.c:199-219 | from reset, with the transceiver awake and the first poll answered 00 03 00 FF, start_inverter returns 0 |
| Control.Inverter.constructor | software/inverter.c:66 | at reset `resp_buff` (static storage) is all zeros, no frame has been sent, no cut pulse made, the receive ring is empty and EN_OV is low (set so at software/inverter.c:297) |
| Control.Inverter.Wake | software/inverter.c:132-139 | a wake-up pulse is logged and queues no byte |
| Control.Inverter.SendCommand | software/inverter.c:206-207 | one command frame is logged and its bytes are queued |
| Control.Inverter.StatusPoll | software/inverter.c:212-213 | a status request is logged, and the response is read into `resp_buff` as LinReadResponse says, leaving the receive ring empty |
| Control.Inverter.Poll | software/inverter.c:212-216 | poll k consumes the reply the bus gives it (Heard grows by one) and its observation is the next one Seen derives from those replies; `resp_buff` and the ring stay as the replies leave them |
| Control.Inverter.StartPolls | software/inverter.c:208-222 | up to ten polls, ending at the first that reports running (at least three bytes, bits 0 and 1 set, guard byte not looked at); it reports whether none was answered and whether one showed not-good; what the polls see is Seen of the replies the bus gives them |
| Control.Inverter.WakeTransceiver | software/inverter.c:200-204 | pulses are sent while the rail reads low; it reports the rail powered unless all three reads were low |
| Control.Inverter.StartAttempt | software/inverter.c:205-222 | the start command followed by one round of polls, which sees what the bus gives it from `resp_buff` as it was |
| Control.Inverter.StartAttempts | software/inverter.c:205-229 | exactly three attempts (loop bound 10, return at attempt 2): 0 exactly when some poll reports running; otherwise, after 30 polls, 2, 4 or 3 chosen by the third attempt alone; every poll sees what Seen derives from the bus |
| Control.Inverter.StartInverter | software/inverter.c:199-230 | the result is in 0..4; 1 exactly when the rail read low three times, with no command sent; otherwise as StartAttempts, with the bus traffic stated frame by frame and the polls tied to the bus |
| Control.Inverter.StopPolls | software/inverter.c:237-243 | up to ten polls, ending at the first that confirms the stop (at least three bytes, guard 0xFF, bit 0 clear); what the polls see is Seen of the replies the bus gives them |
| Control.Inverter.StopAttempt | software/inverter.c:235-243 | the stop command followed by one round of polls, which sees what the bus gives it |
| Control.Inverter.StopAttempts | software/inverter.c:234-254 | up to three attempts and 30 polls; confirmed exactly when a poll confirms, and then that is the last poll; every poll sees what Seen derives from the bus |
| Control.Inverter.CutPower | software/inverter.c:245-250 | up to ten EN_OV pulses, ending at the first low rail read; the pulse count grows by exactly the pulses reported, and EN_OV is low after each |
| Control.Inverter.PulseEnOv | software/inverter.c:246-248 | exactly one more pulse, and EN_OV ends low |
| Control.Inverter.ForceCut | software/inverter.c:244-258 | the cut either takes the rail down, or is followed by the final wait of at most ten reads; the pulses reported are the pulses made |
| Control.Inverter.Shutdown | software/inverter.c:244-258 | no cut and no wait after a confirmed soft stop; pulses only after a confirmed stop with a cut asked for, and exactly those pulses made; a final wait exactly when the rail is still up |
| Control.Inverter.StopInverter | software/inverter.c:232-259 | nothing is sent when the rail reads low; otherwise at most 30 polls, 10 pulses and 10 waits, a soft return exactly on a confirmation without cut, the frames sent and the pulses made stated exactly, and the polls tied to the bus |
| Control.Inverter.EnoughPowerDrawn | software/inverter.c:261-273 | a load exactly when 5 of the polls (an absolute count) are valid with nonzero power; it stops at the fifth; the polls see what Seen derives from the bus |
| Supervisor.Step | software/inverter.c:313-363 | per pass: the halt exactly on the fifth low battery check; `low_batt_counter` resets on a good check; `no_load_counter` stays within 60, goes up by one only on a no-load check below 60, and down by one only on a load check when above 0 with `prev_was_load` already set; on a measured pass `prev_was_load` ends set exactly when load was drawn and it was already set or the counter is above 0 |
| Supervisor.LoadHysteresis | software/inverter.c:335-355 | two no-load checks raise `no_load_counter` by two; the first load check after them only sets `prev_was_load`, the second lowers the counter by one |
| Supervisor.NoLoadBounded | software/inverter.c:337-354 | `no_load_counter` never exceeds 60 over any number of passes |
| Supervisor.LowBattCounts | software/inverter.c:313-324 | `low_batt_counter` is the number of low battery checks in a row just behind, and stays below 5 until the halt, when it is 5 |
| Supervisor.FiveLowHalt | software/inverter.c:317-320 | five low battery checks in a row halt the controller |
| Supervisor.HaltNeedsFiveLow | software/inverter.c:313-324 | a halt is always preceded by a run of five low battery checks |
| Supervisor.Pass | software/inverter.c:313-363 | one iteration of the loop body computes Step's counters, calls and halt |
| Supervisor.MainLoop | software/inverter.c:305-364 | from zeroed counters, the loop's state after its passes is Run's, and it stops only at the halt |

## Left out

- Delays and all timing values (`delay`, the LED pulse lengths, the 80 ms
  waits, the 200 ms inrush filter before a load check) are not modelled.
  Pins are read in order and bytes arrive per delay.
- SFR, timer and baud-rate setup is not modelled. This includes the halved
  baud rate that produces the break.
- Uart.Uart.Send: the `TI` spin of `UART_send` is taken to end with `TI`
  set, so a full ring always gives one byte to the wire; its 255-turn
  limit is not modelled. The byte time of the `delay(1)` that ends
  `UART_send` does not send a byte either.
- Lin.LinReadResponse: the bytes arriving during a read are a finite list,
  so the `while(buffered_rcv)` drain always ends. A bus that never stops
  sending would keep the code's loop running forever, which the model does
  not express. `Lin.DrainBound` bounds what the drain consumes by the bytes
  buffered plus the bytes still to arrive.
- `cli`/`sei` and interrupt interleaving are not modelled. Each interrupt half
  and each main-line buffer operation is one atomic method. The transmit half
  runs inside LIN_send_request's wait for the transmitter and inside
  `UART_send` as described above. The receive half runs only during the
  delays of LIN_read_response.
- `PLUG_ISR` is not modelled: it only wakes the controller.
- The power-limit feature named in the closing comment is not implemented by
  the code.
- Pin toggling in `LIN_wakeup` is a single `WakeupPulse` frame.
- The LED pulses are a list of long/short flags.
- `ENTER_IDLE` and `ENTER_PD` are the `Sleep` and `PowerDown` actions.
- The inverter's responses are oracles. The model does not say when the
  inverter answers or what it answers.
- Supervisor.Step: a pass sees the results of `is_power_good`,
  `anything_plugged`, `start_inverter` and `enough_power_drawn` as a given
  `Check`. The calls appear as actions rather than as calls into the
  `Control` and `Board` methods.
- Supervisor.MainLoop: the endless `for(;;)` runs over a finite list of
  passes.
