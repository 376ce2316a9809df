# Verification of the BlueNRG link, the QSPI flash driver and the fixed-point kernels

A Dafny model of six parts of the firmware, with proofs about them.

* **The interrupt-driven SPI link to the BlueNRG** (`LinkProtocol`, `LinkRuns`, `LinkHangs`, `LinkTransmit`,
  `LinkReceive`, `SpiRegisters`, `SpiDriver`). The driver is a class with the fields of its context, the shared timer,
  the two DMA channels, the lines and the low-power requests. Every callback is a method, proved to take one step of an
  abstract protocol and to leave the registers in agreement with the phase it reaches. The results over whole runs -
  commands conserved, buffers handed up in order with the bytes received, one activity outstanding, packets sent byte
  for byte - are proved about that protocol, for every interleaving of application, interrupt, timer and DMA.
* **The polling writer of the same link** (`PollingWriter`), proved against the same notion of what was sent.
* **The QSPI flash driver** (`QspiFlash`), over a model of the device whose page program wraps and only clears bits.
* **Fixed-point kernels** of the signal-processing header (`FixedPoint`, `PackedLanes`, `Reciprocal`, `Pid`,
  `CircularBuffer`, `Interpolation`, `Clarke`).
* **Software bit reversal** (`BitReverse`) and **interrupt priorities** (`Nvic`).

`Bytes` and `Arithmetic` hold what several modules share.

## How the source is represented

* Machine integers are unbounded integers, and every narrowing, wrap-around and saturation is written out. Right shifts
  of signed numbers are arithmetic, that is, floor divisions. `BitReverse` and `Nvic` use bit vectors.
* RAM is a function from addresses to bytes. It is assumed not to change while a command is outstanding.
* Each DMA, timer and interrupt callback is one atomic step. A write request is two: filling in the context, and the
  critical section; receive-side callbacks may come between them. The notification that a write has ended is the end of
  the step that closes it.
* The application has one command outstanding at a time, as the command flow control of section 4.4 of Volume 2, Part E
  of the Bluetooth Core Specification 4.1 has it, and requests events again only after the last buffer was handed up.
  `LinkProtocol.Enabled` states both.
* The pointer `HCI_read_packet`, which the driver hands up at line 280, is not set in this driver. It is taken to be the
  buffer of the last request for events.
* What the BlueNRG replies is arbitrary, and so is its interrupt line. What the HAL returns to the flash driver comes
  from an arbitrary sequence of outcomes; a failed transfer may have moved any part of its data. A command carries the
  address and the count of the transfer that follows it, and the device goes by them.
* A transfer of no bytes is taken never to complete: the HAL writes the count minus one to the length register
  (stm32l4xx_hal_qspi.c:2191-2200) and then waits for the end of the transfer. A flash read or write of no bytes fails.
* The bits of the flash registers that the driver uses are named; the others are kept as one word. The header
  `mx25r6435f.h` is not part of this model, so capacity, page size and reset values are parameters.

## What the proofs found

* `BUFFER_AVAILABLE` is the zero of its enumeration, so zero-initialised storage offers a buffer of no bytes. A write
  before the first request for events enables the interrupt on it, and the next event then programs a DMA of no bytes,
  which never completes (`WriteBeforeFirstRequestHangs`). The states from which a hang can follow are known exactly
  (`HangsIffHangable`), and so is the test that an application has to make before a call: a command needs a header, and
  no empty buffer may be on offer that will not be handed up at the end of the read in progress; a buffer needs a size
  (`SafeCallIsExact`, `CarefulIsExact`). Requesting events first, and leaving nothing empty, is enough.
* A first accepted room equal to the header closes the write with the payload unsent; a smaller one makes the 8-bit
  arithmetic wrap and the header overrun the room. Delivery is complete and within the rooms exactly otherwise
  (`TransmissionIsFaithful`); both failures happen (`PayloadIsDropped`, `RoomIsOverrun`).
* The polling writer passes its lengths on as bytes: more than 255 bytes of payload are never all sent in the optimised
  form, nor is a first buffer of more than 255; in the plain form the message that is reported as sent is the whole one
  exactly when both lengths are below 256.
* `arm_clarke_q31` documents that saturation leaves no risk of overflow; the second product overflows before the
  saturating addition for the outer part of the range of its input (`SaturatesAsPromised`).
* The linear interpolations step down by one at zero when the first entry is positive (`LinearIsMonotoneFromBelow`).
* The guard of the bilinear interpolations admits cells that reach past the table, but for tables long enough; the
  lengths are known exactly (`GuardSuffices`, `SquareTableCells`).
* The emulated packed PID path multiplies the signs of gain and sample too, and wraps when both old products are at
  their maximum (`PathsAgree`).
* `arm_pid_q31` documents a saturation that it does not do; its output wraps, but is right again as soon as the textbook
  value is back in range (`SaturatesQ31`, `RecoversFromOverflow`).
* `clip_q63_to_q15` and `clip_q31_to_q7` test more bits than their results have, and fail to saturate in between
  (`ClipLongSaturates`, `ClipByteSaturates`).

## Model

| member | source | states |
|---|---|---|
| LinkProtocol.StepKeepsInv | Drivers/BSP/X-NUCLEO-IDB0xA1/stm32_bluenrg_ble_dma_lp.c:240-992 | every event keeps: the bus writes exactly while a command is launched, a command is parked only behind a read, submitted = launched + parked, launched = closed + on the bus, the interrupt is enabled only with a buffer, a read has one and never exceeds it, no empty chunk or continuation |
| LinkProtocol.RunKeepsInv | Drivers/BSP/X-NUCLEO-IDB0xA1/stm32_bluenrg_ble_dma_lp.c:240-992 | the same over every run |
| LinkRuns.ParkedStep | Drivers/BSP/X-NUCLEO-IDB0xA1/stm32_bluenrg_ble_dma_lp.c:251-264 | one event leaves a parked command as it is, or launches it and is the event that ends the read |
| LinkRuns.ParkedCommandFollowsTheRead | Drivers/BSP/X-NUCLEO-IDB0xA1/stm32_bluenrg_ble_dma_lp.c:251-264 | over a run a command that arrived during a read stays parked until the event that ends the read, which launches it with what was filled in; the bus is never idle in between |
| LinkRuns.CommandsAreConserved | Drivers/BSP/X-NUCLEO-IDB0xA1/stm32_bluenrg_ble_dma_lp.c:418-430 | no command is lost or doubled over any run from initialisation, and an idle bus owes nothing |
| LinkRuns.SubmissionsReachTheBus | Drivers/BSP/X-NUCLEO-IDB0xA1/stm32_bluenrg_ble_dma_lp.c:240-430 | counted on the events and phases of any run, and not by the driver: submissions, starts of a wake-up and ends of a write follow each other, at most one of each ahead, and balance when the bus is idle |
| LinkRuns.HandedUpBufferIsLeftAlone | Drivers/BSP/X-NUCLEO-IDB0xA1/stm32_bluenrg_ble_dma_lp.c:274-283 | after the hand-up and until the next request nothing reads into the buffer, and the length stays that of the packet handed up, also while a write goes on |
| LinkRuns.BuffersAreConserved | Drivers/BSP/X-NUCLEO-IDB0xA1/stm32_bluenrg_ble_dma_lp.c:949-958 | as many buffers are handed up as were offered, but for one that can still be on offer, and each packet has the length it says |
| LinkRuns.InterruptIsExact | Drivers/BSP/X-NUCLEO-IDB0xA1/stm32_bluenrg_ble_dma_lp.c:240-992 | the interrupt is enabled after an event if and only if the event is a request, or the end of a write with a buffer on offer, or it was enabled before and the event neither starts a command nor ends a read |
| LinkRuns.BusyMeansOneActivity | Drivers/BSP/X-NUCLEO-IDB0xA1/stm32_bluenrg_ble_dma_lp.c:240-992 | the bus is busy exactly when one activity is outstanding, unless a DMA of no bytes was started; never are there two |
| LinkHangs.StuckForEver | Drivers/BSP/X-NUCLEO-IDB0xA1/stm32_bluenrg_ble_dma_lp.c:794-914 | a DMA of no bytes is never left |
| LinkHangs.WriteBeforeFirstRequestHangs | Drivers/BSP/X-NUCLEO-IDB0xA1/stm32_bluenrg_ble_dma_lp.c:770-787 | a run, of one write and no request for events, that ends in such a DMA |
| LinkHangs.HangsIffHangable | Drivers/BSP/X-NUCLEO-IDB0xA1/stm32_bluenrg_ble_dma_lp.c:240-992 | in every state that meets the invariant, some continuation without a further call of the application ends in such a DMA if and only if an empty buffer is on offer and will be read into, an empty header is to be sent, or the DMA is already running |
| LinkHangs.SafeCallIsExact | Drivers/BSP/X-NUCLEO-IDB0xA1/stm32_bluenrg_ble_dma_lp.c:409-416 | filling in a command, or offering a buffer, makes such a continuation possible if and only if it fails a test on the call and the buffer on offer |
| LinkHangs.CarefulIsExact | Drivers/BSP/X-NUCLEO-IDB0xA1/stm32_bluenrg_ble_dma_lp.c:949-958 | over every run no such continuation is ever possible if and only if every call passed the test |
| LinkHangs.CarefulNeverHangs | Drivers/BSP/X-NUCLEO-IDB0xA1/stm32_bluenrg_ble_dma_lp.c:240-992 | an application that makes the test: over every run the bus is busy exactly when one activity is outstanding |
| LinkHangs.WellUsedNeverHangs | Drivers/BSP/X-NUCLEO-IDB0xA1/stm32_bluenrg_ble_dma_lp.c:949-958 | the same for an application that requests events first and leaves no buffer and no header empty |
| LinkTransmit.AcceptIsExact | Drivers/BSP/X-NUCLEO-IDB0xA1/stm32_bluenrg_ble_dma_lp.c:624-655 | with a good first room no 8-bit field wraps, the chunk is what fits, and chunk and rest make up the payload |
| LinkTransmit.SendConserves | Drivers/BSP/X-NUCLEO-IDB0xA1/stm32_bluenrg_ble_dma_lp.c:727-762 | what has gone out followed by what is still to go out is the same bytes before and after a transmit completion |
| LinkTransmit.TransmissionIsFaithful | Drivers/BSP/X-NUCLEO-IDB0xA1/stm32_bluenrg_ble_dma_lp.c:612-762 | over any run, when a command has been closed: header and payload went out once and in order and each transaction fitted its room if and only if the first accepted room was good; then each transaction but the last used all its room, and there were at most as many as payload bytes |
| LinkTransmit.TransmissionAnswersTheReplies | Drivers/BSP/X-NUCLEO-IDB0xA1/stm32_bluenrg_ble_dma_lp.c:612-762 | the same against the bytes of the replies and of the RAM: the transactions belong one to one, in order, to the replies whose first byte is 2 and whose second and third are not both 0, and the room of each is that pair, low byte first; the message is that of the last command filled in |
| LinkTransmit.TransmissionIsAPrefix | Drivers/BSP/X-NUCLEO-IDB0xA1/stm32_bluenrg_ble_dma_lp.c:612-762 | while the command is being sent, what has gone out is a prefix of it and fits |
| LinkTransmit.PayloadIsDropped | Drivers/BSP/X-NUCLEO-IDB0xA1/stm32_bluenrg_ble_dma_lp.c:632-637 | a run that closes a command of 4 + 1 bytes with only the header sent, after a first room of 4 |
| LinkTransmit.RoomIsOverrun | Drivers/BSP/X-NUCLEO-IDB0xA1/stm32_bluenrg_ble_dma_lp.c:632-637 | a run that sends 259 bytes into a first room of 3 |
| LinkReceive.StepKeepsReceipts | Drivers/BSP/X-NUCLEO-IDB0xA1/stm32_bluenrg_ble_dma_lp.c:539-608 | every event keeps: packets handed up, buffers offered, lengths announced and payloads received correspond, and the read in progress is the next of them |
| LinkReceive.ReceptionIsFaithful | Drivers/BSP/X-NUCLEO-IDB0xA1/stm32_bluenrg_ble_dma_lp.c:875-900 | over every run the packets handed up are, in order, the buffers offered with the payloads received, each as long as the fourth and fifth byte of its reply say, cut to its buffer; none is doubled or left out, but the last can be on offer or waiting |
| SpiRegisters.RegisterSafety | Drivers/BSP/X-NUCLEO-IDB0xA1/stm32_bluenrg_ble_dma_lp.c:240-992 | between callbacks: available means everything released; busy means one thing outstanding; one completion interrupt while a DMA runs; the timer has the callback and the ticks of the phase; what the transmit channel puts out; chip select and low-power requests; a DMA into RAM targets the offered buffer and stays in it |
| SpiRegisters.EventsOfTheHardware | Drivers/BSP/X-NUCLEO-IDB0xA1/stm32_bluenrg_ble_dma_lp.c:539-992 | in every sound state the events that the protocol enables are exactly those that timer, interrupt line and DMA channels can raise |
| SpiDriver.SpiLink.constructor | Drivers/BSP/X-NUCLEO-IDB0xA1/stm32_bluenrg_ble_dma_lp.c:319-337 | initialisation gives the initial state of the protocol |
| SpiDriver.SpiLink.WriteFill | Drivers/BSP/X-NUCLEO-IDB0xA1/stm32_bluenrg_ble_dma_lp.c:411-416 | filling in a command is a step of the protocol and keeps the registers sound |
| SpiDriver.SpiLink.WriteCommit | Drivers/BSP/X-NUCLEO-IDB0xA1/stm32_bluenrg_ble_dma_lp.c:418-430 | the critical section launches the command or parks it |
| SpiDriver.SpiLink.RequestEvents | Drivers/BSP/X-NUCLEO-IDB0xA1/stm32_bluenrg_ble_dma_lp.c:949-958 | a request offers the buffer and enables the interrupt |
| SpiDriver.SpiLink.IrqCallback | Drivers/BSP/X-NUCLEO-IDB0xA1/stm32_bluenrg_ble_dma_lp.c:965-980 | the interrupt starts a read on an available bus and does nothing on a busy one |
| SpiDriver.SpiLink.TimerStartAllowed | Drivers/BSP/X-NUCLEO-IDB0xA1/stm32_bluenrg_ble_dma_lp.c:987-992 | the requested timer is armed |
| SpiDriver.SpiLink.TimerTxRxCallback | Drivers/BSP/X-NUCLEO-IDB0xA1/stm32_bluenrg_ble_dma_lp.c:228-296 | the expiry does what the phase asks for, through the callback that was installed |
| SpiDriver.SpiLink.ReceiveClosure | Drivers/BSP/X-NUCLEO-IDB0xA1/stm32_bluenrg_ble_dma_lp.c:240-267 | the whole state after the end of a read, with and without a pending command |
| SpiDriver.SpiLink.ProcessEndOfReceive | Drivers/BSP/X-NUCLEO-IDB0xA1/stm32_bluenrg_ble_dma_lp.c:274-283 | the buffer is handed up with the length in the context, after a pending command was launched |
| SpiDriver.SpiLink.RxCallback | Drivers/BSP/X-NUCLEO-IDB0xA1/stm32_bluenrg_ble_dma_lp.c:539-667 | each of the three receive completions is a step of the protocol |
| SpiDriver.SpiLink.HeaderForTxReceived | Drivers/BSP/X-NUCLEO-IDB0xA1/stm32_bluenrg_ble_dma_lp.c:612-660 | a reply to a write is retried when not ready, or starts a transaction sized to the room; `TransmissionAnswersTheReplies` says which bytes the room is |
| SpiDriver.SpiLink.TxCallback | Drivers/BSP/X-NUCLEO-IDB0xA1/stm32_bluenrg_ble_dma_lp.c:727-762 | each of the two transmit completions is a step of the protocol |
| SpiDriver.SpiLink.TransmitClosure | Drivers/BSP/X-NUCLEO-IDB0xA1/stm32_bluenrg_ble_dma_lp.c:770-787 | the whole state after the end of a write |
| SpiDriver.SpiLink.TransmitManager | Drivers/BSP/X-NUCLEO-IDB0xA1/stm32_bluenrg_ble_dma_lp.c:794-836 | the channels that a transmit request programs |
| SpiDriver.SpiLink.ReceiveManager | Drivers/BSP/X-NUCLEO-IDB0xA1/stm32_bluenrg_ble_dma_lp.c:843-941 | the channels and the length that a receive request programs |
| PollingWriter.Bus.WriteOptimized | Drivers/BSP/X-NUCLEO-IDB0xA1/stm32_bluenrg_ble.c:353-400 | one optimised transaction: refused, or the header and as much payload as the room holds |
| PollingWriter.Bus.WriteSerialOptimized | Drivers/BSP/X-NUCLEO-IDB0xA1/stm32_bluenrg_ble.c:107-135 | one transaction for each attempt that is awake and has room for what is left of the first buffer, in order and with its room; together a prefix of the message, as long as those rooms are together allow; all of it exactly when the loop ends with nothing left; it gives up only when the time is up; a first buffer of 256 bytes or more is cut to its residue |
| PollingWriter.Bus.WritePlain | Drivers/BSP/X-NUCLEO-IDB0xA1/stm32_bluenrg_ble.c:402-466 | one plain transaction: the whole message when there is room, nothing otherwise |
| PollingWriter.Bus.WriteSerialPlain | Drivers/BSP/X-NUCLEO-IDB0xA1/stm32_bluenrg_ble.c:137-159 | nothing, or one transaction, in the last attempt; it is the whole message exactly when both lengths fit a byte; when it gives up no attempt had room, the last included |
| QspiFlash.ProgramInPage | Drivers/BSP/B-L475E-IOT01/stm32l475e_iot01_qspi.c:268-274 | a program that stays in its page does not wrap: it ANDs the data in place and changes nothing else |
| QspiFlash.NextChunk | Drivers/BSP/B-L475E-IOT01/stm32l475e_iot01_qspi.c:322-327 | the chunk after a chunk starts where that ended, at a page border, stays in a page and in the write, and is empty only at the end |
| QspiFlash.ChunkStartsAPage | Drivers/BSP/B-L475E-IOT01/stm32l475e_iot01_qspi.c:266-327 | chunk j of a write, for j > 0, begins at page address / page + j: the chunks take the pages in order |
| QspiFlash.ErasedReadsBack | Drivers/BSP/B-L475E-IOT01/stm32l475e_iot01_qspi.c:263-330 | data over erased flash is stored as it is |
| QspiFlash.Flash.WriteEnable | Drivers/BSP/B-L475E-IOT01/stm32l475e_iot01_qspi.c:836-874 | success means write-enabled and not busy |
| QspiFlash.Flash.ProgramChunk | Drivers/BSP/B-L475E-IOT01/stm32l475e_iot01_qspi.c:296-321 | one program under its own write enable leaves a prefix of the chunk: nothing before the data are transmitted, all of it after; all calls but a failing last one ended well |
| QspiFlash.Flash.BspWrite | Drivers/BSP/B-L475E-IOT01/stm32l475e_iot01_qspi.c:263-330 | all HAL calls before the last ended well, and success means the last did too; when it failed, its number says which chunk and step it belongs to, every chunk before is stored, and of that chunk nothing, a prefix or all, as the step says; nothing else has changed; on success each byte of the range is its old value ANDed with the data, with the calls of all chunks, and the device is ready again |
| QspiFlash.ChunkAfter | Drivers/BSP/B-L475E-IOT01/stm32l475e_iot01_qspi.c:324-327 | the chunk after chunk j is chunk j + 1 of the tiling, or chunk j was the last |
| QspiFlash.Flash.BspRead | Drivers/BSP/B-L475E-IOT01/stm32l475e_iot01_qspi.c:221-254 | success returns the memory at the address and of the size that the command carried, and comes exactly when both HAL calls end well and there is something to read |
| QspiFlash.Flash.WriteThenRead | Drivers/BSP/B-L475E-IOT01/stm32l475e_iot01_qspi.c:221-330 | a write over erased flash, then a read of the same range, return the data |
| QspiFlash.Flash.ResetMemory | Drivers/BSP/B-L475E-IOT01/stm32l475e_iot01_qspi.c:794-829 | success, exactly when every HAL call ends well, leaves the configuration at its reset values, not busy and not write-enabled |
| QspiFlash.Flash.QuadMode | Drivers/BSP/B-L475E-IOT01/stm32l475e_iot01_qspi.c:919-1000 | success, exactly when every HAL call ends well, changes the quad-enable bit and no other |
| QspiFlash.Flash.HighPerfMode | Drivers/BSP/B-L475E-IOT01/stm32l475e_iot01_qspi.c:1008-1105 | success, exactly when every HAL call ends well, changes the high-performance switch and no other bit of the three registers |
| QspiFlash.Flash.BspInit | Drivers/BSP/B-L475E-IOT01/stm32l475e_iot01_qspi.c:139-192 | success, exactly when every one of the 26 HAL calls ends well, sets both bits, keeps every other as after reset, and leaves the device ready |
| FixedPoint.ClipSaturates | Drivers/CMSIS/Include/arm_math.h:484-489 | the comparison of high and low word saturates every 64-bit value to 32 bits |
| FixedPoint.ClipQ15Saturates | Drivers/CMSIS/Include/arm_math.h:514-519 | `clip_q31_to_q15` saturates every 32-bit value |
| FixedPoint.ClipLongSaturates | Drivers/CMSIS/Include/arm_math.h:494-499 | `clip_q63_to_q15` gives the saturated upper part if and only if the value fits 31 bits or does not fit 32 |
| FixedPoint.ClipByteSaturates | Drivers/CMSIS/Include/arm_math.h:504-509 | `clip_q31_to_q7` saturates if and only if the value fits 8 bits, or does not fit 24, or its low byte happens to be the bound |
| FixedPoint.ByteIsNotClipped | Drivers/CMSIS/Include/arm_math.h:494-509 | for each of the two, the smallest positive value whose result has the wrong sign |
| FixedPoint.LongProduct | Drivers/CMSIS/Include/arm_math.h:525-531 | `mult32x64` is the exact product divided by 2^32, rounded down, with no intermediate overflow |
| FixedPoint.Ssat | Drivers/CMSIS/Include/arm_math.h:666-698 | the loop saturates to the range of the given number of bits |
| FixedPoint.QAddSubSaturate | Drivers/CMSIS/Include/arm_math.h:898-914 | `__QADD` and `__QSUB` are the exact sum and difference, saturated |
| PackedLanes.FieldAt | Drivers/CMSIS/Include/arm_math.h:716-719 | a shift up and an arithmetic shift down extract a field with its sign |
| PackedLanes.OrDisjoint | Drivers/CMSIS/Include/arm_math.h:721 | or-ing shifted fields that do not overlap adds them |
| PackedLanes.Packed8 | Drivers/CMSIS/Include/arm_math.h:716-721 | the bytes of the word put together are the numbers that were masked and shifted |
| PackedLanes.QAdd8 | Drivers/CMSIS/Include/arm_math.h:710-722 | each byte is the saturated sum of the bytes, as in section A7.7 of the Armv7-M Architecture Reference Manual |
| PackedLanes.QSub8 | Drivers/CMSIS/Include/arm_math.h:728-740 | each byte is the saturated difference |
| PackedLanes.QAdd16 | Drivers/CMSIS/Include/arm_math.h:746-757 | each half-word is the saturated sum |
| PackedLanes.QSub16 | Drivers/CMSIS/Include/arm_math.h:779-789 | each half-word is the saturated difference |
| PackedLanes.QAsx | Drivers/CMSIS/Include/arm_math.h:811-821 | exchanged halves: saturated difference below, sum above |
| PackedLanes.QSax | Drivers/CMSIS/Include/arm_math.h:843-853 | exchanged halves: saturated sum below, difference above |
| Reciprocal.Clz | Drivers/CMSIS/Include/arm_math.h:543-556 | the count places the leading one of every word that is not zero |
| Reciprocal.PassIdentity | Drivers/CMSIS/Include/arm_math.h:594-601 | the error after a Newton pass is the square of the error before it, and two rounding terms |
| Reciprocal.PassConverges | Drivers/CMSIS/Include/arm_math.h:594-601 | for any estimate in range: the next one is in range, never exceeds the reciprocal, and its error e' satisfies e^2 / 2h^2 <= e' < e^2 / 2h^2 + 3x |
| Reciprocal.PassQ31 | Drivers/CMSIS/Include/arm_math.h:596-600 | the clip of the q31 pass never fires |
| Reciprocal.PassQ15 | Drivers/CMSIS/Include/arm_math.h:647-650 | the unsigned product of the q15 pass does not wrap and the narrowing keeps its value |
| Reciprocal.TwoPassesQ31 | Drivers/CMSIS/Include/arm_math.h:594-601 | from a table good to seven bits the q31 result is below the reciprocal by less than 12 units |
| Reciprocal.TwoPassesQ15 | Drivers/CMSIS/Include/arm_math.h:645-652 | and the q15 result by less than 4 units |
| Reciprocal.RecipQ31 | Drivers/CMSIS/Include/arm_math.h:563-608 | the input is normalised, the table index is in range, the result is two passes from the entry and does not exceed the reciprocal; when the entry is good to seven bits, 2^61 - x dst is below 12 x |
| Reciprocal.RecipQ15 | Drivers/CMSIS/Include/arm_math.h:614-659 | the same for the q15 routine, with 2^29 - x dst below 4 x |
| Pid.Controller.Process | Drivers/CMSIS/Include/arm_math.h:4895-4916 | the state after a sample is the saturated recurrence over all samples since the reset, and the output is the accumulator of gains and old state, scaled and saturated, in plain numbers |
| Pid.TracksTheTextbook | Drivers/CMSIS/Include/arm_math.h:4742-4745 | over every run without saturation the output, scaled, trails Kp x + Ki sum(x) + Kd (x - previous x) by 0 to n (2^15 - 1) |
| Pid.PackedPath | Drivers/CMSIS/Include/arm_math.h:962-1000 | what the emulated dual multiplications accumulate, for all gains, states and samples |
| Pid.PackedController.Process | Drivers/CMSIS/Include/arm_math.h:4883-4916 | the packed path steps by that accumulator, with the extra product of signs and the one sum that wraps, in plain numbers |
| Pid.PathsAgree | Drivers/CMSIS/Include/arm_math.h:4883-4903 | the two paths differ by at most one unit if and only if not both old products are at their maximum, and by one exactly when the product of the signs carries into an unsaturated quotient |
| Pid.ControllerQ31.Process | Drivers/CMSIS/Include/arm_math.h:4829-4856 | the output is the low 32 bits of the total that all samples since the reset have added, and of the old output plus what the sample adds; the sums may wrap |
| Pid.SaturatesQ31 | Drivers/CMSIS/Include/arm_math.h:4818-4848 | the promised saturation comes out if and only if the sum with the old output fits 32 bits or is one of two numbers that do not |
| Pid.TotalTracks | Drivers/CMSIS/Include/arm_math.h:4829-4856 | over every run the unwrapped total, scaled, trails Kp x + Ki sum(x) + Kd (x - previous x) by 0 to n (2^31 - 1) |
| Pid.RecoversFromOverflow | Drivers/CMSIS/Include/arm_math.h:4844-4848 | over every run, whatever wrapped before: when the textbook value is in range, the output is within one unit a sample of it |
| CircularBuffer.HoldsOneMore | Drivers/CMSIS/Include/arm_math.h:5924-5939 | writing the next cell keeps the end of the stream in the ring |
| CircularBuffer.RingBuffer.Write | Drivers/CMSIS/Include/arm_math.h:5905-5943 | after blocks of any size the offset is the stream's length modulo the buffer's, and the buffer holds the last samples of the whole stream at their residues |
| CircularBuffer.RingBuffer.Read | Drivers/CMSIS/Include/arm_math.h:5949-5998 | the samples met from the offset on are in the destination ring, its other cells are as before, and the offset has moved by the block |
| CircularBuffer.ReadsTheLast | Drivers/CMSIS/Include/arm_math.h:5949-5998 | from m samples back the m samples met are the last of the stream, in order |
| Interpolation.LinearQ15Exact | Drivers/CMSIS/Include/arm_math.h:5548-5590 | no cast of the q15 function wraps, for any table of any length |
| Interpolation.LinearQ7Exact | Drivers/CMSIS/Include/arm_math.h:5605-5645 | nor of the q7 function, whose 32-bit accumulator and index mask lose nothing |
| Interpolation.LinearQ15Interpolates | Drivers/CMSIS/Include/arm_math.h:5548-5590 | the first entry below 0, the last entry from the last cell on, and between them the line through entries x / 2^20 and the next, at x % 2^20, to a unit and 2^-5 |
| Interpolation.LinearQ7Interpolates | Drivers/CMSIS/Include/arm_math.h:5605-5647 | the same for the q7 function |
| Interpolation.BetweenInHull | Drivers/CMSIS/Include/arm_math.h:5578-5588 | a result is between its two entries, or one below them when they are positive |
| Interpolation.BetweenNearTheLine | Drivers/CMSIS/Include/arm_math.h:5578-5588 | and misses the straight line between them by little more than a unit |
| Interpolation.LinearIsMonotone | Drivers/CMSIS/Include/arm_math.h:5548-5645 | on a nondecreasing table the result is nondecreasing over all coordinates from 0 on, across cell borders and the clamp |
| Interpolation.LinearIsMonotoneFromBelow | Drivers/CMSIS/Include/arm_math.h:5558-5569 | and over the negative ones too if and only if the first entry is not positive or the only one |
| Interpolation.BilinearQ15Accurate | Drivers/CMSIS/Include/arm_math.h:6892-6960 | zero outside the guard; inside it, with corners at x / 2^20 + columns (y / 2^20) and weights x % 2^20 and y % 2^20, no cast wraps and the result is within little more than a unit of nested linear interpolation and in the hull of the corners but for one unit |
| Interpolation.BilinearQ7Accurate | Drivers/CMSIS/Include/arm_math.h:6970-7034 | the same for the q7 function, within one unit |
| Interpolation.LinearQ15IsMonotone | Drivers/CMSIS/Include/arm_math.h:5548-5590 | so is the q15 function |
| Interpolation.LinearQ7IsMonotone | Drivers/CMSIS/Include/arm_math.h:5605-5647 | and the q7 function |
| Interpolation.GuardSuffices | Drivers/CMSIS/Include/arm_math.h:6915-6920 | for a table of rows by columns, the guard keeps the far corners of every cell inside if and only if those of the largest reachable indices are |
| Interpolation.SquareTableCells | Drivers/CMSIS/Include/arm_math.h:6915-6934 | which cells of a square table are inside, exactly |
| Interpolation.GuardAdmitsOpenCells | Drivers/CMSIS/Include/arm_math.h:6915-6920 | with no more rows than columns, no cell of the last column index is inside |
| Clarke.RoundTrip | Drivers/CMSIS/Include/arm_math.h:5014-5130 | when the cast and the addition lose nothing, transform and inverse return the first phase exactly and the second within -3 and +1 |
| Clarke.SaturatesAsPromised | Drivers/CMSIS/Include/arm_math.h:5002-5032 | the promised saturated sum comes out if and only if the second input is in the inner part of its range |
| Clarke.ProductWraps | Drivers/CMSIS/Include/arm_math.h:5029 | an input for which the result has the wrong sign |
| Clarke.ForwardAccurate | Drivers/CMSIS/Include/arm_math.h:5014-5033 | for the positive real root with 3 root^2 = 1: the second component is above (a + 2 b) root - 3 and below (a + 2 b) root + 1, whenever nothing is lost |
| BitReverse.Rbit | Drivers/CMSIS/Include/cmsis_gcc.h:526-545 | bit i of the result is bit 31 - i of the value, for every value |
| BitReverse.MirrorTwice | Drivers/CMSIS/Include/cmsis_gcc.h:526-545 | reversing twice gives the value back |
| BitReverse.LowZeros | Drivers/CMSIS/Include/cmsis_gcc.h:537-543 | what the last shift fills with zeros is zero in the mirror image |
| Nvic.Controller.SetPriority | Drivers/CMSIS/Include/core_cm0.h:688-700 | byte irq % 4 of the register, counted from the low end, becomes the priority modulo the implemented bits, shifted up, and no other byte of any register changes, from -8 to 31; so the interrupt gets the priority and no other interrupt's changes |
| Nvic.Controller.GetPriority | Drivers/CMSIS/Include/core_cm0.h:712-723 | that byte shifted down, which is what that map says |
| Nvic.OtherByteKept | Drivers/CMSIS/Include/core_cm0.h:692-698 | replacing one byte of a word leaves the other three |
| Nvic.BytesAfterWrite | Drivers/CMSIS/Include/core_cm0.h:692-698 | each byte of the word, by its number: the new one at irq % 4, the old ones elsewhere |
| Nvic.OwnByte | Drivers/CMSIS/Include/core_cm0.h:619-621 | two interrupts that share a word do not share a byte |

## Left out

- Preemption inside a callback: DMA, timer and interrupt callbacks are atomic steps.
- Real time: delays, pulse lengths, tick calibration and flag spinning are steps that may come at any moment, or never.
- The pin-direction workaround of the SPI header, and the variants of the driver that it selects.
- LinkProtocol.Enabled: a second command while one is outstanding, and a request for events during a read, are not modelled.
- LinkHangs.CarefulNeverHangs: says that something is outstanding, not that it will happen; a read that the controller closes as not ready leaves reception disabled until a write has ended.
- SpiDriver.SpiLink.ProcessEndOfReceive: that `HCI_read_packet` is the buffer of the last request is an assumption; no file here sets it.
- SpiDriver.SpiLink.RxCallback: the ready state is one reply byte; the further causes of a bad reply are not told apart.
- GPIO, clocks, reset, UART, I2C, ADC and sensor set-up code, and the second copy of the BlueNRG driver under B-L475E-IOT01.
- The read side of the polling driver.
- QspiFlash.Flash.BspWrite: requires that the range is in the device and that no address wraps at 2^32, and starts from an initialised device; erase, suspend, power-down and memory-mapped mode are left out.
- QspiFlash.Flash.TransmitRegisters: a write of registers that fails is taken to have written nothing.
- Reciprocal.RecipQ31: positive inputs only; the contents of the table are not part of this model, its entries are arbitrary.
- Reciprocal.RecipQ15: positive inputs only, as above.
- FixedPoint.Ssat: the signed overflow of its bound at 32 bits, which C leaves undefined, is taken as two's complement.
- CircularBuffer.RingBuffer.Write: unit increments, and buffers of at most 2^16 samples, which is what the 16-bit offset can address.
- CircularBuffer.RingBuffer.Read: unit increments, as above.
- Pid.PackedController.Process: 32-bit wrap-around of the sum of products, which C leaves undefined, is taken as two's complement.
- Pid.ControllerQ31.Process: 32-bit and 64-bit wrap-around of the sums, which C leaves undefined, is taken as two's complement.
- The halving packed operations, which have no saturation, the q31 interpolations, the floating-point functions, and the functions that the header only declares.
- Other compilers' CMSIS headers, inline assembly, and the priority code of the other cores.
