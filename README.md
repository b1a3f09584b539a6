# DT5742 digitizer driver: register helpers and acquisition loop

A Dafny model of the logic in the driver for the CAEN DT5742 waveform digitizer
(`test/DT5742.cxx`). Two parts of that file have behaviour worth stating:

- **Register access helpers.** `channelOffset` selects a channel in a group's
  channel-select latch and reads back the group's DC offset register. It returns the
  offset's low 16 bits. `writeDCOffset` checks the arguments and then reads the group
  status register. If the group is not busy, it writes the channel and offset, packed
  into one 32-bit word, to the group's offset register.
- **Acquisition loop** (`DT5742::Read`). The loop polls the acquisition status register
  0x8104 and decodes three bits: running, event ready and buffer full. It counts polls
  that see the buffer full. On ready it drains one event buffer into the output file;
  otherwise it counts a pass with no reading. A two-state "in spill" flag records
  whether the last drain (or the loop start) is at most one second ago. The loop stops
  only when the target event count is reached and no spill is in progress.

Files:

- `vendor.dfy` — module `Vendor`. The vendor register layer is modelled as a class
  `Digitizer`. It holds a register file (a map from 32-bit addresses to 32-bit words)
  and a ghost trace of every register access with its outcome. `ReadRegister` and
  `WriteRegister` choose their success flag nondeterministically, so callers' contracts
  must hold for every outcome. A failed write changes nothing (an assumption, see Left out). A failed read returns an
  unspecified value. An address never written reads as zero.
- `registers.dfy` — module `Registers`: `ChannelOffset` and `WriteDCOffset` as methods
  on a `Digitizer` (the C functions take the device handle). It also holds the pure
  address selection and word packing, and a round-trip client.
- `acquisition.dfy` — module `Acquisition`: the polling loop as the method `Read`. `Read`
  is proved against `Replay`, a left fold of the single-pass function `Step` (the loop follows `ReplayN`, the same fold written over an index, and `ReplayNPrefix` equates the two). Separate
  reference definitions (`CountReady`, `CountFull`, `ReadyData`, `LastDrain`) and
  induction lemmas connect `Replay` to the properties the code depends on.

Inputs that come from hardware or the operating system are parameters of `Read`. For
each pass, a `Poll` carries:

- the status word the register read left in `reg`;
- the buffer the data read returns;
- the clock reading at the drain (line 284);
- the clock reading at the spill decision (line 295).

The clock is an integer count of nanoseconds (`TicksPerSecond`). The loop is bounded by
the number of passes supplied. The output file is the sequence of buffers written to it.

## Model

| member | source | states |
|---|---|---|
| `Vendor.Digitizer.ReadRegister` | test/DT5742.cxx:42 | a register read changes no register, is recorded in the trace with its outcome, and on success returns the register's content |
| `Vendor.Digitizer.WriteRegister` | test/DT5742.cxx:33 | a register write is recorded with its outcome, and updates exactly the addressed register if it succeeds and nothing otherwise |
| `Registers.GroupRegistersDisjoint` | test/DT5742.cxx:22-31 | each group's select, offset and status registers are three distinct addresses, and groups 0 and 1 share none |
| `Registers.PackOffset` | test/DT5742.cxx:90-91 | for channels 0-7 and offsets below 65536, the low 16 bits of the written word are the offset and bits 16 and up are the channel |
| `Registers.ChannelOffset` | test/DT5742.cxx:10-46 | channel > 7 or group > 1: returns 0 with no access. Otherwise it writes the channel to 0x10A4 (group 0) or 0x11A4 (group 1). If that write fails it returns 0 without reading. Otherwise it reads 0x1098 or 0x1198, and on a successful read returns that register's low 16 bits. Only the select latch changes, and the result is always below 65536 |
| `Registers.WriteDCOffset` | test/DT5742.cxx:48-102 | channel > 7, group > 1 or offset > 65536: false with no access. Otherwise it reads 0x1088 or 0x1188 and returns false with no write if that read fails or bit 1 is set. Otherwise it makes exactly one write, of the offset OR-ed with the channel shifted left by 16, to 0x1098 or 0x1198. It returns true exactly when that write succeeds, and no other register changes |
| `Registers.RestoreOffset` | test/DT5742.cxx:10-102 | whatever the vendor calls return, no register but the group's select latch and offset register changes. When every call succeeds and the group is not busy, the second read gives the value first read (the register's low 16 bits), and afterwards the select latch holds the channel and the offset register holds that value with the channel number in bits 16 and up: only the low 16 bits of the original content survive |
| `Registers.GuardAdmitsOverflowingOffset` | test/DT5742.cxx:70-73 | the offset check as written admits 65536, and packing 65536 for channel 0 gives the same word as channel 1 with offset 0 |
| `Registers.OffsetWord` | test/DT5742.cxx:70-91 | with the 16-bit range check, a word is produced exactly for channels 0-7 and offsets 0-65535, and both are recovered from it |
| `Acquisition.DecodeStatus` | test/DT5742.cxx:267-269 | running, ready and buffer-full are bits 2, 3 and 4 of the status word |
| `Acquisition.StatusBits` | test/DT5742.cxx:267-269 | decoding ignores every bit but 2-4 and is inverted by encoding those three bits |
| `Acquisition.Step` | test/DT5742.cxx:263-303 | one pass adds one iteration, and one buffer-full count exactly when bit 4 is set. A pass with bit 3 set adds one recorded event, leaves the no-reading count, and appends that pass's buffer to the output. Any other pass adds one no-reading count and leaves the event count and the output as they were |
| `Acquisition.ReplayCounters` | test/DT5742.cxx:249-293 | after any sequence of passes: iterations = passes, recorded events = ready passes, no-reading count = the other passes, buffer-full count = passes with bit 4 set |
| `Acquisition.CounterInvariant` | test/DT5742.cxx:311-315 | iterations == recorded events + no-reading passes, and buffer-full count <= iterations, after any number of passes, so the statistics warning never fires |
| `Acquisition.OutputIsReadyData` | test/DT5742.cxx:274-283 | the output file holds exactly the buffers of the ready passes, one per ready pass, in poll order |
| `Acquisition.OutputOnlyGrows` | test/DT5742.cxx:239-282 | what the file holds after the first k passes is a prefix of what it holds after all of them: it is only appended to |
| `Acquisition.SpillState` | test/DT5742.cxx:253-303 | the idle clock is the last drain time (or the start time); the spill flag is false before any pass, and after a pass it is false exactly when more than one second separates that pass's check from the last drain |
| `Acquisition.IdleUntilNextReady` | test/DT5742.cxx:295-303 | with a clock that does not run backwards, once the spill has ended it stays ended until a pass finds an event ready |
| `Acquisition.Read` | test/DT5742.cxx:228-323 | the result is the state after the passes taken. The loop condition held before every pass taken, and unless the passes ran out the loop stopped with events >= target and no spill. The counters match the ready and full passes, with iterations == events + no-reading. The file holds one buffer per ready pass in order. With a target <= 0 no pass is taken |
| `Acquisition.SpillScenario` | test/DT5742.cxx:255-303 | with a target of 3, three close events followed by a pass more than a second later: the loop continues past the target while in spill and stops at the idle pass, with exactly the three buffers written in order |

## Left out

- `DT5742::Init`, `Close`, `PrintInfo`, `printTriggerMode`, `printFrequency` and `PrintLastErrorCode`: a fixed sequence of vendor configuration calls, a 500 ms sleep, `exit(1)` on open failure, and diagnostic printing. There is no logic in them beyond constants.
- The vendor calls `AllocateEvent`, `MallocReadoutBuffer`, `SWStartAcquisition` and `SWStopAcquisition` in `Read` (lines 235-236, 243 and 318): their error codes are stored in `fLastErrorCode`, then overwritten or printed, and never change the loop. The event and readout buffers they allocate are not modelled, and neither is the value `fLastErrorCode` keeps after `Read` (the `SWStopAcquisition` result).
- The data read's error code in `Read` (line 280): it is only printed, and the buffer is written regardless. A `Poll`'s `data` is whatever the buffer holds.
- A failed status read in `Read` (line 263): the code interprets `reg` anyway. A `Poll`'s `status` stands for whatever word `reg` holds, so there is no separate error flag.
- `Read`'s `int` return value (always 0): `Read` returns the final loop state instead. The progress print every 1000 passes and the statistics prints are not modelled. The check at line 311 is proved never to fire.
- File handling: the output file is a sequence of written buffers. Opening, truncation and closing are not modelled, and neither is the byte-level concatenation.
- Clock: `steady_clock` and `duration<double>` become integer nanosecond ticks. `elapsed.count() > 1` becomes an exact integer comparison, so floating-point rounding is not modelled.
- Acquisition.Read: the counters are unbounded naturals, so the overflow of the C `int` counters after 2^31 passes is not modelled. The loop is bounded by the passes supplied; a loop that never ends because the hardware keeps it in a spill is not captured.
- Vendor call outcomes: that a failed `CAEN_DGTZ_WriteRegister` leaves every register as it was, and that a failed read changes none, is an assumption about the vendor library, which is not part of this model. The "nothing changes" clauses of `Registers.ChannelOffset` and `Registers.WriteDCOffset` on their failure paths rest on it.
- Register semantics defined by the hardware: the register file is plain storage. The model does not capture that the select latch decides which channel's offset the offset register shows. An address never written reads as zero.
- The diagnostic messages of `channelOffset` and `writeDCOffset` (`std::cerr`).
- `test/test.cc` (the driver with a fixed target of 25000 events) and `test/DT5742.h` (the class declaration) are not part of this model.

Where the code's own error message and its check disagree, the model follows the check. The offset check of
`writeDCOffset` admits 65536, as written (see Findings). `channelOffset` ignores the
result of its read, so after a failed read it returns an unspecified value, masked to 16
bits.

## Findings

| source | as written | input that shows it | evidently intended | confidence | as-written member | corrected member |
|---|---|---|---|---|---|---|
| test/DT5742.cxx:70 | `offset > 65536` rejects only offsets above 65536 | group 0, channel 0, offset 65536: passes the check and writes 0x00010000 to 0x1098, the word for channel 1 with offset 0 | reject offsets above 65535, the largest 16-bit value, as the message "only have 16-bits" says | not executed | `Registers.GuardAdmitsOverflowingOffset` | `Registers.OffsetWord` |

`Registers.WriteDCOffset` keeps the check as written, because it models the code.
`Registers.OffsetWord` is the corrected check together with the packing. It is defined
exactly for offsets that fit the 16-bit field, and for those the channel and offset are
recovered from the packed word.
