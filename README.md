# Stella: the F9 cartridge and the rewind manager, in Dafny

This project models two stateful parts of the Stella Atari 2600 emulator and
proves properties of them.

**The F9 bank-switching cartridge** (`CartridgeF9`). The cartridge holds a
ROM image of up to 1 MiB, split into 4 KiB banks. One bank at a time shows
in the cartridge window 0x1000-0x1FFF of the 8 KiB bus. Reading or writing
the hotspot 0x0FF9 selects another bank. Every switch rewrites the bus's
page-access table for the window:
- each 64-byte page from 0x1000 up to the hotspot page (page indices 64 to
  126) gets the selected bank as its direct-peek and code-access base;
- the hotspot loop installs an entry with only a code-access base, but under
  the raw address 0x1FC0 rather than under page index 127. Page 127 itself
  (0x1FC0-0x1FFF) keeps whatever entry it had before the switch.

The cartridge saves and loads its state as its name followed by the bank
number. The model is the class `CartF9.CartridgeF9` in `cart_f9.dfy`:
- the image is an `array`;
- the selected bank, the "bank changed" flag and the lock are fields;
- `Bank` runs the two page-table loops of the source against the bus in
  `system_bus.dfy`, whose page table is a `map` from the key the cartridge
  passes to the entry it installs.

Each method is proved against the page table `BankPages` it must leave
behind. The lemmas about `BankPages` then state what the bus sees through
that table.

**The rewind manager** (`RewindManager`). The manager keeps up to
`MAX_SIZE` = 112 machine snapshots, oldest first. Each snapshot holds its
serialized machine state and the TIA's cycle and frame counters.
- `addState` appends a snapshot. When the list is full, it first compresses it.
- `compressStates` scans backwards from the 61st newest snapshot and thins
  runs of equal cycle distance. It then drops the second-oldest snapshot if
  a run was still open or nothing was freed.
- `rewindState` picks the snapshot to go back to and the message to show.

The list is a `seq` field of the class `Rewind.RewindManager`
(`rewind_manager.dfy`), and the debug frame list is an `array`. The scan is
specified by the function `RewindStates.Compressed` (`rewind_states.dfy`).
The method's loop is proved to compute that function. The lemmas then
prove what the function keeps:
- the oldest snapshot;
- the 60 newest snapshots;
- the order of the survivors;
- a free slot when the list was full.

Collaborators are parameters:
- whether the state manager and the TIA could serialize the machine, and the blob they produced;
- the TIA's cycle, frame and scanline counters.

`rewindState` returns, instead of loading it, the index of the snapshot it
would load, together with the message it would show.

The cartridge's save stream (`serializer.dfy`) is a sequence of typed items.

Integer widths of the C++ source are written out in `machine_types.dfy`:
- `u8` to `u64` subset types;
- 64-bit wrap-around subtraction;
- truncation to 32 bits;
- bitwise or on 16-bit values, done arithmetically.

## Model

| member | source | states |
|---|---|---|
| MachineTypes.Sub64 | src/common/RewindManager.cxx:127 | an unsigned 64-bit difference is the plain difference when it is non-negative, and wraps by 2^64 otherwise |
| MachineTypes.Trunc32 | src/common/RewindManager.cxx:159 | assigning a 64-bit value to a `uInt32` keeps every value below 2^32 unchanged |
| MachineTypes.Trunc32Wraps | src/common/RewindManager.cxx:159 | the 32-bit value differs from the 64-bit one by a whole multiple of 2^32, and is smaller whenever the 64-bit value does not fit |
| MachineTypes.OrBits | src/emucore/CartF9.cxx:66-67 | the bitwise or of two n-bit values stays below 2^n and is at least each operand |
| MachineTypes.Or16 | src/emucore/CartF9.cxx:66-67 | `myCurrentBank \| byte` is a 16-bit value no smaller than either operand |
| SystemBus.PageStart | src/emucore/CartF9.cxx:99 | `x & ~PAGE_MASK` is the largest multiple of PAGE_SIZE not above x |
| SystemBus.System.SetPageAccess | src/emucore/CartF9.cxx:103 | the bus stores the entry under the key given and changes no other entry |
| Serialization.ReadRecord | src/emucore/CartF9.cxx:165-168 | a load succeeds exactly when the stream starts with the expected name followed by a 16-bit value, and then yields that value |
| Serialization.RecordRoundTrip | src/emucore/CartF9.cxx:144-168 | reading back a saved name-and-bank record gives the saved bank, whatever follows it |
| Serialization.ForeignRecordRefused | src/emucore/CartF9.cxx:165-166 | a record written under another name is refused |
| CartF9.HotPageIsPageOfHotspot | src/emucore/CartF9.cxx:99-107 | the hotspot page starts at 0x1FC0 (offset 0xFC0 within a bank, page index 127), and the 1 MiB buffer holds 256 banks |
| CartF9.HotspotKeysOfBus | src/emucore/CartF9.cxx:99-104 | the hotspot loop visits the single page start 0x1FC0 |
| CartF9.BankPagesWindow | src/emucore/CartF9.cxx:107-113 | after a switch, every window page from 0x1000 up to the hotspot page has its peek base and its code base at `bank*4096 + (addr & 0xFFF)` |
| CartF9.BankPagesHotspot | src/emucore/CartF9.cxx:99-104 | after a switch, the hotspot entry has no peek base and its code base is the bank's offset 0xFC0 |
| CartF9.BankPagesElsewhere | src/emucore/CartF9.cxx:99-113 | a switch leaves every other key of the table as it was, page 127 included |
| CartF9.MapHotspotPages | src/emucore/CartF9.cxx:98-104 | the hotspot loop leaves the table with the code-only entry under each hotspot page address and every other entry as before |
| CartF9.MapWindowPages | src/emucore/CartF9.cxx:106-113 | the window loop leaves the table with the bank's entry under each window page index and every other entry as before |
| CartF9.WindowReadsBank | src/emucore/CartF9.cxx:107-113 | a direct bus read of any address in the window below the hotspot page returns the selected bank's byte at the low 12 address bits |
| CartF9.PeekIndexIgnoresBank | src/emucore/CartF9.cxx:70 | the index `(bank << 12) + address & 0xfff` equals `address & 0xfff`, so the bank never affects it |
| CartF9.WindowReadMissesHotspot | src/emucore/CartF9.cxx:64-79 | a read of 0x1FF9 does not trip `peek`'s comparison although a write to it trips `poke`'s, and every address `peek` trips on also trips `poke` |
| CartF9.CartridgeF9.BankCount | src/emucore/CartF9.cxx:124-127 | the bank count is the number of whole 4 KiB banks in the ROM: between 1 and 256 |
| CartF9.CartridgeF9.constructor | src/emucore/CartF9.cxx:25-36 | the ROM is copied into the buffer, its size is kept, and the start bank is 0 |
| CartF9.CartridgeF9.Bank | src/emucore/CartF9.cxx:88-115 | when locked: returns false and changes nothing. Otherwise: selects `b % bankCount`, rebuilds the page table as `BankPages`, sets the changed flag and returns true |
| CartF9.CartridgeF9.Reset | src/emucore/CartF9.cxx:39-43 | a reset is a switch to the start bank |
| CartF9.CartridgeF9.Install | src/emucore/CartF9.cxx:46-52 | install remembers the bus and switches to the start bank in it |
| CartF9.CartridgeF9.Peek | src/emucore/CartF9.cxx:55-71 | a read returns bank 0's byte at the low 12 bits. A read of exactly 0x0FF9 first switches to `currentBank \| image[0xFF9]`. Any other read changes nothing |
| CartF9.CartridgeF9.PeekIntended | src/emucore/CartF9.cxx:55-71 | a read returns the selected bank's byte, read before any switch. The switch, to `currentBank \| that byte`, happens exactly when the low 12 bits are 0x0FF9 |
| CartF9.CartridgeF9.Poke | src/emucore/CartF9.cxx:74-85 | a write always returns false. It switches to the written value exactly when the low 12 bits are 0x0FF9, and otherwise changes nothing |
| CartF9.CartridgeF9.GetBank | src/emucore/CartF9.cxx:118-121 | returns the selected bank and changes nothing |
| CartF9.CartridgeF9.Patch | src/emucore/CartF9.cxx:130-134 | exactly one byte of the selected bank changes, the lock is ignored, the changed flag is set and the result is true |
| CartF9.CartridgeF9.Save | src/emucore/CartF9.cxx:144-158 | the record written is the name then the bank, and reading it back yields the bank |
| CartF9.CartridgeF9.Load | src/emucore/CartF9.cxx:161-180 | succeeds exactly when the stream holds this cartridge's record, and changes nothing otherwise. On success it stores the bank unwrapped and runs `bank` on it, whose lock decides whether the bank is wrapped and the table rebuilt |
| RewindStates.RemoveAt | src/common/RewindManager.cxx:167-169 | erasing one list element leaves the others in order, one shorter |
| RewindStates.RemoveAtSubsequence | src/common/RewindManager.cxx:167-169 | erasing one element leaves a subsequence |
| RewindStates.SubsequenceTrans | src/common/RewindManager.cxx:149-184 | successive erasures leave a subsequence of the original list |
| RewindStates.ScanBody | src/common/RewindManager.cxx:158-174 | a pass keeps the scan invariant: the counter stays bounded by the part scanned, and the distance to the oldest end shrinks by one |
| RewindStates.ScanBodyErasesAtRunEnd | src/common/RewindManager.cxx:158-174 | a pass erases exactly when the step changes after at least MERGE_COUNT equal steps. The erased entry is the one two newer than `rit`, and the counter becomes 2. A change of step without an erase resets the counter to 1; an equal step increments it |
| RewindStates.ScanFrom | src/common/RewindManager.cxx:157-175 | the scan ends at the oldest entry, never grows the list and keeps more than SINGLE_STEPS entries |
| RewindStates.RemoveAtKeepsEnds | src/common/RewindManager.cxx:167-181 | an erase between the oldest entry and the SINGLE_STEPS newest keeps both |
| RewindStates.ScanBodyKeepsEnds | src/common/RewindManager.cxx:156-174 | a pass keeps the oldest entry and the SINGLE_STEPS newest |
| RewindStates.ScanKeepsEnds | src/common/RewindManager.cxx:156-175 | the whole scan keeps the oldest entry and the SINGLE_STEPS newest |
| RewindStates.ScanBodySubsequence | src/common/RewindManager.cxx:158-174 | a pass leaves a subsequence of its input |
| RewindStates.ScanIsSubsequence | src/common/RewindManager.cxx:157-175 | the scan leaves a subsequence of its input |
| RewindStates.CompressedFreesSlot | src/common/RewindManager.cxx:177-182 | compressing a full list frees at least one slot |
| RewindStates.CompressedSize | src/common/RewindManager.cxx:149-184 | compression never grows the list and keeps more than SINGLE_STEPS entries |
| RewindStates.CompressedKeeps | src/common/RewindManager.cxx:149-184 | compression keeps the oldest entry and the SINGLE_STEPS newest, and the survivors keep their order |
| RewindStates.FrameDeltas | src/common/RewindManager.cxx:192-202 | one frame difference per snapshot |
| RewindStates.FrameDeltasRebuild | src/common/RewindManager.cxx:192-202 | the oldest snapshot's difference is 0, and each frame count is the one before it plus its difference, modulo 2^64: the deltas give back every frame count |
| Rewind.MessageUnitMonotone | src/common/RewindManager.cxx:134-143 | a larger distance never gets a finer unit. "cycle(s)" is used exactly below 76 cycles, and "minute(s)" exactly when every threshold up to 76·262·60·60 is reached |
| Rewind.Decimal | src/common/RewindManager.cxx:135-143 | an unsigned number prints as at least one decimal digit |
| Rewind.GetMessage | src/common/RewindManager.cxx:123-146 | the message as written always starts "Rewind ", because the unsigned difference is never negative |
| Rewind.GetMessageIntended | src/common/RewindManager.cxx:123-146 | the corrected message also always starts "Rewind " |
| Rewind.AsWrittenFramesAndSecondsAreZero | src/common/RewindManager.cxx:138-141 | as written, every distance shown in frames or in seconds prints as 0 |
| Rewind.TwoFramesBehind | src/common/RewindManager.cxx:138-139 | two 262-line frames back prints "Rewind 0 frame(s)" as written, and "Rewind 2 frame(s)" once corrected |
| Rewind.AmountIntendedCountsUnits | src/common/RewindManager.cxx:134-143 | with the corrected scaling, the amount shown is the number of whole units in the distance: at most the distance, which is less than one unit more |
| Rewind.IntendedAmountsInRange | src/common/RewindManager.cxx:134-143 | with the corrected scaling, frames shown are under 60, seconds between 1 and 59, and minutes at least 1 |
| Rewind.AddedWithinCapacity | src/common/RewindManager.cxx:47-61 | adding a snapshot keeps at most MAX_SIZE entries and puts the new one last. The entries before it are a subsequence of the old list; the oldest and the SINGLE_STEPS newest before the cursor are kept |
| Rewind.PrefixSubsequence | src/common/RewindManager.cxx:47-48 | dropping entries after the cursor leaves a subsequence |
| Rewind.RewindManager.constructor | src/common/RewindManager.cxx:28-35 | the list starts empty, the cursor at its end, and both counters at 0 |
| Rewind.RewindManager.Clear | src/common/RewindManager.hxx:88 | the list is emptied, and the counters are unchanged |
| Rewind.RewindManager.AddState | src/common/RewindManager.cxx:38-81 | when serialization fails: returns false and changes nothing. Otherwise: the list becomes `Added` of the old list and cursor, the cursor goes to the end, the counter increments modulo 2^32, the last frame count is kept, and the frame list is rebuilt |
| Rewind.RewindManager.CompressStates | src/common/RewindManager.cxx:149-184 | the loop leaves exactly `Compressed` of the old list, the cursor at the end, and the frame list rebuilt |
| Rewind.RewindManager.DebugList | src/common/RewindManager.cxx:192-202 | the frame list holds 0 for the oldest snapshot and, for every other snapshot, its 64-bit frame difference to the one before. Later slots are untouched |
| Rewind.RewindManager.RewindState | src/common/RewindManager.cxx:84-105 | returns false exactly on an empty list, and never changes the list. A debugger rewind picks the newest snapshot; an emulation rewind picks the newest one at least ¾·FRAME_CYCLES back. The message is `getMessage` as written, for the picked snapshot's cycles |
| Rewind.RewindManager.UnwindState | src/common/RewindManager.cxx:108-120 | returns exactly whether the list is non-empty, and changes nothing |
| Rewind.RewindManager.RewindDebuggerState | src/common/RewindManager.hxx:55-58 | a debugger rewind picks the newest snapshot, with the message as written |
| Rewind.RewindManager.RewindEmulationState | src/common/RewindManager.hxx:64-67 | an emulation rewind picks the newest snapshot far enough back, with the message as written |
| Rewind.RewindManager.UnwindDebuggerState | src/common/RewindManager.hxx:74-77 | same as `unwindState` |
| Rewind.RewindManager.UnwindEmulationState | src/common/RewindManager.hxx:82-85 | same as `unwindState` |

The constants of RewindManager.hxx:93-98 (FRAME_CYCLES = 1194720,
MAX_SIZE = 112) are checked by `RewindStates.Constants`. The `RewindState`
record of RewindManager.hxx:103-107 is the datatype
`RewindStates.Snapshot`. `empty()` (RewindManager.hxx:87) is the
predicate `Rewind.RewindManager.Empty`.

Proof helpers, which carry no row of their own: `CartF9.HotspotStep` and
`CartF9.WindowStep` (one pass of each page-table loop),
`CartF9.WindowAddressing` (page arithmetic inside the window),
`CartF9.ModuloShift` (offsets modulo 4096), `RewindStates.Advance` and
`RewindStates.ScanFromStep` (one pass of the scan),
`RewindStates.SubsequenceRefl` and `RewindStates.SubsequenceDropHead`
(subsequence facts), `Rewind.UnitLength` and `Rewind.DivBelow` (unit
arithmetic).

## Left out

- Serialization byte layout: `Serializer` is not part of this model. A saved state is a sequence of typed items; the snapshot blob is an opaque byte sequence.
- `StateManager::saveState/loadState`, `TIA::saveDisplay/loadDisplay`, `FrameBuffer::showMessage`: their effects are outside the model. `addState` receives their success as a flag; `rewindState` returns the index and message instead of loading and showing them.
- `System` internals: System.hxx and System.cxx are not part of this model. PAGE_SHIFT is taken as 6, i.e. 64-byte pages. The page table is a map from the key passed to `setPageAccess` to the entry. The hotspot loop passes the raw address 0x1FC0 as that key, not page 127. The model keeps that key as written and does not model what the bus does with it; page 127's entry is left as it was.
- SystemBus.DirectPeek: an assumed model of how `System::peek` reads through a page's direct-peek base (page index = address bits 6-12, byte = base + low 6 bits); System.cxx is not part of this model, so `CartF9.WindowReadsBank` holds only as far as this assumption does.
- Code-access tracking: `createCodeAccessBase` and the contents of `myCodeAccessBase` are not modelled; entries carry only offsets into it.
- `getImage`: not modelled; it only returns the buffer and its size.
- The lock: `bankLocked()` lives in the cartridge base class, which is not part of this model. The lock is a field that the debugger would set. No method here changes it.
- Exceptions and `cerr` logging in `save`/`load`: a failed read is the `None` of `ReadRecord`. The stream failing on write is not modelled, so `Save` always succeeds.
- CartF9.CartridgeF9.constructor: requires a ROM of at least one bank and at most 1 MiB. With less, `bank` divides by zero; with more, `bank` and `patch` address bytes past the buffer.
- CartF9.CartridgeF9.Patch: requires the selected bank to lie inside the buffer. Only `load` under the lock can store a bank past it, and then the source writes outside `myImage`.
- Rewind.RewindManager.RewindState: requires, for a coarse rewind, some snapshot far enough back. The source's search has no bound and runs past the oldest snapshot otherwise.
- Rewind.RewindManager.CompressStates: requires the cursor at the end and more than SINGLE_STEPS snapshots. That is how `addState` calls it: on a full list of 112, after dropping everything past the cursor.
- Rewind.RewindManager.Clear: sets the cursor index to 0. The source leaves the `end()` iterator alone, which after the clear is still the end of the empty list.
- The cursor: it is an index, not a list iterator. It is always the end after any operation, so the truncation loop of `addState` is modelled but is a no-op.
- MachineTypes.Trunc32: its own contract states only that values below 2^32 are kept; the congruence modulo 2^32 is stated by `MachineTypes.Trunc32Wraps`.
- MachineTypes.OrBits: its contract states the bounds of a bitwise or, not each bit; the bits are fixed only by its definition.
- MachineTypes.Or16: the same bounds, for 16-bit operands; only the lower bounds are used by the cartridge's contracts.
- Rewind.GetMessage: its contract states only the "Rewind " prefix; the unit and the amount it prints are stated by `MessageUnitMonotone`, `AsWrittenFramesAndSecondsAreZero` and `TwoFramesBehind`.
- Rewind.GetMessageIntended: its contract states only the "Rewind " prefix; the amount it prints is stated by `AmountIntendedCountsUnits` and `IntendedAmountsInRange`, and the unit by `MessageUnitMonotone`.
- Rewind.Decimal: its contract states that the result is a non-empty string of digits, not its numeric value.
- `deleteState` is empty in the source and is not modelled.
- `myStateCount` wraps at 2^32 as a `uInt32` does. The `size`/`thisFrames` locals of `addState` are never read and are not modelled.

## Findings

| source | as written | input that shows it | evidently intended | confidence | as-written member | corrected member |
|---|---|---|---|---|---|---|
| src/emucore/CartF9.cxx:70 | `(myCurrentBank << 12) + address & 0xfff` parses as `((bank << 12) + address) & 0xfff`, which is `address & 0xfff`: `peek` always reads bank 0 | selected bank 1, `peek(0x1000)` returns `image[0]`, not `image[4096]` | `(myCurrentBank << 12) + (address & 0xfff)`, read before the switch | high (not executed) | CartF9.PeekIndexIgnoresBank | CartF9.CartridgeF9.PeekIntended |
| src/emucore/CartF9.cxx:64 | `peek` compares the whole address with 0x0FF9, while `poke` masks it to 12 bits first | a read of the hotspot through the window, `peek(0x1FF9)`, does not switch; `poke(0x1FF9, v)` does | compare `address & 0x0FFF` as `poke` does | medium (not executed) | CartF9.WindowReadMissesHotspot | CartF9.CartridgeF9.PeekIntended |
| src/common/RewindManager.cxx:139-143 | the "frame(s)" amount is divided by 76·262·60, "second(s)" by 76·262·3600 and "minute(s)" by 76·262·216000 | a distance of two 262-line frames (39824 cycles) prints "Rewind 0 frame(s)" | divide by 76·262, 76·262·60 and 76·262·3600 | high (not executed) | Rewind.TwoFramesBehind | Rewind.AmountIntendedCountsUnits |

The rewind manager's `RewindState` builds its message with `GetMessage`, as
written; `GetMessageIntended` is the corrected definition. The cartridge model
keeps both `Peek` (as written) and `PeekIntended`.
