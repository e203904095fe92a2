# CHIP-8 core of Hahnium.Chip8, modelled in Dafny

The model covers the core of the Hahnium.Chip8 emulator:

- **Platform** (`Chip8Platform`): 4 KiB of RAM with the ROM image copied to 0x200, and one step of the machine, which is one CPU cycle followed by one display cycle.
- **CPU** (`Chip8Cpu`) fetch/decode/execute, with the four instruction families the code implements:
  - family 0, which changes no modelled state;
  - 1NNN, jump;
  - 2NNN, call. It pushes both `pc` and the index register onto a 48-slot stack;
  - ANNN, set the index register.

  Every other family throws after `pc` has advanced.
- **Display unit** (`Chip8Ppu`):
  - the sprite-pixel mask built by the static constructor;
  - the SIMD sprite compositor `Draw`;
  - the scalar compositor `DrawOld`;
  - the frame gate of `Cycle`, which passes one call in 8 and counts the delay timer down on each pass.
- **Bit-field helpers**: `GetNibble` and `GetByte`.

Files:

- `bits.dfy` (module `Bits`): `GetNibble` and `GetByte` on 16-bit words. C# masks the shift count of an `int` shift to five bits, and this is written out as `% 32`.
- `cpu.dfy` (module `Cpu`):
  - the value-level specification `Step`;
  - the class `Chip8Cpu`, whose `Cycle` method is proved to implement `Step`;
  - lemmas on each family's effect and on the stack pointer.
- `compositor.dfy` (module `Compositor`):
  - `DrawRows` and `DrawCollides` specify `Draw` row by row.
  - `DrawOldCells` and `DrawOldCollides` specify `DrawOld` as a closed form over cells.
  - `OldRowPixels` and `OldRows` restate the closed form loop by loop.
  - Lemmas about all of these.
- `ppu.dfy` (module `Ppu`): the class `Chip8Ppu`, whose loops are proved against the compositor specifications, plus the frame-gate counters.
- `platform.dfy` (module `Platform`): ROM loading, construction with its failure cases, and the combined cycle.
- `wrappers.dfy` (module `Wrappers`): `Option` and `Result`.

The code departs from the usual CHIP-8 conventions, and the model follows the code:

- A call pushes two entries, `pc` and then `address`, onto a 48-entry stack. It is not one return address on a 16-entry stack.
- `00EE` does nothing. It does not return.
- The SIMD `Draw` finds its window by reducing one linear offset, not by wrapping each axis.
- `DrawOld` clips cells past the end of the buffer and does not wrap at all.
- The delay timer is decremented by the display unit's `Cycle`.

The display is 64 cells wide in both compositors. Its width appears as the literal 64 in the arithmetic.

## Model

| member | source | states |
|---|---|---|
| Bits.GetNibble | Hahnium.Chip8/Extensions.cs:9 | a nibble is below 16 |
| Bits.GetByte | Hahnium.Chip8/Extensions.cs:11 | byte `byteId` of the word, after C#'s five-bit shift-count mask; a byte, and never more than the word |
| Bits.NibbleShifts | Hahnium.Chip8/Extensions.cs:9 | nibble ids 0..3 shift by 0, 4, 8 and 12 bits and mask 4 bits |
| Bits.ByteShifts | Hahnium.Chip8/Extensions.cs:11 | byte 0 is the word mod 256 and byte 1 is the word div 256 |
| Bits.NibbleDigits | Hahnium.Chip8/Extensions.cs:9 | nibble i is the i-th hexadecimal digit of the word, and nibble 3 needs no mask |
| Bits.NibblesReassemble | Hahnium.Chip8/Extensions.cs:9 | the four nibbles, weighted by 16^i, sum back to the word |
| Bits.BytesReassemble | Hahnium.Chip8/Extensions.cs:11 | high byte * 256 + low byte is the word |
| Bits.TopNibble | Hahnium.Chip8/Extensions.cs:9 | nibble 3 is `value >> 12`, and together with the low 12 bits it rebuilds the word |
| Bits.NibblesOfBytes | Hahnium.Chip8/Extensions.cs:9-11 | nibbles 2k and 2k+1 are the low and high halves of byte k |
| Bits.NibbleIdsWrap | Hahnium.Chip8/Extensions.cs:9 | with the shift count masked to 5 bits, nibble ids repeat with period 8, and ids 4..7 read 0 |
| Bits.ByteIdsWrap | Hahnium.Chip8/Extensions.cs:11 | byte ids repeat with period 4, and ids 2 and 3 read 0 |
| Cpu.Family | Hahnium.Chip8/Chip8Cpu.cs:28 | the top four bits of the opcode, a value below 16 |
| Cpu.Operands | Hahnium.Chip8/Chip8Cpu.cs:29 | the low twelve bits of the opcode, a value below 0x1000 |
| Cpu.Fetch | Hahnium.Chip8/Chip8Cpu.cs:26 | the opcode's high byte is `ram[pc]` and its low byte is `ram[pc + 1]` |
| Cpu.FetchBigEndian | Hahnium.Chip8/Chip8Cpu.cs:26 | `GetByte(opcode, 1)` is the byte at `pc` and `GetByte(opcode, 0)` is the byte after it |
| Cpu.DecodeSplits | Hahnium.Chip8/Chip8Cpu.cs:28-29 | family <= 0xF and operands <= 0xFFF; family * 0x1000 + operands is the opcode; family is nibble 3 |
| Cpu.Step | Hahnium.Chip8/Chip8Cpu.cs:23-47 | one cycle, as a function of the RAM and the CPU state: the registers are never changed, a faulting step leaves `pc` advanced by 2, and only family 2 touches the stack or `sp` |
| Cpu.Call | Hahnium.Chip8/Chip8Cpu.cs:55-62 | the call completes exactly when `sp + 2 <= 48` and then jumps to the operands; on a fault `pc` is left as it was on entry. The stack stays 48 slots long, and the index and the registers are unchanged |
| Cpu.JumpSemantics | Hahnium.Chip8/Chip8Cpu.cs:36-38 | 1NNN completes and sets `pc` to NNN; nothing else changes |
| Cpu.SetIndexSemantics | Hahnium.Chip8/Chip8Cpu.cs:42-44 | ANNN completes, advances `pc` by 2 and sets the index register to NNN |
| Cpu.CallSemantics | Hahnium.Chip8/Chip8Cpu.cs:39-41 | 2NNN completes exactly when both entries fit in the 48 slots. It then stores the advanced `pc` and the index, raises `sp` by 2 and jumps to NNN. Otherwise it fails with IndexOutOfRange, with `pc` advanced. On a fault with `sp` already at 48 or more, `sp` is incremented once (as a byte) and the stack is unchanged; with `sp` below 48, `sp` rises by 2 and only the return `pc` has been stored. Either way the index and the registers are unchanged |
| Cpu.Family0NoEffect | Hahnium.Chip8/Chip8Cpu.cs:33-35 | family 0 completes, and only `pc` changes (advanced by 2) |
| Cpu.UnimplementedFamilies | Hahnium.Chip8/Chip8Cpu.cs:45 | any other family fails with NotImplemented after `pc` has advanced by 2, and nothing else changes |
| Cpu.StepKeepsSpInvariant | Hahnium.Chip8/Chip8Cpu.cs:55-62 | a completed step keeps `sp` even and at most 48, and raises it by 2 exactly on a call |
| Cpu.CallsFillStack | Hahnium.Chip8/Chip8Cpu.cs:55-62 | along a run of completed steps, `sp` equals its start plus twice the number of calls, and never exceeds 48 |
| Cpu.AtMostTwentyFourCalls | Hahnium.Chip8/Chip8Cpu.cs:14 | from reset, a run of completed steps makes at most 24 calls, and a 25th call fails |
| Cpu.Chip8Cpu.constructor | Hahnium.Chip8/Chip8Cpu.cs:11-21 | zeroed registers and stack, `pc` = 0x200, `sp` = 0, over the given RAM |
| Cpu.Chip8Cpu.Cycle | Hahnium.Chip8/Chip8Cpu.cs:23-47 | the returned status and new state are `Step` of the old state |
| Cpu.Chip8Cpu.OpA | Hahnium.Chip8/Chip8Cpu.cs:49-53 | the index register becomes the operands |
| Cpu.Chip8Cpu.Op1 | Hahnium.Chip8/Chip8Cpu.cs:64-69 | `pc` becomes the operands |
| Cpu.Chip8Cpu.Op2 | Hahnium.Chip8/Chip8Cpu.cs:55-62 | status and state are those of `Call`, including a fault on the second store |
| Ppu.BuildSpritePixelMask | Hahnium.Chip8/Chip8Ppu.cs:29-43 | fails exactly when the vector has fewer than 8 lanes; otherwise lane i < 8 holds bit 7 - i, of weight 2^(7 - i), and the other lanes are 0 |
| Ppu.ShiftedMask | Hahnium.Chip8/Chip8Ppu.cs:39 | the mask byte `MSB >> i` is 2^(7 - i), so lane i holds bit 7 - i: the leftmost pixel is the most significant bit |
| Ppu.Gate | Hahnium.Chip8/Chip8Ppu.cs:85-128 | the counters after one display cycle: the delay timer stays or drops by one from above zero; a call that finds the cycle count not a multiple of 8 changes neither the frame count nor the timer; without the one-second reset the cycle count rises by one |
| Ppu.GateDelay | Hahnium.Chip8/Chip8Ppu.cs:85-96 | the delay timer changes only on a call that passes the gate, by exactly one and only while it is above zero |
| Ppu.DelayAfterCycles | Hahnium.Chip8/Chip8Ppu.cs:85-96 | starting on a multiple of 8, n calls pass the gate ceil(n / 8) times, and the delay timer drops by that much, stopping at 0 |
| Ppu.Chip8Ppu.constructor | Hahnium.Chip8/Chip8Ppu.cs:22 | a zeroed framebuffer of 64 * 32 + W bytes |
| Ppu.Chip8Ppu.Cycle | Hahnium.Chip8/Chip8Ppu.cs:82-128 | the counters move as `Gate`: every call counts, one in 8 passes, and the stats reset after a second |
| Ppu.Chip8Ppu.Draw | Hahnium.Chip8/Chip8Ppu.cs:145-173 | the framebuffer becomes `DrawRows` with modulus `Length - 1`, and the flag is `DrawCollides` |
| Ppu.Chip8Ppu.DrawWrapped | Hahnium.Chip8/Chip8Ppu.cs:158 | with modulus 64 * 32, every window fits, so the same specification holds with no precondition on the position |
| Ppu.Chip8Ppu.Composite | Hahnium.Chip8/Chip8Ppu.cs:152-170 | the row loop yields `DrawRows` and `DrawCollides` |
| Ppu.Chip8Ppu.CompositeRow | Hahnium.Chip8/Chip8Ppu.cs:158-166 | one row XORs its lanes into its window (`XorRow`) and ORs its collision test into the flag |
| Ppu.Chip8Ppu.CopyTo | Hahnium.Chip8/Chip8Ppu.cs:166 | the rendered lanes replace the window and nothing else |
| Ppu.Chip8Ppu.DrawOld | Hahnium.Chip8/Chip8Ppu.cs:175-207 | the framebuffer becomes `DrawOldCells` and the flag is `DrawOldCollides` |
| Ppu.Chip8Ppu.DrawOldRows | Hahnium.Chip8/Chip8Ppu.cs:180-206 | the outer loop yields `OldRows` and `OldRowsCollide` over all rows |
| Ppu.Chip8Ppu.DrawOldRow | Hahnium.Chip8/Chip8Ppu.cs:182-203 | the inner loop yields `OldRowPixels` and `OldRowCollides` over all 8 columns |
| Ppu.Chip8Ppu.DrawOldPixel | Hahnium.Chip8/Chip8Ppu.cs:193-202 | one in-buffer pixel is XORed with the top bit of the shifted row, the row shifts on, and the flag is raised when both bits are set |
| Compositor.SpriteBitIsPixelBit | Hahnium.Chip8/Chip8Ppu.cs:194-195 | the bit read after c shifts is 1 exactly when the row has bit 7 - c |
| Compositor.LinePixels | Hahnium.Chip8/Chip8Ppu.cs:154-156 | the row vector: the sprite row broadcast to every lane and tested against that lane's mask byte, as wide as the mask, every lane 0x00 or 0xFF |
| Compositor.WindowStart | Hahnium.Chip8/Chip8Ppu.cs:158 | the start of a row's window, `(row + y) * 64 + x` reduced modulo the given modulus, always below the modulus |
| Compositor.DrawRows | Hahnium.Chip8/Chip8Ppu.cs:152-170 | the framebuffer after rows [0, n): each row XORs its vector into its window, in order; the length never changes |
| Compositor.DrawCollides | Hahnium.Chip8/Chip8Ppu.cs:161-164 | the flag after rows [0, n): some row collided with the framebuffer as the earlier rows left it; it is false for no rows and, once raised, stays raised for every later n |
| Compositor.LinePixelLanes | Hahnium.Chip8/Chip8Ppu.cs:154-156 | lane c < 8 of a row vector is 0xFF exactly when pixel c is set, and every later lane is 0 |
| Compositor.XorRowSplice | Hahnium.Chip8/Chip8Ppu.cs:160-166 | reading the window out, XORing it with the row and copying it back is `XorRow` |
| Compositor.RowCollidesWindow | Hahnium.Chip8/Chip8Ppu.cs:160-163 | the collision test reads only the window |
| Compositor.LanesCollideMeaning | Hahnium.Chip8/Chip8Ppu.cs:163 | the lane-by-lane test is true exactly when some lane of the window shares a set bit with the row |
| Compositor.RowEffect | Hahnium.Chip8/Chip8Ppu.cs:165-166 | a row flips all 8 bits of window cell c < 8 exactly when pixel c is set; later lanes and cells outside the window keep their value |
| Compositor.RowCollisionMeaning | Hahnium.Chip8/Chip8Ppu.cs:161-164 | a row collides exactly when a set pixel c < 8 covers a non-zero cell |
| Compositor.LaneCollides | Hahnium.Chip8/Chip8Ppu.cs:163 | lane c collides exactly when its cell is non-zero and its pixel is set (c < 8), and never for c >= 8 |
| Compositor.DrawRowsUntouched | Hahnium.Chip8/Chip8Ppu.cs:152-170 | a cell outside the first 8 lanes of every row window keeps its value |
| Compositor.DrawRowsIsXor | Hahnium.Chip8/Chip8Ppu.cs:165 | Draw XORs every cell with a pattern that depends on the sprite and position only |
| Compositor.DrawTwiceRestores | Hahnium.Chip8/Chip8Ppu.cs:145-173 | drawing the same sprite at the same place twice restores the framebuffer |
| Compositor.DrawCollidesLater | Hahnium.Chip8/Chip8Ppu.cs:161-164 | once a row has raised the collision flag, it stays raised through every later row |
| Compositor.DrawSecondCollides | Hahnium.Chip8/Chip8Ppu.cs:145-173 | drawing the same sprite at the same place again reports a collision wherever the first draw lit a cell that was 0, for any modulus, even with overlapping windows |
| Compositor.DrawRowsKeepsFullBytes | Hahnium.Chip8/Chip8Ppu.cs:156 | a framebuffer of 0x00/0xFF cells stays one |
| Compositor.WindowOverrun | Hahnium.Chip8/Chip8Ppu.cs:158-159 | for every lane count from 8 to 1024 there is a one-row position whose window starts at `Length - 2` and runs past the buffer |
| Compositor.WrappedWindowsFit | Hahnium.Chip8/Chip8Ppu.cs:22 | with the offset reduced modulo 64 * 32, every window lies inside the buffer, including its extra W bytes |
| Compositor.DrawOldCells | Hahnium.Chip8/Chip8Ppu.cs:175-207 | the framebuffer after `DrawOld`, cell by cell: each cell XORed with its sprite bit (`OldBit`), same length |
| Compositor.DrawOldCollides | Hahnium.Chip8/Chip8Ppu.cs:197-200 | the flag of `DrawOld`: some in-buffer cell is non-zero under a set sprite bit; it can only hold for a non-empty sprite and framebuffer |
| Compositor.OldHitIsPixel | Hahnium.Chip8/Chip8Ppu.cs:180-186 | the closed form covers exactly the cells `y * 64 + x` for the sprite's rows and 8 columns |
| Compositor.OldCellAt | Hahnium.Chip8/Chip8Ppu.cs:193-202 | an in-buffer pixel of the sprite becomes its old value XOR its sprite bit |
| Compositor.DrawOldTwiceRestores | Hahnium.Chip8/Chip8Ppu.cs:175-207 | drawing the same sprite at the same place twice restores the framebuffer |
| Compositor.DrawOldKeepsBits | Hahnium.Chip8/Chip8Ppu.cs:202 | a framebuffer of 0/1 cells stays one |
| Compositor.SecondDrawCollides | Hahnium.Chip8/Chip8Ppu.cs:197-202 | a cell that was 0 under a set sprite bit is lit by the first draw, and the second draw of the same sprite then reports a collision |
| Compositor.DrawOldTwiceCollides | Hahnium.Chip8/Chip8Ppu.cs:197-200 | of two identical draws, at least one reports a collision whenever some in-buffer pixel of the sprite is set (the first if that cell was lit, otherwise the second) |
| Compositor.OldRowPixelsCells | Hahnium.Chip8/Chip8Ppu.cs:184-203 | after the inner loop, each visited cell holds its old value XOR its closed-form bit, and every other cell is unchanged |
| Compositor.OldRowCollidesMeaning | Hahnium.Chip8/Chip8Ppu.cs:197-200 | the inner loop's flag is set exactly when a visited cell collides |
| Compositor.OldRowsCells | Hahnium.Chip8/Chip8Ppu.cs:180-206 | after r rows, every cell before row r holds its closed-form value, and later cells are unchanged |
| Compositor.OldRowsCollideMeaning | Hahnium.Chip8/Chip8Ppu.cs:180-206 | the outer loop's flag after r rows is set exactly when some cell before row r collides |
| Compositor.OldRowsComplete | Hahnium.Chip8/Chip8Ppu.cs:180-206 | the two loops together compute `DrawOldCells` |
| Compositor.OldRowsCollideComplete | Hahnium.Chip8/Chip8Ppu.cs:197-200 | the two loops together raise `DrawOldCollides` |
| Compositor.ShiftedTopBit | Hahnium.Chip8/Chip8Ppu.cs:194-195 | the top bit after c executions of `spriteLine <<= 1` is pixel c |
| Compositor.NextSpritePixel | Hahnium.Chip8/Chip8Ppu.cs:194-195 | one visit reads pixel c and leaves the row shifted c + 1 times |
| Platform.LoadedRam | Hahnium.Chip8/Chip8Platform.cs:14-15 | the RAM after loading is exactly 0x1000 bytes |
| Platform.RomPlacement | Hahnium.Chip8/Chip8Platform.cs:14-15 | ROM byte i is at 0x200 + i, and every other byte is 0 |
| Platform.FirstFetch | Hahnium.Chip8/Chip8Platform.cs:15-16 | the first opcode is the first two ROM bytes, big-endian; a shorter ROM reads the zero padding |
| Platform.LoadRom | Hahnium.Chip8/Chip8Platform.cs:14-15 | the copy loop produces `LoadedRam` in a fresh array |
| Platform.Create | Hahnium.Chip8/Chip8Platform.cs:12-19 | construction fails exactly for a ROM over 0xE00 bytes (RomTooLarge, reported first) or a vector under 8 lanes (PlatformNotSupported); otherwise the RAM is `LoadedRam`, the CPU is at reset, the display's framebuffer is 64 * 32 + W zero bytes and its counters are zero |
| Platform.Chip8Platform.constructor | Hahnium.Chip8/Chip8Platform.cs:12-19 | the RAM is `LoadedRam`, the CPU works over it at reset, and the display unit has a fresh framebuffer of 64 * 32 + W zero bytes with its counters at zero |
| Platform.Chip8Platform.Cycle | Hahnium.Chip8/Chip8Platform.cs:21-25 | the CPU takes one `Step`; the display cycle follows only if the CPU step completed; RAM and framebuffer are unchanged |

## Left out

- Program.cs is not part of this model: reading the ROM file and the outer loop are I/O.
- Console output in `Chip8Ppu.Cycle` is left out as I/O: the rendered rows, registers, program-counter window and timers.
- Timing in `Chip8Ppu.Cycle` is left out: the stopwatches, the reset of the platform timers and the frame limiter. Whether a second has elapsed is the `oneSecondElapsed` parameter instead.
- `Console.Clear()` for 00E0 in `Op0` is left out as I/O; the opcode changes no modelled state.
- `Chip8Apu` is not part of this model; it is constructed over the RAM but its source is not shown.
- Cpu.Chip8Cpu.Cycle: requires both opcode bytes to lie inside the RAM (`CanFetch`). The source reads them through an unchecked pointer, so a fetch past the end has no defined result.
- Platform.Chip8Platform.Cycle: carries the same fetch precondition as the CPU cycle.
- Ppu.Chip8Ppu.Draw: requires every row window to fit in the framebuffer, because the source writes through an unchecked pointer. The positions where this fails are the finding below.
- Ppu.Chip8Ppu.Cycle: the delay timer is a byte field of the display unit. The source decrements `cpu.Registers.Delay`, which the CPU class shown does not declare.
- Ppu.BuildSpritePixelMask: the hardware vector width `Vector<byte>.Count` is the parameter `lanes`. The source's static constructor runs once per process; the model builds the mask during `Create`.
- Platform.Create: the display unit is built from the mask alone. The platform calls a two-argument `Chip8Ppu` constructor that the display source does not define, so the model passes only what the display unit uses.
- Cells are bytes in both compositors. Which cells are rendered, and how (`RenderRow`), is display output and is left out.
- Pointer aliasing between the sprite memory and the framebuffer is not modelled: the sprite is a sequence of values taken before drawing.

## Findings

| source | as written | input that shows it | evidently intended | confidence | as-written member | corrected member |
|---|---|---|---|---|---|---|
| Hahnium.Chip8/Chip8Ppu.cs:158 | the row window starts at `(row * 64 + x) % (frameBuffer.Length - 1)`, so it can start at `Length - 2`, and a `Vector<byte>.Count`-wide window then runs past the framebuffer | 16 lanes (framebuffer of 2064 bytes), one-row sprite at x = 14, y = 32: the window starts at 2062 and covers bytes 2062..2077 | offsets reduced modulo the display size 64 * 32, so every window starts on the display and ends in the extra W bytes | not executed | Compositor.WindowOverrun | Ppu.Chip8Ppu.DrawWrapped |
