# CHIP-8 interpreter core in Dafny

This project models `Emu`, the CHIP-8 virtual machine of `core/src/lib.rs`, and proves properties of it. `Emu` covers:

- construction and reset of the machine state;
- loading a program;
- the keypad;
- the 60 Hz timers;
- one fetch-decode-execute step (`exec`) over the whole instruction set, including sprite drawing with wrap-around and collision detection.

The model consists of these modules:

- `Machine` (`machine.dfy`) holds the constants and the state. `Emu` is an immutable datatype whose sequences stand for the fixed Rust arrays. `Default`, `Reset`, `Load`, `KeyPress` and `TickTimers` are pure functions from state to state.
- `Opcode` (`opcode.dfy`) handles decoding. `Decode` makes the interpreter's nibble match an explicit instruction value, and `Encode` is its inverse.
- `Sprite` (`sprite.dfy`) models DXYN.
  - The recursive `DrawRow`/`DrawRows` follow the nested loop of the source.
  - The closed-form `Covered` says which screen cells a sprite touches.
  - The loop is proved to toggle exactly those cells and to report a collision exactly when one of them was on.
- `Bits` (`bits.dfy`) defines the u8 `|`, `&` and `^` bit by bit.
- `Interp` (`exec.dfy`) models `exec`.
  - `Step` fetches the big-endian word, advances the program counter by two and runs `Execute` on the decoded instruction.
  - Every Rust panic becomes `Err(Fault)`: stack underflow and overflow, a fetch, key or memory index out of range, and `unimplemented!` on an unsupported word.
  - `Execute` fails exactly when the predicate `Panics` holds.
- `Properties` (`props.dfy`) has one lemma per instruction family. Each lemma states when a `Step` of that family faults and, when it does not, which fields change, the values they get, and that every other field keeps its value. This module also holds the round trips: call/return, store/load of registers, and drawing twice.

The random byte of CXNN is a parameter of `Step` (`rnd`). The console message printed by `tick_timers` is modelled as the boolean half of `TickTimers`' result.

## Model

| member | source | states |
|---|---|---|
| Machine.InitialMemory | core/src/lib.rs:45-46 | Fresh memory is 4096 bytes. It holds the 80-byte font at addresses 0..79 and zero everywhere else. |
| Machine.Default | core/src/lib.rs:44-59 | The new machine satisfies the invariant. Its pc is 0x200 and the font is in place. Registers, index, stack pointer, stack, keys, timers and screen are all zero or off. |
| Machine.Reset | core/src/lib.rs:61-73 | Whatever the state before, reset yields exactly the machine that `default` builds, so it satisfies the invariant. |
| Machine.ResetIsDefault | core/src/lib.rs:61-73 | Reset forgets the previous state entirely: it yields exactly the machine that `default` builds, so reset is idempotent. |
| Machine.Load | core/src/lib.rs:75-77 | Fails with ProgramTooLarge exactly when the program exceeds the 3584 bytes above 0x200. Otherwise memory 0x200..0x200+len holds the program, every other address is unchanged, and no other field moves. |
| Machine.KeyPress | core/src/lib.rs:83-85 | Fails exactly when the key index is 16 or more. Otherwise only that key changes, to the given state. |
| Machine.TickTimers | core/src/lib.rs:87-98 | Both timers decrease by one and stop at zero, and nothing else changes. The end-of-tone signal is raised exactly when the sound timer was 1. |
| Machine.TicksSaturate | core/src/lib.rs:87-98 | After n ticks each timer is max(0, t - n), and no other field has changed. |
| Machine.ToneEndsOnce | core/src/lib.rs:92-97 | A sound timer started at s > 0 signals the end of the tone on tick s and on no other tick. |
| Opcode.NibbleSplit | core/src/lib.rs:104-109 | The four nibbles the match extracts reassemble to the fetched word. |
| Opcode.Decode | core/src/lib.rs:104-109 | The fetched word is split into its four nibbles before the match. A word no arm accepts stays whole in `Unsupported`, the value that `unimplemented!` reports. |
| Opcode.DecodeNibbles | core/src/lib.rs:110-368 | The arms are tried in order and the first that fits wins. The fall-through `_` arm keeps the whole word. |
| Opcode.EncodeDecode | core/src/lib.rs:104-368 | Every 16-bit word decodes to a well-formed instruction whose encoding is that word again, so decoding loses no operand bit. |
| Opcode.DecodeEncode | core/src/lib.rs:104-368 | Every well-formed instruction survives encoding and then decoding, so the decoder is onto the instruction set. |
| Opcode.UnsupportedGroups | core/src/lib.rs:110-368 | Groups 0-4, 6, 7 and A-D have a catch-all arm, so only words of the 5, 8, 9, E and F groups can reach `unimplemented!`. |
| Opcode.UnsupportedWords | core/src/lib.rs:155-241 | 5XYn and 9XYn with n ≠ 0 reach `unimplemented!`. An 8XYn word does so exactly when n is 8..D or F. |
| Opcode.UnsupportedSubOps | core/src/lib.rs:289-368 | An EX.. word reaches `unimplemented!` exactly when its low byte is neither 9E nor A1. An FX.. word does so exactly when its low byte is none of 07, 0A, 15, 18, 1E, 29, 33, 55 and 65. |
| Sprite.WrapIsToroidal | core/src/lib.rs:276 | The u8 coordinate sums wrapped modulo 256 and then modulo 64 or 32 are the toroidal positions (VX + j) mod 64 and (VY + i) mod 32. |
| Sprite.CellOffsets | core/src/lib.rs:276-279 | The screen index of sprite pixel (i, j) is on the screen, and the pixel offsets are recovered from the index. |
| Sprite.OffsetsCell | core/src/lib.rs:276-279 | Every screen cell is the image of its own offset pair (row offset below 32, column offset below 64) from the sprite origin; with `Sprite.CellOffsets`, that pair is the only one within 32×64. |
| Sprite.DrawRow | core/src/lib.rs:272-284 | The column loop toggles exactly the cells of the set bits of the row from column j on. The flag becomes true exactly when it already was or one of those cells was on. |
| Sprite.DrawRows | core/src/lib.rs:270-285 | The row loop toggles exactly the cells the rows from i on cover. The flag is set exactly when it already was or one of those cells was on. |
| Sprite.Draw | core/src/lib.rs:268-287 | The screen after DXYN differs from the old one in exactly the covered cells. The collision flag holds exactly when some covered cell was on. |
| Sprite.CoveredCells | core/src/lib.rs:274-279 | The covered cells are exactly the wrapped positions of the set sprite bits. |
| Sprite.DrawTwiceRestores | core/src/lib.rs:281-282 | XOR drawing is an involution: drawing the same sprite twice restores the screen. |
| Sprite.DrawTwiceOnBlank | core/src/lib.rs:281-286 | On a blank screen the first draw reports no collision. The second draw reports one exactly when the sprite has a set bit. |
| Bits.Or8 | core/src/lib.rs:179 | The u8 OR is a byte whose bit i is set exactly when bit i of either operand is. |
| Bits.And8 | core/src/lib.rs:185 | The u8 AND is a byte whose bit i is set exactly when bit i of both operands is. |
| Bits.Xor8 | core/src/lib.rs:191 | The u8 XOR is a byte whose bit i is set exactly when the operands' bits differ. |
| Bits.XorTwice | core/src/lib.rs:190-192 | XORing a register with the same byte twice gives the original value back. |
| Bits.AndWithinMask | core/src/lib.rs:255-257 | A masked byte has no bit outside the mask, masking it again changes nothing, and OR-ing it into the mask gives the mask. |
| Interp.Fetch | core/src/lib.rs:101 | Fails exactly when pc + 1 is outside memory. Otherwise the word's high byte is mem[pc] and its low byte is mem[pc + 1]. |
| Interp.FirstPressed | core/src/lib.rs:313-318 | The FX0A scan returns the lowest pressed key at or after k, or none when no key from k on is pressed. |
| Interp.SpriteRows | core/src/lib.rs:270-271 | DXYN reads N rows, row i being mem[I + i]. |
| Interp.Execute | core/src/lib.rs:104-369 | Execution fails exactly when the source panics (`Panics`): a return on an empty or overfull stack, a call on a full stack, EX9E or EXA1 with VX not a key index, a memory access past the end, or an unsupported word. A successful step keeps every array length and the bound sp ≤ 16. No instruction changes the keypad. Only FX15 changes the delay timer, only FX18 the sound timer, and only 2NNN and 00EE the stack. |
| Interp.ExecControl | core/src/lib.rs:110-135 | 00EE fails exactly when the stack is empty or overfull, and 2NNN exactly when it is full. Otherwise only pc, sp and the stack change, plus the screen for 00E0 alone. |
| Interp.ExecSkip | core/src/lib.rs:137-159 | A skip changes nothing but pc, which either stays or moves two further. Only EX9E and EXA1 can fail, exactly when VX is not a key index. |
| Interp.ExecAlu | core/src/lib.rs:161-192 | The register loads, 7XNN and the bitwise 8XY0..8XY3 never fail and keep the state well-shaped. |
| Interp.ExecArith | core/src/lib.rs:194-233 | 8XY4..8XYE never fail and write VX and VF only. Every other register and every other field keeps its value. |
| Interp.ExecTimersAndIndex | core/src/lib.rs:305-341 | FX07, FX0A, FX15, FX18, FX1E and FX29 (with ANNN) never fail. They write only pc, VX, I and the timers. Only FX0A moves pc, winding it back two when no key is down, and no register other than VX changes. |
| Interp.ExecMemory | core/src/lib.rs:268-287 | DXYN fails exactly when N > 0 and a row address I + k lies outside memory. FX33, FX55 and FX65 fail likewise for the addresses they touch. Otherwise these instructions change only the screen, the registers and memory. |
| Interp.Step | core/src/lib.rs:100-102 | A pc too close to the end of memory faults with PcOutOfRange. A successful step keeps the state well-shaped and preserves the stack-pointer invariant. |
| Properties.StepFetch | core/src/lib.rs:100-102 | A step is the big-endian fetch at pc, then execution of the decoded word with pc already advanced by two. |
| Properties.FirstFetchAfterLoad | core/src/lib.rs:75-102 | After loading a program of at least two bytes into a fresh machine, the first fetch reads its first two bytes. |
| Properties.StepSkip | core/src/lib.rs:137-159 | A skip advances pc by 4 when its condition holds and by 2 otherwise; no other field changes. |
| Properties.StepSkipKeyFault | core/src/lib.rs:289-303 | EX9E and EXA1 fault exactly when VX is not a key index. |
| Properties.StepJump | core/src/lib.rs:125-128 | 1NNN sets pc to NNN; BNNN sets it to NNN + V0. Nothing else changes. |
| Properties.CallReturnRoundTrip | core/src/lib.rs:115-135 | 2NNN pushes the return address and jumps to NNN. A later 00EE on the stack the call left returns to the instruction after the call and pops the entry. |
| Properties.StackFaults | core/src/lib.rs:115-135 | A call faults, with StackOverflow, exactly when the stack is full. Otherwise it stores the return address at stack[sp], increments sp, jumps to NNN and changes nothing else. A return on an empty stack underflows, and one with more than 16 entries overflows. A return with 1..16 entries pops the top entry into pc and changes nothing else. |
| Properties.StepAddImm | core/src/lib.rs:166-169 | 7XNN adds modulo 256 and touches no other register, VF included. |
| Properties.StepAddReg | core/src/lib.rs:194-201 | 8XY4: VF is the carry and VX the low byte, so VX + 256·VF is the true sum. No other register changes. |
| Properties.StepSubReg | core/src/lib.rs:203-210 | 8XY5: VX is VX − VY modulo 256, and VF is 1 exactly when VY > VX, so VX − 256·VF is the true difference. |
| Properties.StepSubRev | core/src/lib.rs:219-226 | 8XY7: VX is VY − VX modulo 256, and VF is 1 exactly when VX > VY. |
| Properties.SubFlagIsBorrow | core/src/lib.rs:203-226 | For 8XY5 and 8XY7, VF is 0 when there is no borrow and 1 when there is, the opposite of what the comments above those arms promise. |
| Properties.StepShiftRight | core/src/lib.rs:212-217 | 8XY6: 2·VX + VF is the old VX. Because the flag is written before the shift, 8FY6 leaves VF = 0. |
| Properties.StepShiftLeft | core/src/lib.rs:228-233 | 8XYE: VX + 256·VF is twice the old VX. For X = F the stored flag is then shifted too. |
| Properties.StepLogic | core/src/lib.rs:161-192 | 6XNN and 8XY0 copy their operand. 8XY1..8XY3 set each bit of VX to the OR, AND or XOR of the operand bits. No other register changes. |
| Properties.StepRand | core/src/lib.rs:253-257 | CXNN stores rnd AND NN bit by bit, so VX has no bit outside NN. No other register changes. |
| Properties.StepDraw | core/src/lib.rs:259-287 | DXYN faults exactly when the rows run past memory. Otherwise it toggles exactly the covered cells and sets VF to 1 exactly on a collision; I and memory stay unchanged. |
| Properties.DrawTwiceRestoresScreen | core/src/lib.rs:268-287 | Running the same DXYN twice, with neither coordinate register being VF, restores the screen. |
| Properties.StepBcd | core/src/lib.rs:343-350 | FX33 faults exactly when I + 2 is outside memory. Otherwise it stores three decimal digits d0, d1, d2 with 100·d0 + 10·d1 + d2 = VX at I..I+2 and leaves the rest of memory alone. |
| Properties.StepStoreRegs | core/src/lib.rs:352-358 | FX55 faults exactly when I + X is outside memory. Otherwise mem[I + k] = Vk for k ≤ X, every other address is unchanged, and so is I. |
| Properties.StepLoadRegs | core/src/lib.rs:360-366 | FX65 faults exactly when I + X is outside memory. Otherwise Vk = mem[I + k] for k ≤ X and the higher registers keep their values. |
| Properties.StoreLoadRoundTrip | core/src/lib.rs:352-366 | FX65 after FX55, with the dumped memory and I intact, restores V0..VX and keeps the later higher registers. |
| Properties.StepWaitKey | core/src/lib.rs:310-320 | FX0A with no key down leaves the whole state unchanged, so it re-executes. Otherwise VX gets the lowest pressed key. |
| Properties.StepTimers | core/src/lib.rs:305-330 | FX07 copies the delay timer to VX; FX15 and FX18 copy VX into the delay and sound timers. |
| Properties.StepIndex | core/src/lib.rs:332-341 | FX1E adds VX to I with 16-bit wrap-around. FX29 sets I to 5·VX for every VX, which for a digit 0..F is its glyph while the font is intact. ANNN sets I to NNN. Nothing but I and pc changes. |
| Properties.StepClearAndSys | core/src/lib.rs:110-123 | 00E0 blanks the screen; 0NNN only advances pc. |
| Properties.StepUnsupported | core/src/lib.rs:368 | A word no arm accepts stops the machine with UnsupportedOpcode carrying that word. |

## Code and documentation disagree

- **8XY5 and 8XY7 flags.** The comments above the 8XY5 and 8XY7 arms (lines 203-205 and 219-221) say VF is 0 on a borrow and 1 otherwise. The code stores the `borrow` result of `overflowing_sub` directly, so VF is 1 on a borrow. The model follows the code, and `Properties.SubFlagIsBorrow` states the difference.

## Notes

- **Flag order in 8XY6 and 8XYE.** These arms write VF before shifting VX. So with X = F the shift applies to the freshly written flag: 8FY6 always leaves VF = 0, and 8FYE leaves twice the old top bit. The model keeps this order. The other flag-setting instructions (8XY4, 8XY5, 8XY7) write VF last, so there VF always ends as the flag.

## Left out

- The front ends (`gui/`, `web/`, `wasm/`) and the frame loop that calls `exec` and `tick_timers` are out of scope. They are I/O and scheduling around the core.
- `display` only returns the screen array. In the model the screen is the `screen` field of `Emu`.
- `rand::random` in CXNN is not modelled: the random byte is the parameter `rnd` of `Step`.
- The `println!` of `tick_timers` is not modelled as output. It becomes the boolean second component of `TickTimers`' result.
- Interp.Step: a panic discards the state. Some arms write before they panic, and the model does not keep those partial writes:
  - FX33 with I = 4095 writes one digit, and with I = 4094 two;
  - FX55 writes up to the last address in memory;
  - FX65 loads V0 up to V(4095 − I) before it reads past the end;
  - DXYN toggles the cells of the rows read before it reaches the bad address.

  The program stops at the panic either way.
- DXYN coordinates: in a debug build, `VX + j` and `VY + i` are u8 additions that panic when they exceed 255. The model uses the release-build wrap-around modulo 256, which the later reduction modulo 64 and 32 makes equivalent to plain toroidal wrap (`Sprite.WrapIsToroidal`).
- Memory addresses: the address `I + k` is a u16 sum. It counts as out of range as soon as it reaches 4096, which includes the 16-bit overflow that a debug build would report as a panic of its own.
- Interp.Execute: its contract states when a step fails, that it keeps the state well-shaped, and which fields no instruction or only a few touch. The values each instruction writes are stated by the lemmas of `Properties`, one per instruction family.
- Interp.ExecAlu: its contract states only that these instructions never fail. The value written, and that every other register and field keeps its value, are stated by `Properties.StepLogic`, `Properties.StepAddImm` and `Properties.StepRand`.
- Interp.ExecControl: its contract states when it fails and which fields it may change. The values written are stated by `Properties.StepJump`, `Properties.CallReturnRoundTrip`, `Properties.StackFaults` and `Properties.StepClearAndSys`.
- Interp.ExecSkip: its contract states when it fails and which fields it may change. The values written are stated by `Properties.StepSkip` and `Properties.StepSkipKeyFault`.
- Interp.ExecArith: its contract states when it fails and which fields it may change. The values written are stated by `Properties.StepAddReg`, `Properties.StepSubReg`, `Properties.StepSubRev`, `Properties.StepShiftRight` and `Properties.StepShiftLeft`.
- Interp.ExecMemory: its contract states when it fails and which fields it may change. The values written are stated by `Properties.StepDraw`, `Properties.StepBcd`, `Properties.StepStoreRegs` and `Properties.StepLoadRegs`: the drawn screen and VF, the BCD digits, the stored bytes and the loaded registers.
- Interp.ExecTimersAndIndex: its contract states when it fails and which fields it may change. The values written are stated by `Properties.StepTimers`, `Properties.StepWaitKey` and `Properties.StepIndex`.
- Opcode.Decode: its contract states only that an unsupported word is kept whole. Which instruction each word decodes to is stated by `Opcode.EncodeDecode`, `Opcode.DecodeEncode`, `Opcode.UnsupportedGroups`, `Opcode.UnsupportedWords` and `Opcode.UnsupportedSubOps`.
- Opcode.DecodeNibbles: as for `Opcode.Decode`, its contract states only that the fall-through arm keeps the whole word.
