# CHIP-8 emulator core, modelled in Dafny

This project models the virtual machine inside the `Emulator` class of a
browser CHIP-8 emulator (app/class/Emulator.js):

- `startEmulation` sets the machine up: memory, registers, keypad, font, ROM and framebuffer.
- `keyToKeyboard` and the `keydown`/`keyup` handlers drive the sixteen-key keypad.
- `clear` blanks the screen.
- `tickLogic` runs one 60 Hz step: the timers, then fetch, execute and advance.
- `interpretOpcode` executes the 34 instructions, including the sprite drawing of `Dxyn`.

The project is organised in layers:

- `bits.dfy` (module `Bits`) defines `&`, `|` and `^` bit by bit on naturals. These equal JavaScript's 32-bit operators on operands below 2^31.
- `keyboard.dfy` (module `Keyboard`) is the host key layout.
- `opcode.dfy` (module `Opcode`) holds the instruction set:
  - the fields of an opcode;
  - `Decode`, the two-level switch of `interpretOpcode`;
  - `Encode`, its partner, with the round trip `Decode(Encode(i)) == i` and its converse up to the nibbles the switch ignores.
- `chip8.dfy` (module `Chip8`) is the machine as a value:
  - `Boot` for `startEmulation`;
  - `Execute` for `interpretOpcode`, returning the new state and whether `pc` advances;
  - `Tick` for `tickLogic`;
  - `PressKey` and `ReleaseKey` for the key handlers;
  - `Run` for a sequence of ticks.
- `emulator.dfy` (module `EmulatorClass`) is the `Emulator` class itself:
  - memory, registers and keys are arrays, and the framebuffer is an `array2<bool>`; the other state is fields;
  - each method updates them in place;
  - the constructor, `StartEmulation`, `KeyDown`, `KeyUp`, `TickLogic`, `InterpretOpcode` and the `Execute…` methods are proved to perform the matching function of `Chip8` on the whole state `State()`;
  - the helpers below them (`Clear`, `StoreBcd`, `StoreRegisters`, `LoadRegisters`, `ExecuteLogic`, `ExecuteFlagged`, `StoreDifference`) are proved to perform a function of `Chip8` on the one array they change.
- `properties.dfy` (module `Properties`) proves what the code promises about those functions.

Behaviour kept exactly as the code has it:

- `8xy5` and `8xy7` set VF to 1 when the difference is *negative*. This is the reverse of the usual CHIP-8 convention.
- `8xyE` does not mask Vx to a byte, and it stores `Vx & 0x80` (0 or 0x80) in VF.
- `8xy6` stores the low bit of Vx in VF.
- An unknown opcode is reported through `handleError`, modelled as the `error` field. Execution then goes on and `pc` advances.
- The masked switch ignores the x nibble. For example, `0x3E0` clears the screen and `0x5EE` returns.
- `Fx0A` blocks until a key goes down, and stores whichever key went down last.
  - For a host key outside the layout, `keyToKeyboard` returns `false` and the source stores that `false` in Vx. The model stores 0 instead (see `Chip8.KeyValue` under "Left out").
- `Ex9E` and `ExA1` read `keys[Vx]`. A Vx of 16 or more finds no key.
- Memory reads past the end of `ram` yield `undefined`, and every operator that reads memory treats that as 0. The model reads such cells as 0.
- The font loop also writes `data[80]`, which is `undefined`, to address 0xA0. The model stores 0 there. This is not harmless: once `Fx65` copies that cell into a register, the source and the model diverge (see "Left out").

Other facts about the code that the model keeps:

- There is no ROM size check. A ROM over 3584 bytes would be copied past the end of memory. The model requires the ROM to fit.
- The call stack has no depth limit.
- An unknown opcode does not stop execution.
- Any key press clears `blocked` and records the key, whether or not a wait is pending. This includes keys outside the layout.

## Model

| member | source | states |
|---|---|---|
| Keyboard.KeyToKeyboard | app/class/Emulator.js:78-115 | a code maps to a key exactly when it is one of the sixteen host codes; that key's host code is the code itself |
| Keyboard.KeyToKeyboardOnto | app/class/Emulator.js:78-115 | every one of the sixteen CHIP-8 keys has a host code that maps to it |
| Keyboard.KeyToKeyboardInjective | app/class/Emulator.js:78-115 | two host codes that map to the same key are equal |
| Keyboard.HostKeyCount | app/class/Emulator.js:78-115 | exactly sixteen host codes are recognised |
| Opcode.ShiftedSelectors | app/class/Emulator.js:211-262 | `(opcode & 0xF000) >> 12`, `(opcode & 0x0F00) >> 8` and `(opcode & 0x00F0) >> 4` are the top, x and y nibbles of the opcode |
| Opcode.LowSelectors | app/class/Emulator.js:214-343 | `opcode & 0x000F`, `& 0x00FF` and `& 0x0FFF` are the n, nn and nnn fields, the low 4, 8 and 12 bits |
| Opcode.SwitchSelectors | app/class/Emulator.js:261-374 | the inner switch values `opcode & 0xf00f` and `opcode & 0xF0FF` are the top nibble above n, and the top nibble above nn, with the x nibble (and y) cleared |
| Opcode.FieldsCompose | app/class/Emulator.js:211-260 | a 16-bit opcode is made of its four nibbles; nn and nnn are made of the low nibbles |
| Opcode.Decode | app/class/Emulator.js:211-461 | an opcode that no case matches is reported with the opcode itself |
| Opcode.DecodeEncode | app/class/Emulator.js:211-461 | every instruction is decoded back from its encoding, so each case of the switch recognises its own opcodes |
| Opcode.EncodeDecode | app/class/Emulator.js:211-461 | conversely, a 16-bit opcode that some case matches is the encoding of its instruction, except that `00E0`/`00EE` ignore the x nibble and `5xy_`/`9xy_` ignore the last nibble |
| Opcode.MaskedDropsX | app/class/Emulator.js:374-382 | `0x0xE0` decodes to a clear and `0x0xEE` to a return for every x, because the `0xF0FF` mask drops x |
| Opcode.DecodeLow16 | app/class/Emulator.js:211 | a recognised instruction depends only on the opcode's low 16 bits |
| Chip8.BootRam | app/class/Emulator.js:44-72 | memory has 4096 cells holding the font at 0x50, the ROM at 0x200 and 0 everywhere else, and every cell is a byte |
| Chip8.Boot | app/class/Emulator.js:31-76 | the boot state is valid and resets every field: memory is `BootRam` of the ROM, all registers are 0, all keys are up, both timers and the opcode are 0, `pc` is 0x200, `I` is 0, the stack is empty, neither block flag is set, the unblock key is 0, there is no error, and the screen is blank and marked for drawing |
| Chip8.Blank | app/class/Emulator.js:138-144 | the cleared framebuffer has `width` columns of `height` unlit pixels |
| Chip8.ArithmeticValid | app/class/Emulator.js:246-337 | the register instructions keep all sixteen registers below 2^31, given that `8xyE` shifts a value below 2^30 |
| Chip8.ExecuteValid | app/class/Emulator.js:208-463 | every defined instruction keeps the state's shape and keeps memory, registers and timers below 2^31 |
| Chip8.TickValid | app/class/Emulator.js:187-206 | a tick keeps the state's shape and value ranges |
| Chip8.FetchedDefined | app/class/Emulator.js:189-202 | stepping the timers and fetching keep the state valid and do not change whether the fetched instruction is defined |
| EmulatorClass.Emulator.constructor | app/class/Emulator.js:31-76 | a new emulator is in the boot state for its ROM |
| EmulatorClass.Emulator.StartEmulation | app/class/Emulator.js:31-76 | the object stands for `Boot(width, height, rom)`, with fresh arrays |
| EmulatorClass.Emulator.ResetScalars | app/class/Emulator.js:32-42 | the timers, opcode, `I`, block flags, unblock key, stack and error are reset, and `pc` is 0x200 |
| EmulatorClass.Emulator.Allocate | app/class/Emulator.js:43-73 | the new arrays hold released keys, zero registers, the boot memory and a blank screen, and a redraw is due |
| EmulatorClass.LoadMemory | app/class/Emulator.js:50-72 | the ROM copy loop and the font loop produce exactly the boot memory |
| EmulatorClass.Emulator.KeyDown | app/class/Emulator.js:118-127 | the new state is `PressKey` of the old one |
| EmulatorClass.Emulator.KeyUp | app/class/Emulator.js:129-135 | the new state is `ReleaseKey` of the old one |
| EmulatorClass.Emulator.Clear | app/class/Emulator.js:138-144 | a fresh `width` × `height` framebuffer with no pixel lit, and a redraw is due |
| EmulatorClass.Emulator.TickLogic | app/class/Emulator.js:187-206 | the new state and the two hook flags are `Tick` of the old state |
| EmulatorClass.Emulator.StartTick | app/class/Emulator.js:188-202 | the timers are stepped and the opcode at `pc` is fetched; each hook runs exactly when its timer was above 1 |
| EmulatorClass.Emulator.StepTimers | app/class/Emulator.js:189-200 | each running timer goes down by one, and its hook runs exactly when the timer is still non-zero |
| EmulatorClass.Emulator.FetchOpcode | app/class/Emulator.js:202 | `opcode` becomes `(ram[pc] << 8) \| ram[pc + 1]`, with missing cells read as 0 |
| EmulatorClass.Emulator.InterpretOpcode | app/class/Emulator.js:208-463 | the new state and the returned flag are `Execute` of the old state on the decoded opcode, and the object stays valid |
| EmulatorClass.Emulator.ExecuteFlow | app/class/Emulator.js:213-222 | `00E0`, `00EE`, `1nnn`, `2nnn`, `Bnnn` and unknown opcodes update the state as `Flow` says (`00E0` at lines 376-378, `00EE` at 380-382, `Bnnn` at 327-330) |
| EmulatorClass.Emulator.ExecuteSkip | app/class/Emulator.js:224-244 | the skips add 2 to `pc` exactly when their condition holds (`9xy0` at lines 314-320, `Ex9E`/`ExA1` at 383-392) |
| EmulatorClass.Emulator.ExecuteArithmetic | app/class/Emulator.js:246-337 | the registers become `Arithmetic` of the old registers, with the random byte for `Cxnn` |
| EmulatorClass.Emulator.ExecuteLogic | app/class/Emulator.js:246-273 | `6xnn`, `7xnn` and `8xy0` to `8xy3` store their result in Vx, and so does `Cxnn` (lines 332-337) |
| EmulatorClass.Emulator.ExecuteFlagged | app/class/Emulator.js:274-308 | `8xy4` to `8xyE` store Vx and VF as `Arithmetic` says |
| EmulatorClass.Emulator.StoreDifference | app/class/Emulator.js:283-304 | a negative difference is stored modulo 256 with VF 1, any other with VF 0 |
| EmulatorClass.Emulator.DrawSprite | app/class/Emulator.js:339-371 | the new state is `Chip8.DrawSprite` of the old one |
| EmulatorClass.Emulator.DrawingStarts | app/class/Emulator.js:346-351 | with VF cleared and nothing drawn yet, the drawing invariant holds at the sprite's top-left pixel |
| EmulatorClass.Emulator.DrawingEnds | app/class/Emulator.js:353-369 | when the column loop stops, the screen is the sprite XORed onto it and VF records a collision |
| EmulatorClass.Emulator.DrawColumn | app/class/Emulator.js:356-365 | one column of the sprite is drawn and the drawing invariant moves to the next column |
| EmulatorClass.Emulator.ColumnEnds | app/class/Emulator.js:356 | when the row loop stops, the rest of the column holds no sprite pixel |
| EmulatorClass.Emulator.DrawPixel | app/class/Emulator.js:357-364 | one pixel is XORed with its sprite bit, and VF is set if a lit pixel is turned off |
| EmulatorClass.Emulator.ExecuteIndex | app/class/Emulator.js:419-434 | `Fx1E` and `Fx29` update `I` (and VF) as `IndexUpdate` says, and so does `Annn` (lines 323-325) |
| EmulatorClass.Emulator.ExecuteTimers | app/class/Emulator.js:393-418 | `Fx07`, `Fx0A`, `Fx15` and `Fx18` update the state and the advance flag as `TimerUpdate` says |
| EmulatorClass.Emulator.ExecuteMemory | app/class/Emulator.js:436-456 | `Fx33`, `Fx55` and `Fx65` update memory or registers as `Memory` says |
| EmulatorClass.Emulator.StoreBcd | app/class/Emulator.js:436-442 | the three decimal digits of Vx are written at `I`, `I + 1` and `I + 2` |
| EmulatorClass.Emulator.StoreRegisters | app/class/Emulator.js:444-449 | V0..Vx are copied to `ram[I..I + x]` and no other cell changes |
| EmulatorClass.Emulator.LoadRegisters | app/class/Emulator.js:451-456 | `ram[I..I + x]` is copied to V0..Vx and the other registers keep their values |
| Properties.FetchBigEndian | app/class/Emulator.js:202 | the fetched opcode is `ram[pc] * 256 + ram[pc + 1]` when the second cell holds a byte |
| Properties.ExecuteAdvances | app/class/Emulator.js:209-462 | `interpretOpcode` returns true exactly when the instruction is not a jump, a call or an `Fx0A` that blocks |
| Properties.TickAdvances | app/class/Emulator.js:202-205 | after a tick, `pc` is 2 past where the instruction left it, unless the instruction redirected it |
| Properties.UnknownContinues | app/class/Emulator.js:458-459 | an unknown opcode records the error, changes nothing else, and execution advances |
| Properties.CallReturnRoundTrip | app/class/Emulator.js:218-222 | `2nnn` pushes `pc`, jumps and changes nothing else; the matching `00EE` (lines 380-382) pops it, and after the advance the machine is the one before the call with `pc` just past it, every other field as before |
| Properties.AddImmediateWraps | app/class/Emulator.js:251-256 | `7xnn` leaves `(Vx + nn) mod 256`, a byte, in Vx, and no other register changes |
| Properties.RandomMasks | app/class/Emulator.js:332-337 | `Cxnn` leaves in Vx exactly the bits set both in the random number and in nn, so at most nn, and no other register changes |
| Properties.AddCarries | app/class/Emulator.js:274-282 | `8xy4`, for every x, sets VF to 1 if and only if the sum exceeds 0xFF, else 0; for x other than F, Vx holds the sum modulo 256; other registers are unchanged |
| Properties.SubtractBorrows | app/class/Emulator.js:283-291 | `8xy5`, for every x, sets VF to 1 if and only if Vx − Vy is negative, else 0; for x other than F and byte operands, Vx becomes the difference modulo 256; other registers are unchanged |
| Properties.SubtractReverseBorrows | app/class/Emulator.js:296-304 | `8xy7`: the same with Vy − Vx |
| Properties.ShiftRightFlag | app/class/Emulator.js:292-295 | `8xy6` moves the low bit of Vx into VF and halves Vx; for x = F, VF ends at 0; other registers are unchanged |
| Properties.ShiftLeftFlag | app/class/Emulator.js:305-308 | `8xyE` sets VF to 0x80 when bit 7 of Vx is set, else 0, and doubles Vx without masking it; for x = F, VF ends at twice that flag; other registers are unchanged |
| Properties.SkipAdvances | app/class/Emulator.js:224-244 | after a skip and the tick's advance, `pc` is 4 further when the condition holds and 2 otherwise, and nothing else changes |
| Properties.KeySkips | app/class/Emulator.js:383-392 | `Ex9E` skips exactly when key Vx is down, and `ExA1` exactly when it is not; a Vx past 15 is never down |
| Properties.SpriteBitIsBit | app/class/Emulator.js:357-358 | a sprite pixel is set exactly when it lies in the 8 × n window and its bit, counted from the row byte's most significant bit, is 1 |
| Properties.DrawXorsWindow | app/class/Emulator.js:339-371 | `Dxyn` XORs each pixel with its sprite bit, changes no pixel outside the window, keeps the state valid and asks for a redraw; besides the framebuffer, VF and the redraw flag, every field (`I`, memory, `pc`, the stack, the keys, the timers) is left as it was |
| Properties.DrawFlagsErasure | app/class/Emulator.js:351-362 | VF is 1 if and only if some lit pixel was turned off, else 0, and no other register changes |
| Properties.DrawTwiceRestores | app/class/Emulator.js:339-371 | drawing the same sprite twice restores the framebuffer, when neither coordinate register is VF |
| Properties.DrawOnBlankNoCollision | app/class/Emulator.js:351-362 | a sprite drawn on a blank screen leaves VF at 0 |
| Properties.SecondDrawCollides | app/class/Emulator.js:351-362 | on a blank screen, drawing the same sprite a second time sets VF to 1 exactly when the sprite has at least one pixel inside the screen, when neither coordinate register is VF |
| Properties.BcdDigits | app/class/Emulator.js:436-442 | the three stored digits recompose to Vx, the last two are at most 9, and so is the first when Vx < 1000; no other cell changes |
| Properties.LoadAfterStore | app/class/Emulator.js:444-456 | `Fx65` after `Fx55` with the same `I` and x reads back V0..Vx; the registers above x keep their values |
| Properties.StoreLoadRoundTrip | app/class/Emulator.js:444-456 | on the machine, store then load leaves the registers as they were, and `Fx55` changes no cell outside `ram[I..I + x]` |
| Properties.LoadIndexSets | app/class/Emulator.js:323-325 | `Annn` sets `I` to nnn, changes nothing else, and advances |
| Properties.AddIndexWraps | app/class/Emulator.js:419-428 | `Fx1E`, for every x, leaves `(I + Vx) mod 0x1000` in `I`; VF is 1 if and only if `I + Vx` exceeds 0xFFF, else 0; no other register changes |
| Properties.LoadFontGlyph | app/class/Emulator.js:430-434 | with a digit in Vx and the font in memory, `Fx29` points `I` at 0x50 + 5·Vx, whose five cells are that digit's glyph |
| Properties.ClearBlanks | app/class/Emulator.js:376-378 | `00E0` turns every pixel off, keeps the size, asks for a redraw, advances and leaves every other field as it was |
| Properties.ExecuteKeepsTimers | app/class/Emulator.js:409-418 | only `Fx15` writes the delay timer and only `Fx18` the sound timer |
| Properties.DelayRoundTrip | app/class/Emulator.js:409-418 | `Fx15` and `Fx18` load the delay or sound timer from Vx, change nothing else and advance; `Fx07` right after `Fx15` (lines 393-396) reads the value back, so the registers end as they were |
| Properties.TickTimers | app/class/Emulator.js:189-200 | a tick counts a running timer down by one and leaves a stopped one at 0, unless the instruction sets it; each hook runs exactly when its timer is still running after the step |
| Properties.WaitKeyBlocks | app/class/Emulator.js:397-401 | `Fx0A`, on its first execution or while still blocked, sets both block flags and changes nothing else; `pc` stays on the instruction |
| Properties.WaitKeyResumes | app/class/Emulator.js:402-406 | once a key press has cleared `blocked`, `Fx0A` stores the recorded key in Vx (0 for `false`), clears `wasBlocked`, changes nothing else and advances |
| Properties.WaitKeySuspends | app/class/Emulator.js:397-401 | however many ticks run while blocked on `Fx0A`, `pc`, the registers and memory stay as they were and the machine stays blocked |
| Properties.KeyPressEndsWait | app/class/Emulator.js:118-127 | a key press during the wait, then a tick (through `Fx0A` at lines 402-406), moves past the `Fx0A` with both block flags clear; for a layout key, Vx holds the key whose host code was pressed; a key outside the layout is stored as 0 |
| Properties.KeyHandlers | app/class/Emulator.js:118-135 | `keydown` clears `blocked`, records the key and marks a layout key down; `keyup` marks it up again; other keys leave the keypad alone; neither handler changes any other field of the machine |

## Left out

- The canvas, the DOM error element, the audio element and `beep`, `tickDraw`, `gameLoop`, `setInterval` and the event-listener registration are left out. They are I/O and timing, and the model has no screen, clock or sound.
  - What `tickLogic` passes to them is modelled. It decides whether the sound hook runs, kept as the `soundHook` result. `shouldDraw` is kept as a field.
  - `shouldDraw` is only ever set in the model, never cleared, because `tickDraw`, which clears it after drawing, is left out.
  - `beeper.pause()` at the start of each tick is not modelled.
- `handleError` is modelled as storing the offending opcode in the `error` field. The message text and `console.error` are not modelled.
- `Math.floor(Math.random() * 0xff)` in `Cxnn` is a parameter `rnd` below 0xFF.
- Reading the ROM file (`FileReader`, `this.buffer`) is left out. `startEmulation` receives the ROM's bytes.
- The screen size comes from the configuration module, which is not part of this model. It is the pair of parameters `width` and `height`.
- Pixels are `bool`, where the source stores 0 and 1 and XORs them.
- Chip8.Defined: the model covers only the cases where the source's arithmetic is the modelled one. It needs:
  - a non-empty stack for `00EE`; the source would set `pc` to `undefined`;
  - an operand below 2^30 for `8xyE`, so that `<<` stays positive;
  - `I + 2` and `I + x` inside memory for `Fx33`, `Fx55` and `Fx65`; the source would grow the array or read `undefined` into a register.
- Chip8.CanFetch: the fetch needs `ram[pc]` below 2^23, so that `<< 8` stays in the positive 32-bit range.
- Properties.FetchBigEndian: needs `ram[pc + 1]` to be a byte. Memory can hold larger values written by `Fx55`, and then the `|` overlaps.
- EmulatorClass.Emulator.StartEmulation: requires the ROM to fit in memory (at most 3584 bytes). The source has no check, and a longer ROM would extend the memory array.
- EmulatorClass.Emulator.constructor: requires the ROM to fit in memory (at most 3584 bytes), for the same reason; `Chip8.Boot` and `Chip8.BootRam` require it too.
- Chip8.KeyValue: models the `false` that `Fx0A` stores for a key outside the layout as 0. In the source that `false` stays in Vx and differs from 0:
  - `3x00` does not skip and `4x00` skips, because `false === 0` is false;
  - `5xy0` and `9xy0` treat `false` and a 0 in the other register as different;
  - `Ex9E` never skips and `ExA1` always skips, because `keys[false]` is `undefined`;
  - `Dxyn` with x naming that register and n above 0 reads `matrix[false]`, which is `undefined`, and throws a `TypeError` at line 356 of app/class/Emulator.js on every tick.
  - `Dxyn` with y naming that register (and x not) and n above 0 loses the sprite's first row. On the first pass of the row loop `y` is `false`, so `column[false]` is `undefined` and raises no collision. The XOR of line 364 writes a `false` property of the column, which is never shown. `++y` then gives 1, so rows 1 to n-1 land where the model puts them. The model draws row 0 on screen row 0, where it can also set VF.
  - The value reads as 0, as in the model, in `7xnn`, in `8xy1` to `8xyE` (`|`, `&`, `^`, `+`, `-`, `>>` and `<<` turn `false` into 0), in `Bnnn`, `Fx1E`, `Fx29` and `Fx33`, in the timer countdown of lines 189-199 (which skips a `false` timer as it skips 0), and in a fetch or a sprite row that reads a `false` memory cell.
  - Three paths carry the `false` itself on, and the cases above then apply at its new place: `8xy0` copies it into another register; `Fx15` and `Fx18` store it in a timer, where the countdown leaves it, and `Fx07` copies a `false` delay timer back into a register; `Fx55` writes it to memory and `Fx65` reads it back into a register.
- EmulatorClass.Emulator.ExecuteTimers: for `Fx0A` after a key outside the layout, stores 0 where the source stores `false` (see `Chip8.KeyValue`).
- Properties.WaitKeyResumes: states that Vx receives 0 when the recorded key is `false`, where the source stores `false` itself (see `Chip8.KeyValue`).
- Properties.KeyPressEndsWait: for a key outside the layout, states that Vx receives 0, where the source stores `false` (see `Chip8.KeyValue`).
- Properties.SubtractBorrows and Properties.SubtractReverseBorrows: state the stored difference only for byte operands. The flag is stated for all operands.
- Chip8.BootRam: models the font loop's extra write of `undefined` to 0xA0 (lines 54-72 of app/class/Emulator.js) as 0. Reading that cell as an operand of `&`, `|` or `<<` (a fetch, a sprite row) gives 0 in the source too. But `Fx65` with `I <= 0xA0 <= I + x` copies the `undefined` itself into a register, and `Chip8.Defined` does not exclude that. For example, `Fx29` with Vx = 15 followed by `F565` reaches it, and so does `A0A0` followed by `F065`. From then on the source and the model diverge:
  - `7xnn` leaves `NaN & 0xff`, which is 0, where the model leaves nn;
  - `3xnn` never skips and `4xnn` always skips, because `undefined === nn` is false;
  - `5xy0` and `9xy0` treat `undefined` and a 0 in the other register as different;
  - `8xy4`, `8xy5` and `8xy7` leave `NaN` in Vx with VF = 0;
  - `Dxyn` with that register as x or y draws nothing and leaves VF at 0, because every comparison with `NaN` is false;
  - `Fx1E` and `Fx29` set `I` to `NaN`, `Bnnn` with that register as V0 sets `pc` to `NaN`, and `Fx33` stores `NaN` digits;
  - `Ex9E` never skips and `ExA1` always skips, because `keys[undefined]` is `undefined`;
  - The value reads as 0, as in the model, in `8xy1`, `8xy2`, `8xy3`, `8xy6` and `8xyE` (`|`, `&`, `^`, `>>` and `<<` turn `undefined` into 0), in the timer countdown of lines 189-199 (which skips an `undefined` timer as it skips 0), and in a fetch or a sprite row that reads the cell.
  - Three paths carry the `undefined` itself on, and the divergences above then follow at its new place: `8xy0` copies it into another register; `Fx15` and `Fx18` store it in a timer, where the countdown leaves it, and `Fx07` copies an `undefined` delay timer back into a register; `Fx55` writes it to memory and `Fx65` reads it back into a register.
- Integer widths: registers and memory cells are unbounded naturals kept below 2^31 (`Chip8.Valid`). Within that range JavaScript's `&`, `|` and `^` give the values `Bits` defines.
