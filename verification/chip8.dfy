/** The CHIP-8 machine of app/class/Emulator.js as a value: the state the
    `Emulator` object keeps in its fields, and what `startEmulation`, the key
    handlers, `tickLogic` and `interpretOpcode` do to it.  The class in
    emulator.dfy performs these steps in place and is proved against the
    functions here; the lemmas in properties.dfy are about these functions. */
module Chip8 {
  import opened Wrappers
  import opened Bits
  import opened Opcode
  import opened Keyboard

  const MemorySize: nat := 4096
  const ProgramStart: nat := 0x200
  /** The largest ROM that fits between the program start and the end of memory. */
  const MaxRomSize: nat := MemorySize - ProgramStart
  const FontStart: nat := 0x50
  const FlagRegister: Reg := 0xF
  /** Shifting a value at or above this bound left by one leaves the
      positive 32-bit range in which JavaScript's `<<` acts as doubling. */
  const ShiftBound: nat := 0x4000_0000
  /** Shifting a value at or above this bound left by eight leaves that range. */
  const FetchBound: nat := 0x80_0000

  /** The sixteen 5-byte glyphs of the hexadecimal digits 0 to F. */
  const Font: seq<Byte> := [
    0xF0, 0x90, 0x90, 0x90, 0xF0, 0x20, 0x60, 0x20, 0x20, 0x70,
    0xF0, 0x10, 0xF0, 0x80, 0xF0, 0xF0, 0x10, 0xF0, 0x10, 0xF0,
    0x90, 0x90, 0xF0, 0x10, 0x10, 0xF0, 0x80, 0xF0, 0x10, 0xF0,
    0xF0, 0x80, 0xF0, 0x90, 0xF0, 0xF0, 0x10, 0x20, 0x40, 0x40,
    0xF0, 0x90, 0xF0, 0x90, 0xF0, 0xF0, 0x90, 0xF0, 0x10, 0xF0,
    0xF0, 0x90, 0xF0, 0x90, 0x90, 0xE0, 0x90, 0xE0, 0x90, 0xE0,
    0xF0, 0x80, 0x80, 0x80, 0xF0, 0xE0, 0x90, 0x90, 0x90, 0xE0,
    0xF0, 0x80, 0xF0, 0x80, 0xF0, 0xF0, 0x80, 0xF0, 0x80, 0x80]

  /** The emulator's state.  `matrix` is column-major (`matrix[x][y]`), a lit
      pixel is `true`; `unblockKey` is `None` where the source stores `false`
      (the last key pressed was not a CHIP-8 key); `error` is the opcode last
      reported through `handleError`. */
  datatype Machine = Machine(
    width: nat, height: nat,
    ram: seq<nat>, registers: seq<nat>, keys: seq<bool>, matrix: seq<seq<bool>>,
    superRoutines: seq<nat>,
    pc: nat, I: nat, opcode: nat,
    delayTimer: nat, soundTimer: nat,
    blocked: bool, wasBlocked: bool, unblockKey: Option<Key>,
    shouldDraw: bool, error: Option<nat>)

  /** The shape of the state, and the range every stored value stays in. */
  predicate Valid(m: Machine)
  {
    && |m.ram| == MemorySize && (forall a | 0 <= a < |m.ram| :: m.ram[a] < WordBound)
    && |m.registers| == 16 && (forall r | 0 <= r < |m.registers| :: m.registers[r] < WordBound)
    && |m.keys| == 16
    && |m.matrix| == m.width && (forall x | 0 <= x < |m.matrix| :: |m.matrix[x]| == m.height)
    && m.delayTimer < WordBound && m.soundTimer < WordBound
  }

  /** A memory read: JavaScript yields `undefined` past the end of `ram`,
      which every operator that reads memory treats as 0. */
  function RamAt(ram: seq<nat>, a: nat): nat
  {
    if a < |ram| then ram[a] else 0
  }

  /** A framebuffer of the given size with no pixel lit. */
  function Blank(width: nat, height: nat): (fb: seq<seq<bool>>)
    ensures |fb| == width && forall x | 0 <= x < width :: fb[x] == seq(height, _ => false)
  {
    seq(width, _ => seq(height, _ => false))
  }

  // ---------------------------------------------------------------- loading

  /** Memory right after loading: the font at 0x50, the ROM at 0x200, zeros
      elsewhere.  The font loop of the source also writes the undefined 81st
      font entry to 0xA0, which the model keeps at 0. */
  function BootRam(rom: seq<Byte>): (ram: seq<nat>)
    requires |rom| <= MaxRomSize
    ensures |ram| == MemorySize && forall a | 0 <= a < |ram| :: ram[a] < 0x100
    ensures forall i | 0 <= i < |Font| :: ram[FontStart + i] == Font[i]
    ensures forall i | 0 <= i < |rom| :: ram[ProgramStart + i] == rom[i]
    ensures forall a | 0 <= a < |ram| && !(FontStart <= a < FontStart + |Font|)
                       && !(ProgramStart <= a < ProgramStart + |rom|) :: ram[a] == 0
  {
    seq(MemorySize, a requires 0 <= a < MemorySize =>
      if FontStart <= a < FontStart + |Font| then Font[a - FontStart]
      else if ProgramStart <= a < ProgramStart + |rom| then rom[a - ProgramStart]
      else 0)
  }

  /** The register file and the keyboard at start: all zero, all released. */
  const ClearedRegisters: seq<nat> := [0, 0, 0, 0, 0, 0, 0, 0, 0, 0, 0, 0, 0, 0, 0, 0]
  const ReleasedKeys: seq<bool> :=
    [false, false, false, false, false, false, false, false,
     false, false, false, false, false, false, false, false]

  /** The state `startEmulation` sets up for a ROM. */
  function Boot(width: nat, height: nat, rom: seq<Byte>): (m: Machine)
    requires |rom| <= MaxRomSize
    ensures Valid(m)
    ensures m.width == width && m.height == height && m.ram == BootRam(rom)
    ensures |m.registers| == 16 && forall r | 0 <= r < 16 :: m.registers[r] == 0
    ensures |m.keys| == 16 && forall k | 0 <= k < 16 :: !m.keys[k]
    ensures m.pc == ProgramStart && m.I == 0 && m.superRoutines == [] && m.opcode == 0
    ensures m.delayTimer == 0 && m.soundTimer == 0
    ensures !m.blocked && !m.wasBlocked && m.unblockKey == Some(0) && m.error == None
    ensures m.matrix == Blank(width, height) && m.shouldDraw
  {
    Machine(width, height, BootRam(rom), ClearedRegisters, ReleasedKeys, Blank(width, height),
            [], ProgramStart, 0, 0, 0, 0, false, false, Some(0), true, None)
  }

  /** The boot state is determined by its fields. */
  lemma BootFields(m: Machine, rom: seq<Byte>)
    requires |rom| <= MaxRomSize
    requires m.ram == BootRam(rom) && m.registers == ClearedRegisters && m.keys == ReleasedKeys
    requires m.matrix == Blank(m.width, m.height) && m.superRoutines == []
    requires m.pc == ProgramStart && m.I == 0 && m.opcode == 0 && m.delayTimer == 0 && m.soundTimer == 0
    requires !m.blocked && !m.wasBlocked && m.unblockKey == Some(0) && m.shouldDraw && m.error == None
    ensures m == Boot(m.width, m.height, rom)
  {
  }

  // ------------------------------------------------------------- execution

  /** The result of `interpretOpcode`: the new state, and whether `tickLogic`
      then advances the program counter by 2 (the source returns
      `!dontContinue`). */
  datatype Executed = Executed(next: Machine, advance: bool)

  /** The value `8xyE` shifts left: the flag write happens first, so for
      x = F it is the flag just written. */
  function ShiftLeftOperand(V: seq<nat>, x: Reg): nat
    requires |V| == 16
  {
    if x == FlagRegister then BitAnd(V[x], 0x80) else V[x]
  }

  /** The states in which the source's behaviour for an instruction is the
      one modelled: a return needs a return address, `8xyE` must stay in the
      positive 32-bit range, and memory writes and `Fx65` reads must fall
      inside `ram`. */
  predicate Defined(m: Machine, i: Instr)
    requires Valid(m)
  {
    match i
    case Return => |m.superRoutines| > 0
    case ShiftLeft(x, _) => ShiftLeftOperand(m.registers, x) < ShiftBound
    case StoreBcd(_) => m.I + 2 < MemorySize
    case StoreRegisters(x) => m.I + x < MemorySize
    case LoadRegisters(x) => m.I + x < MemorySize
    case _ => true
  }

  predicate IsArithmetic(i: Instr)
  {
    i.LoadImmediate? || i.AddImmediate? || i.Assign? || i.Or? || i.And? || i.Xor? || i.Add?
    || i.Subtract? || i.ShiftRight? || i.SubtractReverse? || i.ShiftLeft? || i.Random?
  }

  /** The arithmetic instructions that write VF. */
  predicate IsFlagged(i: Instr)
  {
    i.Add? || i.Subtract? || i.ShiftRight? || i.SubtractReverse? || i.ShiftLeft?
  }

  /** `8xy5` and `8xy7`: a negative difference is wrapped to 8 bits and sets
      VF to 1; otherwise the difference is stored as it is and VF is 0. */
  function Difference(V: seq<nat>, x: Reg, d: int): seq<nat>
    requires |V| == 16
  {
    if d < 0 then V[x := d % 0x100][FlagRegister := 1] else V[x := d][FlagRegister := 0]
  }

  /** The register file after one of the register-only instructions
      (`6xnn`, `7xnn`, `8xy_`, `Cxnn`); `rnd` is the random byte of `Cxnn`. */
  function Arithmetic(V: seq<nat>, i: Instr, rnd: nat): seq<nat>
    requires |V| == 16 && IsArithmetic(i)
  {
    match i
    case LoadImmediate(x, nn) => V[x := nn]
    case AddImmediate(x, nn) => V[x := (V[x] + nn) % 0x100]
    case Assign(x, y) => V[x := V[y]]
    case Or(x, y) => V[x := BitOr(V[x], V[y])]
    case And(x, y) => V[x := BitAnd(V[x], V[y])]
    case Xor(x, y) => V[x := BitXor(V[x], V[y])]
    case Add(x, y) =>
      var sum := V[x] + V[y];
      if sum > 0xFF then V[x := sum % 0x100][FlagRegister := 1] else V[x := sum][FlagRegister := 0]
    case Subtract(x, y) => Difference(V, x, V[x] as int - V[y])
    case ShiftRight(x, _) => var W := V[FlagRegister := BitAnd(V[x], 1)]; W[x := W[x] / 2]
    case SubtractReverse(x, y) => Difference(V, x, V[y] as int - V[x])
    case ShiftLeft(x, _) => var W := V[FlagRegister := BitAnd(V[x], 0x80)]; W[x := W[x] * 2]
    case Random(x, nn) => V[x := BitAnd(rnd, nn)]
  }

  /** Skips the next instruction (on top of the usual advance) when `cond` holds. */
  function SkipIf(m: Machine, cond: bool): Machine
  {
    m.(pc := m.pc + if cond then 2 else 0)
  }

  /** `keys[v]`: an index outside the sixteen keys reads `undefined`, which
      counts as not pressed. */
  predicate KeyPressed(keys: seq<bool>, v: nat)
  {
    v < |keys| && keys[v]
  }

  /** Whether the sprite of `n` rows at `ram[I..]`, drawn at (sx, sy), has
      its pixel (px, py) set: bit `7 - (px - sx)` of row `py - sy`, tested
      with the mask `0x80 >> (px - sx)`. */
  predicate SpriteBit(ram: seq<nat>, I: nat, sx: nat, sy: nat, n: nat, px: nat, py: nat)
  {
    && sx <= px < sx + 8 && sy <= py < sy + n
    && BitAnd(RamAt(ram, I + (py - sy)), Pow2(7 - (px - sx))) != 0
  }

  /** The framebuffer with the sprite XORed onto it, clipped at its edges. */
  function Drawn(fb: seq<seq<bool>>, ram: seq<nat>, I: nat, sx: nat, sy: nat, n: nat): (r: seq<seq<bool>>)
    ensures |r| == |fb| && forall px | 0 <= px < |fb| :: |r[px]| == |fb[px]|
  {
    seq(|fb|, px requires 0 <= px < |fb| =>
      seq(|fb[px]|, py requires 0 <= py < |fb[px]| => fb[px][py] != SpriteBit(ram, I, sx, sy, n, px, py)))
  }

  /** Whether some set sprite pixel falls on a lit pixel of the framebuffer. */
  predicate Collision(fb: seq<seq<bool>>, ram: seq<nat>, I: nat, sx: nat, sy: nat, n: nat)
  {
    exists px, py | 0 <= px < |fb| && 0 <= py < |fb[px]| :: SpriteBit(ram, I, sx, sy, n, px, py) && fb[px][py]
  }

  /** `Dxyn` */
  function DrawSprite(m: Machine, x: Reg, y: Reg, n: Nibble): Machine
    requires Valid(m)
  {
    var sx, sy := m.registers[x], m.registers[y];
    var hit := Collision(m.matrix, m.ram, m.I, sx, sy, n);
    m.(matrix := Drawn(m.matrix, m.ram, m.I, sx, sy, n),
       registers := m.registers[FlagRegister := if hit then 1 else 0],
       shouldDraw := true)
  }

  /** `Fx0A`: blocks (without advancing) unless a key press has released a
      block set by an earlier execution; then stores the key and advances. */
  function WaitForKey(m: Machine, x: Reg): Executed
    requires Valid(m)
  {
    if m.blocked || !m.wasBlocked then
      Executed(m.(wasBlocked := true, blocked := true), false)
    else
      Executed(m.(registers := m.registers[x := KeyValue(m.unblockKey)], wasBlocked := false), true)
  }

  /** The value `Fx0A` stores: the key pressed.  The source stores `false`
      for a key outside the layout; the model stores 0 there. */
  function KeyValue(k: Option<Key>): nat
  {
    match k
    case Some(key) => key
    case None => 0
  }

  /** `Fx33`: hundreds, tens and units of `v` at `I`, `I + 1`, `I + 2`. */
  function StoreDigits(ram: seq<nat>, I: nat, v: nat): seq<nat>
    requires I + 2 < |ram|
  {
    ram[I := v / 100][I + 1 := (v % 100) / 10][I + 2 := v % 10]
  }

  /** `Fx55`: V0..Vx copied to `ram[I..I + x]`. */
  function StoreRange(ram: seq<nat>, V: seq<nat>, I: nat, x: Reg): (r: seq<nat>)
    requires |V| == 16
    ensures |r| == |ram|
  {
    seq(|ram|, a requires 0 <= a < |ram| => if I <= a <= I + x then V[a - I] else ram[a])
  }

  /** `Fx65`: `ram[I..I + x]` copied to V0..Vx. */
  function LoadRange(ram: seq<nat>, V: seq<nat>, I: nat, x: Reg): (r: seq<nat>)
    requires |V| == 16 && I + x < |ram|
    ensures |r| == 16
  {
    seq(16, r requires 0 <= r < 16 => if r <= x then ram[I + r] else V[r])
  }

  /** Clearing the screen, returns, jumps, calls, and unknown opcodes. */
  predicate IsFlow(i: Instr)
  {
    i.ClearScreen? || i.Return? || i.Jump? || i.Call? || i.JumpOffset? || i.Unknown?
  }

  function Flow(m: Machine, i: Instr): Executed
    requires Valid(m) && IsFlow(i) && Defined(m, i)
  {
    match i
    case ClearScreen => Executed(m.(matrix := Blank(m.width, m.height), shouldDraw := true), true)
    case Return =>
      var depth := |m.superRoutines|;
      Executed(m.(pc := m.superRoutines[depth - 1], superRoutines := m.superRoutines[..depth - 1]), true)
    case Jump(a) => Executed(m.(pc := a), false)
    case Call(a) => Executed(m.(superRoutines := m.superRoutines + [m.pc], pc := a), false)
    case JumpOffset(a) => Executed(m.(pc := m.registers[0] + a), false)
    case Unknown(op) => Executed(m.(error := Some(op)), true)
  }

  /** The conditional skips. */
  predicate IsSkip(i: Instr)
  {
    i.SkipIfEqual? || i.SkipIfNotEqual? || i.SkipIfRegistersEqual? || i.SkipIfRegistersDiffer?
    || i.SkipIfKey? || i.SkipIfNotKey?
  }

  /** Whether a skip instruction skips. */
  predicate SkipCondition(m: Machine, i: Instr)
    requires Valid(m) && IsSkip(i)
  {
    var V := m.registers;
    match i
    case SkipIfEqual(x, nn) => V[x] == nn
    case SkipIfNotEqual(x, nn) => V[x] != nn
    case SkipIfRegistersEqual(x, y) => V[x] == V[y]
    case SkipIfRegistersDiffer(x, y) => V[x] != V[y]
    case SkipIfKey(x) => KeyPressed(m.keys, V[x])
    case SkipIfNotKey(x) => !KeyPressed(m.keys, V[x])
  }

  /** The instructions that set the index register. */
  predicate IsIndex(i: Instr)
  {
    i.LoadIndex? || i.AddIndex? || i.LoadFont?
  }

  function IndexUpdate(m: Machine, i: Instr): Machine
    requires Valid(m) && IsIndex(i)
  {
    var V := m.registers;
    match i
    case LoadIndex(a) => m.(I := a)
    case AddIndex(x) =>
      var sum := m.I + V[x];
      if sum > 0xFFF then m.(I := sum % 0x1000, registers := V[FlagRegister := 1])
      else m.(I := sum, registers := V[FlagRegister := 0])
    case LoadFont(x) => m.(I := FontStart + V[x] * 5)
  }

  /** The timer instructions and waiting for a key. */
  predicate IsTimer(i: Instr)
  {
    i.LoadDelay? || i.WaitKey? || i.SetDelay? || i.SetSound?
  }

  function TimerUpdate(m: Machine, i: Instr): Executed
    requires Valid(m) && IsTimer(i)
  {
    var V := m.registers;
    match i
    case LoadDelay(x) => Executed(m.(registers := V[x := m.delayTimer]), true)
    case WaitKey(x) => WaitForKey(m, x)
    case SetDelay(x) => Executed(m.(delayTimer := V[x]), true)
    case SetSound(x) => Executed(m.(soundTimer := V[x]), true)
  }

  /** The instructions that move data between registers and memory. */
  predicate IsMemory(i: Instr)
  {
    i.StoreBcd? || i.StoreRegisters? || i.LoadRegisters?
  }

  function Memory(m: Machine, i: Instr): Machine
    requires Valid(m) && IsMemory(i) && Defined(m, i)
  {
    var V := m.registers;
    match i
    case StoreBcd(x) => m.(ram := StoreDigits(m.ram, m.I, V[x]))
    case StoreRegisters(x) => m.(ram := StoreRange(m.ram, V, m.I, x))
    case LoadRegisters(x) => m.(registers := LoadRange(m.ram, V, m.I, x))
  }

  /** `interpretOpcode` for a decoded instruction; `rnd` stands for
      `Math.floor(Math.random() * 0xff)`. */
  function Execute(m: Machine, i: Instr, rnd: nat): Executed
    requires Valid(m) && Defined(m, i) && rnd < 0xFF
  {
    if IsFlow(i) then Flow(m, i)
    else if IsSkip(i) then Executed(SkipIf(m, SkipCondition(m, i)), true)
    else if IsArithmetic(i) then Executed(m.(registers := Arithmetic(m.registers, i, rnd)), true)
    else if IsIndex(i) then Executed(IndexUpdate(m, i), true)
    else if IsTimer(i) then TimerUpdate(m, i)
    else if IsMemory(i) then Executed(Memory(m, i), true)
    else Executed(DrawSprite(m, i.x, i.y, i.n), true)
  }

  // `Execute` on each group of instructions.

  lemma FlowCase(m: Machine, i: Instr, rnd: nat)
    requires Valid(m) && Defined(m, i) && rnd < 0xFF && IsFlow(i)
    ensures Execute(m, i, rnd) == Flow(m, i)
  {
  }

  lemma SkipCase(m: Machine, i: Instr, rnd: nat)
    requires Valid(m) && Defined(m, i) && rnd < 0xFF && IsSkip(i)
    ensures Execute(m, i, rnd) == Executed(SkipIf(m, SkipCondition(m, i)), true)
  {
  }

  lemma ArithmeticCase(m: Machine, i: Instr, rnd: nat)
    requires Valid(m) && Defined(m, i) && rnd < 0xFF && IsArithmetic(i)
    ensures Execute(m, i, rnd) == Executed(m.(registers := Arithmetic(m.registers, i, rnd)), true)
  {
  }

  lemma IndexCase(m: Machine, i: Instr, rnd: nat)
    requires Valid(m) && Defined(m, i) && rnd < 0xFF && IsIndex(i)
    ensures Execute(m, i, rnd) == Executed(IndexUpdate(m, i), true)
  {
  }

  lemma TimerCase(m: Machine, i: Instr, rnd: nat)
    requires Valid(m) && Defined(m, i) && rnd < 0xFF && IsTimer(i)
    ensures Execute(m, i, rnd) == TimerUpdate(m, i)
  {
  }

  lemma MemoryCase(m: Machine, i: Instr, rnd: nat)
    requires Valid(m) && Defined(m, i) && rnd < 0xFF && IsMemory(i)
    ensures Execute(m, i, rnd) == Executed(Memory(m, i), true)
  {
  }

  lemma DrawCase(m: Machine, i: Instr, rnd: nat)
    requires Valid(m) && Defined(m, i) && rnd < 0xFF && i.Draw?
    ensures Execute(m, i, rnd) == Executed(DrawSprite(m, i.x, i.y, i.n), true)
  {
  }

  /** The register-only instructions keep every register in the word range. */
  lemma ArithmeticValid(V: seq<nat>, i: Instr, rnd: nat)
    requires |V| == 16 && IsArithmetic(i) && rnd < 0xFF
    requires forall r | 0 <= r < 16 :: V[r] < WordBound
    requires i.ShiftLeft? ==> ShiftLeftOperand(V, i.x) < ShiftBound
    ensures var W := Arithmetic(V, i, rnd); |W| == 16 && forall r | 0 <= r < 16 :: W[r] < WordBound
  {
    if IsFlagged(i) {
      FlaggedValid(V, i, rnd);
    } else {
      LogicValid(V, i, rnd);
    }
  }

  lemma LogicValid(V: seq<nat>, i: Instr, rnd: nat)
    requires |V| == 16 && IsArithmetic(i) && !IsFlagged(i) && rnd < 0xFF
    requires forall r | 0 <= r < 16 :: V[r] < WordBound
    ensures var W := Arithmetic(V, i, rnd); |W| == 16 && forall r | 0 <= r < 16 :: W[r] < WordBound
  {
    match i
    case Or(x, y) =>
      Pow2Values();
      OrBelow(V[x], V[y], 31);
      StoreBelow(V, x, BitOr(V[x], V[y]));
    case Xor(x, y) =>
      Pow2Values();
      XorBelow(V[x], V[y], 31);
      StoreBelow(V, x, BitXor(V[x], V[y]));
    case LoadImmediate(x, nn) => StoreBelow(V, x, nn);
    case AddImmediate(x, nn) => StoreBelow(V, x, (V[x] + nn) % 0x100);
    case Assign(x, y) => StoreBelow(V, x, V[y]);
    case And(x, y) => StoreBelow(V, x, BitAnd(V[x], V[y]));
    case Random(x, nn) => StoreBelow(V, x, BitAnd(rnd, nn));
  }

  /** Storing a value below the word bound keeps every register below it. */
  lemma StoreBelow(V: seq<nat>, x: Reg, v: nat)
    requires |V| == 16 && v < WordBound
    requires forall r | 0 <= r < 16 :: V[r] < WordBound
    ensures RegistersBelow(V[x := v])
  {
  }

  /** Sixteen registers, each below the word bound. */
  predicate RegistersBelow(V: seq<nat>)
  {
    |V| == 16 && forall r | 0 <= r < 16 :: V[r] < WordBound
  }

  lemma FlaggedValid(V: seq<nat>, i: Instr, rnd: nat)
    requires |V| == 16 && IsFlagged(i)
    requires forall r | 0 <= r < 16 :: V[r] < WordBound
    requires i.ShiftLeft? ==> ShiftLeftOperand(V, i.x) < ShiftBound
    ensures var W := Arithmetic(V, i, rnd); |W| == 16 && forall r | 0 <= r < 16 :: W[r] < WordBound
  {
    match i
    case Add(x, y) =>
    case Subtract(x, y) =>
    case SubtractReverse(x, y) =>
    case ShiftRight(x, _) =>
      assert BitAnd(V[x], 1) <= 1;
    case ShiftLeft(x, _) =>
      assert BitAnd(V[x], 0x80) <= 0x80;
  }

  lemma FlowValid(m: Machine, i: Instr)
    requires Valid(m) && IsFlow(i) && Defined(m, i)
    ensures Valid(Flow(m, i).next)
  {
  }

  lemma IndexValid(m: Machine, i: Instr)
    requires Valid(m) && IsIndex(i)
    ensures Valid(IndexUpdate(m, i))
  {
  }

  lemma TimerValid(m: Machine, i: Instr)
    requires Valid(m) && IsTimer(i)
    ensures Valid(TimerUpdate(m, i).next)
  {
  }

  lemma MemoryValid(m: Machine, i: Instr)
    requires Valid(m) && IsMemory(i) && Defined(m, i)
    ensures Valid(Memory(m, i))
  {
  }

  lemma DrawValid(m: Machine, x: Reg, y: Reg, n: Nibble)
    requires Valid(m)
    ensures Valid(DrawSprite(m, x, y, n))
  {
  }

  /** Every instruction keeps the state's shape and value ranges. */
  lemma ExecuteValid(m: Machine, i: Instr, rnd: nat)
    requires Valid(m) && Defined(m, i) && rnd < 0xFF
    ensures Valid(Execute(m, i, rnd).next)
  {
    if IsFlow(i) {
      FlowValid(m, i);
    } else if IsSkip(i) {
    } else if IsArithmetic(i) {
      ArithmeticValid(m.registers, i, rnd);
    } else if IsIndex(i) {
      IndexValid(m, i);
    } else if IsTimer(i) {
      TimerValid(m, i);
    } else if IsMemory(i) {
      MemoryValid(m, i);
    } else {
      DrawValid(m, i.x, i.y, i.n);
    }
  }

  // ------------------------------------------------------------------ ticks

  /** One timer step: a running timer goes down by one, a stopped one stays 0. */
  function Countdown(t: nat): nat
  {
    if t > 0 then t - 1 else 0
  }

  /** `(ram[pc] << 8) | ram[pc + 1]` is only the modelled value while the
      shift stays in the positive 32-bit range. */
  predicate CanFetch(m: Machine)
  {
    RamAt(m.ram, m.pc) < FetchBound
  }

  /** The opcode at `pc`. */
  function Fetch(m: Machine): nat
    requires CanFetch(m)
  {
    BitOr(RamAt(m.ram, m.pc) * 0x100, RamAt(m.ram, m.pc + 1))
  }

  /** The machine after the timer step of a tick, which the fetched
      instruction then runs on. */
  function TimersStepped(m: Machine): Machine
  {
    m.(delayTimer := Countdown(m.delayTimer), soundTimer := Countdown(m.soundTimer))
  }

  predicate CanTick(m: Machine, rnd: nat)
  {
    Valid(m) && rnd < 0xFF && CanFetch(m) && Defined(m, Decode(Fetch(m)))
  }

  /** The result of `tickLogic`: the new state and whether the delay and
      sound "timer ended" hooks ran (the sound hook plays the beep). */
  datatype Ticked = Ticked(next: Machine, delayHook: bool, soundHook: bool)

  /** The state a tick executes its instruction in: timers stepped and the
      opcode at `pc` fetched. */
  function Fetched(m: Machine): Machine
    requires CanFetch(m)
  {
    TimersStepped(m).(opcode := Fetch(m))
  }

  /** The program counter after `interpretOpcode`: advanced by 2 unless the
      instruction redirected it. */
  function Advanced(e: Executed): Machine
  {
    if e.advance then e.next.(pc := e.next.pc + 2) else e.next
  }

  /** `tickLogic`: timers, fetch, execute, advance. */
  function Tick(m: Machine, rnd: nat): Ticked
    requires CanTick(m, rnd)
  {
    FetchedDefined(m);
    var f := Fetched(m);
    Ticked(Advanced(Execute(f, Decode(f.opcode), rnd)), m.delayTimer > 1, m.soundTimer > 1)
  }

  /** The timer step and the fetch change neither the validity of the state
      nor which instructions are defined in it. */
  lemma FetchedDefined(m: Machine)
    requires Valid(m) && CanFetch(m)
    ensures Valid(Fetched(m)) && Defined(Fetched(m), Decode(Fetch(m))) == Defined(m, Decode(Fetch(m)))
  {
  }

  /** A tick keeps the state's shape and value ranges. */
  lemma TickValid(m: Machine, rnd: nat)
    requires CanTick(m, rnd)
    ensures Valid(Tick(m, rnd).next)
  {
    FetchedDefined(m);
    ExecuteValid(Fetched(m), Decode(Fetch(m)), rnd);
  }

  /** Ticks with the given random bytes, one per tick, while each is defined. */
  function Run(m: Machine, rnds: seq<nat>): Option<Machine>
    decreases |rnds|
  {
    if rnds == [] then Some(m)
    else if CanTick(m, rnds[0]) then Run(Tick(m, rnds[0]).next, rnds[1..])
    else None
  }

  // ------------------------------------------------------------------- keys

  /** The `keydown` handler: any key releases a pending `Fx0A` and becomes
      the unblock key; a CHIP-8 key is also marked pressed. */
  function PressKey(m: Machine, code: int): Machine
    requires Valid(m)
  {
    var k := KeyToKeyboard(code);
    m.(blocked := false, unblockKey := k,
       keys := if k.Some? then m.keys[k.value := true] else m.keys)
  }

  /** The `keyup` handler: a CHIP-8 key is marked released. */
  function ReleaseKey(m: Machine, code: int): Machine
    requires Valid(m)
  {
    var k := KeyToKeyboard(code);
    m.(keys := if k.Some? then m.keys[k.value := false] else m.keys)
  }
}
