/** The `Emulator` class of app/class/Emulator.js: the machine state kept in
    fields and arrays and updated in place.  Every method is proved to
    perform the corresponding step of the value model in chip8.dfy, read
    through `State()`. */
module EmulatorClass {
  import opened Wrappers
  import opened Bits
  import opened Opcode
  import opened Keyboard
  import opened Chip8

  class Emulator {
    /** The framebuffer size, from the configuration module (not part of this model). */
    const width: nat
    const height: nat

    var ram: array<nat>
    var registers: array<nat>
    var keys: array<bool>
    /** Column-major: `matrix[x, y]`, lit when `true`. */
    var matrix: array2<bool>
    var superRoutines: seq<nat>
    var pc: nat
    var I: nat
    var opcode: nat
    var delayTimer: nat
    var soundTimer: nat
    var blocked: bool
    var wasBlocked: bool
    var unblockKey: Option<Key>
    var shouldDraw: bool
    /** The opcode last reported by `handleError`, if any. */
    var error: Option<nat>

    /** The framebuffer as a sequence of columns. */
    ghost function Columns(): (fb: seq<seq<bool>>)
      reads this`matrix, matrix
      ensures |fb| == matrix.Length0 && forall x | 0 <= x < |fb| :: |fb[x]| == matrix.Length1
    {
      var cells := matrix;
      seq(cells.Length0, x requires 0 <= x < cells.Length0 reads cells =>
        seq(cells.Length1, y requires 0 <= y < cells.Length1 reads cells => cells[x, y]))
    }

    /** The value this object stands for. */
    ghost function State(): Machine
      reads this, ram, registers, keys, matrix
    {
      Machine(width, height, ram[..], registers[..], keys[..], Columns(), superRoutines,
              pc, I, opcode, delayTimer, soundTimer, blocked, wasBlocked, unblockKey,
              shouldDraw, error)
    }

    /** The arrays have their sizes and `ram` and `registers` are distinct. */
    ghost predicate Shaped()
      reads this
    {
      && ram != registers && ram.Length == MemorySize && registers.Length == 16 && keys.Length == 16
      && matrix.Length0 == width && matrix.Length1 == height
    }

    ghost predicate Valid()
      reads this, ram, registers, keys, matrix
    {
      Shaped() && Chip8.Valid(State())
    }

    /** `new Emulator(file)` once the file has been read: `startEmulation`
        creates the arrays, so the constructor only gives them a placeholder. */
    constructor (width: nat, height: nat, rom: seq<Byte>)
      requires |rom| <= MaxRomSize
      ensures Valid() && State() == Boot(width, height, rom)
    {
      this.width, this.height := width, height;
      ram, registers, keys := new nat[0], new nat[0], new bool[0];
      matrix := new bool[0, 0];
      new;
      StartEmulation(rom);
    }

    /** `startEmulation`: resets every field, copies the ROM to 0x200 and the
        font to 0x50, and clears the screen. */
    method StartEmulation(rom: seq<Byte>)
      requires |rom| <= MaxRomSize
      modifies this
      ensures Valid() && State() == Boot(width, height, rom)
      ensures fresh(ram) && fresh(registers) && fresh(keys) && fresh(matrix)
    {
      ResetScalars();
      Allocate(rom);
      IsBoot(rom);
    }

    /** The scalar fields `startEmulation` resets. */
    method ResetScalars()
      modifies this`delayTimer, this`soundTimer, this`opcode, this`pc, this`I, this`wasBlocked, this`blocked
      modifies this`unblockKey, this`superRoutines, this`error
      ensures Reset()
    {
      delayTimer, soundTimer, opcode, pc, I := 0, 0, 0, ProgramStart, 0;
      wasBlocked, blocked, unblockKey := false, false, Some(0);
      superRoutines, error := [], None;
    }

    /** The arrays `startEmulation` creates: released keys, the loaded
        memory, cleared registers and a blank screen. */
    method Allocate(rom: seq<Byte>)
      requires |rom| <= MaxRomSize
      modifies this`keys, this`ram, this`registers, this`matrix, this`shouldDraw
      ensures fresh(ram) && fresh(registers) && fresh(keys) && fresh(matrix) && Allocated(rom)
    {
      keys := new bool[16](_ => false);
      ram := LoadMemory(rom);
      registers := new nat[16](_ => 0);
      Clear();
      assert registers[..] == ClearedRegisters;
      assert keys[..] == ReleasedKeys;
    }

    /** The scalar fields as `startEmulation` leaves them. */
    ghost predicate Reset()
      reads this
    {
      && superRoutines == [] && pc == ProgramStart && I == 0 && opcode == 0 && delayTimer == 0 && soundTimer == 0
      && !blocked && !wasBlocked && unblockKey == Some(0) && error == None
    }

    /** The arrays as `startEmulation` leaves them. */
    ghost predicate Allocated(rom: seq<Byte>)
      requires |rom| <= MaxRomSize
      reads this, ram, registers, keys, matrix
    {
      && Shaped() && ram[..] == BootRam(rom) && registers[..] == ClearedRegisters && keys[..] == ReleasedKeys
      && Columns() == Blank(width, height) && shouldDraw
    }

    /** Once the fields and the arrays are reset, the object stands for the
        boot state. */
    lemma IsBoot(rom: seq<Byte>)
      requires |rom| <= MaxRomSize && Reset() && Allocated(rom)
      ensures Valid() && State() == Boot(width, height, rom)
    {
      BootFields(State(), rom);
    }

    /** The `keydown` handler. */
    method KeyDown(code: int)
      requires Valid()
      modifies this`blocked, this`unblockKey, keys
      ensures Valid() && State() == PressKey(old(State()), code)
    {
      blocked := false;
      var key := KeyToKeyboard(code);
      unblockKey := key;
      if key.Some? {
        keys[key.value] := true;
      }
    }

    /** The `keyup` handler. */
    method KeyUp(code: int)
      requires Valid()
      modifies keys
      ensures Valid() && State() == ReleaseKey(old(State()), code)
    {
      var key := KeyToKeyboard(code);
      if key.Some? {
        keys[key.value] := false;
      }
    }

    /** `clear`: a new, unlit framebuffer, marked for redrawing. */
    method Clear()
      modifies this`matrix, this`shouldDraw
      ensures fresh(matrix) && matrix.Length0 == width && matrix.Length1 == height
      ensures Columns() == Blank(width, height) && shouldDraw
    {
      matrix := new bool[width, height]((_, _) => false);
      shouldDraw := true;
      forall x | 0 <= x < width
        ensures Columns()[x] == Blank(width, height)[x]
      {
      }
    }

    /** `tickLogic`: steps the timers, reporting whether each "timer ended"
        hook ran, fetches the opcode at `pc`, executes it and advances `pc`
        unless the instruction redirected it. */
    method TickLogic(rnd: nat) returns (delayHook: bool, soundHook: bool)
      requires Valid() && CanTick(State(), rnd)
      modifies this, ram, registers, matrix
      ensures Valid() && ram == old(ram) && registers == old(registers) && keys == old(keys)
      ensures Ticked(State(), delayHook, soundHook) == Tick(old(State()), rnd)
    {
      ghost var m := State();
      FetchedDefined(m);
      TickValid(m, rnd);
      delayHook, soundHook := StartTick();
      var advance := InterpretOpcode(rnd);
      if advance {
        pc := pc + 2;
      }
    }

    /** The part of `tickLogic` before `interpretOpcode`. */
    method StartTick() returns (delayHook: bool, soundHook: bool)
      requires Shaped() && CanFetch(State())
      modifies this`delayTimer, this`soundTimer, this`opcode
      ensures State() == Fetched(old(State()))
      ensures delayHook == (old(delayTimer) > 1) && soundHook == (old(soundTimer) > 1)
    {
      delayHook, soundHook := StepTimers();
      FetchOpcode();
    }

    /** The timer step of `tickLogic`: a running timer counts down, and its
        "timer ended" hook runs when it is still running afterwards. */
    method StepTimers() returns (delayHook: bool, soundHook: bool)
      modifies this`delayTimer, this`soundTimer
      ensures State() == TimersStepped(old(State()))
      ensures delayHook == (old(delayTimer) > 1) && soundHook == (old(soundTimer) > 1)
    {
      delayHook, soundHook := false, false;
      if delayTimer != 0 {
        delayTimer := delayTimer - 1;
        if delayTimer != 0 {
          delayHook := true;
        }
      }
      if soundTimer != 0 {
        soundTimer := soundTimer - 1;
        if soundTimer != 0 {
          soundHook := true;
        }
      }
    }

    /** The fetch of `tickLogic`: the big-endian opcode at `pc`. */
    method FetchOpcode()
      requires Shaped() && CanFetch(State())
      modifies this`opcode
      ensures State() == old(State()).(opcode := Fetch(old(State())))
    {
      var high := if pc < ram.Length then ram[pc] else 0;
      var low := if pc + 1 < ram.Length then ram[pc + 1] else 0;
      opcode := BitOr(high * 0x100, low);
    }

    /** `interpretOpcode`: executes the instruction `opcode` holds and returns
        whether the program counter should then advance. */
    method InterpretOpcode(rnd: nat) returns (advance: bool)
      requires Valid() && rnd < 0xFF && Defined(State(), Decode(opcode))
      modifies this, ram, registers, matrix
      ensures Shaped() && ram == old(ram) && registers == old(registers) && keys == old(keys)
      ensures Executed(State(), advance) == Execute(old(State()), Decode(old(opcode)), rnd)
      ensures Valid()
    {
      var instr := Decode(opcode);
      ghost var m := State();
      ExecuteValid(m, instr, rnd);
      advance := true;
      if IsFlow(instr) {
        FlowCase(m, instr, rnd);
        advance := ExecuteFlow(instr);
      } else if IsSkip(instr) {
        SkipCase(m, instr, rnd);
        ExecuteSkip(instr);
      } else if IsArithmetic(instr) {
        ArithmeticCase(m, instr, rnd);
        ExecuteArithmetic(instr, rnd);
      } else if IsIndex(instr) {
        IndexCase(m, instr, rnd);
        ExecuteIndex(instr);
      } else if IsTimer(instr) {
        TimerCase(m, instr, rnd);
        advance := ExecuteTimers(instr);
      } else if IsMemory(instr) {
        MemoryCase(m, instr, rnd);
        ExecuteMemory(instr);
      } else {
        DrawCase(m, instr, rnd);
        DrawSprite(instr.x, instr.y, instr.n);
      }
    }

    /** `6xnn`, `7xnn`, the `8xy_` group and `Cxnn`: the register-only
        instructions. */
    method ExecuteArithmetic(instr: Instr, rnd: nat)
      requires Shaped() && IsArithmetic(instr)
      modifies registers
      ensures State() == old(State()).(registers := Arithmetic(old(registers[..]), instr, rnd))
    {
      if IsFlagged(instr) {
        ExecuteFlagged(instr);
        assert Arithmetic(old(registers[..]), instr, 0) == Arithmetic(old(registers[..]), instr, rnd);
      } else {
        ExecuteLogic(instr, rnd);
      }
    }

    /** `6xnn`, `7xnn`, `8xy0` to `8xy3` and `Cxnn`, written as the source
        writes them. */
    method ExecuteLogic(instr: Instr, rnd: nat)
      requires Shaped() && IsArithmetic(instr) && !IsFlagged(instr)
      modifies registers
      ensures registers[..] == Arithmetic(old(registers[..]), instr, rnd)
    {
      match instr {
        case LoadImmediate(x, nn) =>
          registers[x] := nn;
        case AddImmediate(x, nn) =>
          registers[x] := registers[x] + nn;
          registers[x] := registers[x] % 0x100;
        case Assign(x, y) =>
          registers[x] := registers[y];
        case Or(x, y) =>
          registers[x] := BitOr(registers[x], registers[y]);
        case And(x, y) =>
          registers[x] := BitAnd(registers[x], registers[y]);
        case Xor(x, y) =>
          registers[x] := BitXor(registers[x], registers[y]);
        case Random(x, nn) =>
          registers[x] := BitAnd(rnd, nn);
      }
    }

    /** `8xy4` to `8xyE`, which also set the flag register VF. */
    method ExecuteFlagged(instr: Instr)
      requires Shaped() && IsFlagged(instr)
      modifies registers
      ensures registers[..] == Arithmetic(old(registers[..]), instr, 0)
    {
      match instr {
        case Add(x, y) =>
          registers[x] := registers[x] + registers[y];
          if registers[x] > 0xFF {
            registers[x] := registers[x] % 0x100;
            registers[FlagRegister] := 1;
          } else {
            registers[FlagRegister] := 0;
          }
        case Subtract(x, y) =>
          var difference := registers[x] as int - registers[y];
          StoreDifference(x, difference);
        case ShiftRight(x, _) =>
          registers[FlagRegister] := BitAnd(registers[x], 1);
          registers[x] := registers[x] / 2;
        case SubtractReverse(x, y) =>
          var difference := registers[y] as int - registers[x];
          StoreDifference(x, difference);
        case ShiftLeft(x, _) =>
          registers[FlagRegister] := BitAnd(registers[x], 0x80);
          registers[x] := registers[x] * 2;
      }
    }

    /** The tail of `8xy5` and `8xy7`. */
    method StoreDifference(x: Reg, difference: int)
      requires Shaped()
      modifies registers
      ensures registers[..] == Difference(old(registers[..]), x, difference)
    {
      if difference < 0 {
        registers[x] := difference % 0x100;
        registers[FlagRegister] := 1;
      } else {
        registers[x] := difference;
        registers[FlagRegister] := 0;
      }
    }

    /** `Dxyn`: XORs the sprite at `ram[I..]` onto the framebuffer column by
        column, clipping at the right and bottom edges, and sets VF when a
        lit pixel is turned off. */
    method DrawSprite(x: Reg, y: Reg, n: Nibble)
      requires Valid()
      modifies registers, matrix, this`shouldDraw
      ensures Shaped() && State() == Chip8.DrawSprite(old(State()), x, y, n)
    {
      ghost var fb := Columns();
      ghost var V := registers[..];
      var startX, startY := registers[x], registers[y];
      var endX := startX + 8;
      registers[FlagRegister] := 0;
      DrawingStarts(fb, V, startX, startY, n);
      var px := startX;
      while px < endX && px < matrix.Length0
        modifies registers, matrix
        invariant startX <= px <= startX + 8
        invariant DrawnUpTo(fb, V, startX, startY, n, px, startY)
      {
        DrawColumn(fb, V, startX, startY, n, px);
        px := px + 1;
      }
      shouldDraw := true;
      DrawingEnds(fb, V, startX, startY, n, px);
    }

    /** Whether pixel (i, j) comes before pixel (px, py) in the drawing order:
        column by column, top to bottom. */
    static predicate Before(i: nat, j: nat, px: nat, py: nat)
    {
      i < px || (i == px && j < py)
    }

    /** The framebuffer `fb` and the registers `V` as they are while the sprite
        is drawn up to pixel (px, py): the pixels before it are XORed with
        the sprite, the rest untouched, and VF records a collision among the
        pixels before it. */
    ghost predicate DrawnUpTo(fb: seq<seq<bool>>, V: seq<nat>, sx: nat, sy: nat, n: nat, px: nat, py: nat)
      reads this, ram, registers, matrix
    {
      && Shaped() && |V| == 16 && |fb| == width && (forall i | 0 <= i < width :: |fb[i]| == height)
      && registers[..] == V[FlagRegister := registers[FlagRegister]]
      && (forall i, j | 0 <= i < width && 0 <= j < height ::
            matrix[i, j] == (fb[i][j] != (Before(i, j, px, py) && SpriteBit(ram[..], I, sx, sy, n, i, j))))
      && registers[FlagRegister] ==
           if exists i, j | 0 <= i < width && 0 <= j < height && Before(i, j, px, py) ::
                SpriteBit(ram[..], I, sx, sy, n, i, j) && fb[i][j]
           then 1 else 0
    }

    /** Before the first pixel nothing is drawn. */
    lemma DrawingStarts(fb: seq<seq<bool>>, V: seq<nat>, sx: nat, sy: nat, n: nat)
      requires Shaped() && fb == Columns() && |V| == 16
      requires registers[..] == V[FlagRegister := 0]
      ensures DrawnUpTo(fb, V, sx, sy, n, sx, sy)
    {
    }

    /** Once the column loop stops every sprite pixel on screen is drawn. */
    lemma DrawingEnds(fb: seq<seq<bool>>, V: seq<nat>, sx: nat, sy: nat, n: nat, px: nat)
      requires DrawnUpTo(fb, V, sx, sy, n, px, sy)
      requires px >= sx + 8 || px >= width
      ensures Columns() == Drawn(fb, ram[..], I, sx, sy, n)
      ensures registers[..] == V[FlagRegister := if Collision(fb, ram[..], I, sx, sy, n) then 1 else 0]
    {
      forall i | 0 <= i < width
        ensures Columns()[i] == Drawn(fb, ram[..], I, sx, sy, n)[i]
      {
      }
    }

    /** One column of `Dxyn`, from row `sy` down to the sprite's last row or
        the bottom edge. */
    method DrawColumn(ghost fb: seq<seq<bool>>, ghost V: seq<nat>, sx: nat, sy: nat, n: Nibble, px: nat)
      requires DrawnUpTo(fb, V, sx, sy, n, px, sy) && sx <= px < sx + 8 && px < width
      modifies registers, matrix
      ensures DrawnUpTo(fb, V, sx, sy, n, px + 1, sy)
    {
      var py := sy;
      while py < sy + n && py < matrix.Length1
        modifies registers, matrix
        invariant sy <= py <= sy + n
        invariant DrawnUpTo(fb, V, sx, sy, n, px, py)
      {
        DrawPixel(fb, V, sx, sy, n, px, py);
        py := py + 1;
      }
      ColumnEnds(fb, V, sx, sy, n, px, py);
    }

    lemma ColumnEnds(fb: seq<seq<bool>>, V: seq<nat>, sx: nat, sy: nat, n: nat, px: nat, py: nat)
      requires DrawnUpTo(fb, V, sx, sy, n, px, py) && py >= sy && (py >= sy + n || py >= height)
      ensures DrawnUpTo(fb, V, sx, sy, n, px + 1, sy)
    {
      assert forall i, j | 0 <= i < width && 0 <= j < height && SpriteBit(ram[..], I, sx, sy, n, i, j) ::
        Before(i, j, px, py) == Before(i, j, px + 1, sy);
    }

    /** One pixel of `Dxyn`. */
    method DrawPixel(ghost fb: seq<seq<bool>>, ghost V: seq<nat>, sx: nat, sy: nat, n: Nibble, px: nat, py: nat)
      requires DrawnUpTo(fb, V, sx, sy, n, px, py)
      requires sx <= px < sx + 8 && px < width && sy <= py < sy + n && py < height
      modifies registers, matrix
      ensures DrawnUpTo(fb, V, sx, sy, n, px, py + 1)
    {
      ghost var mem := ram[..];
      var pixels := if I + (py - sy) < ram.Length then ram[I + (py - sy)] else 0;
      var pixel := BitAnd(pixels, Pow2(7 - (px - sx)));  // pixels & (0x80 >> (x - startX))
      var currentPixel := matrix[px, py];
      assert SpriteBit(mem, I, sx, sy, n, px, py) == (pixel != 0);
      assert currentPixel == fb[px][py];
      if pixel != 0 && currentPixel {
        registers[FlagRegister] := 1;
      }
      matrix[px, py] := currentPixel != (pixel != 0);
      assert ram[..] == mem;
    }

    /** `Fx33`, `Fx55` and `Fx65`. */
    method ExecuteMemory(instr: Instr)
      requires Valid() && IsMemory(instr) && Defined(State(), instr)
      modifies ram, registers
      ensures State() == Memory(old(State()), instr)
    {
      match instr {
        case StoreBcd(x) =>
          StoreBcd(x);
        case StoreRegisters(x) =>
          StoreRegisters(x);
        case LoadRegisters(x) =>
          LoadRegisters(x);
      }
    }

    /** `Fx33`: the decimal digits of Vx at `I`, `I + 1` and `I + 2`. */
    method StoreBcd(x: Reg)
      requires Shaped() && I + 2 < MemorySize
      modifies ram
      ensures ram[..] == StoreDigits(old(ram[..]), I, registers[x])
    {
      var value := registers[x];
      ram[I] := value / 100;
      ram[I + 1] := (value % 100) / 10;
      ram[I + 2] := value % 10;
    }

    /** `Fx55`: V0..Vx copied to memory from `I` on. */
    method StoreRegisters(x: Reg)
      requires Shaped() && I + x < MemorySize
      modifies ram
      ensures ram[..] == StoreRange(old(ram[..]), registers[..], I, x)
    {
      var i := 0;
      while i <= x
        modifies ram
        invariant 0 <= i <= x + 1
        invariant forall a | 0 <= a < ram.Length ::
          ram[a] == if I <= a < I + i then registers[a - I] else old(ram[a])
      {
        ram[I + i] := registers[i];
        i := i + 1;
      }
    }

    /** `Fx65`: memory from `I` on copied to V0..Vx. */
    method LoadRegisters(x: Reg)
      requires Shaped() && I + x < MemorySize
      modifies registers
      ensures registers[..] == LoadRange(ram[..], old(registers[..]), I, x)
    {
      var i := 0;
      while i <= x
        modifies registers
        invariant 0 <= i <= x + 1
        invariant forall r | 0 <= r < 16 :: registers[r] == if r < i then ram[I + r] else old(registers[r])
      {
        registers[i] := ram[I + i];
        i := i + 1;
      }
    }

    /** `Annn`, `Fx1E` and `Fx29`: the index register. */
    method ExecuteIndex(instr: Instr)
      requires Valid() && IsIndex(instr)
      modifies this`I, registers
      ensures ram == old(ram) && registers == old(registers) && keys == old(keys) && matrix == old(matrix)
      ensures State() == IndexUpdate(old(State()), instr)
    {
      match instr {
        case LoadIndex(a) =>
          I := a;
        case AddIndex(x) =>
          I := I + registers[x];
          if I > 0xFFF {
            I := I % 0x1000;
            registers[FlagRegister] := 1;
          } else {
            registers[FlagRegister] := 0;
          }
        case LoadFont(x) =>
          I := FontStart + registers[x] * 5;
      }
    }

    /** `Fx07`, `Fx0A`, `Fx15` and `Fx18`: the timers and waiting for a key. */
    method ExecuteTimers(instr: Instr) returns (advance: bool)
      requires Valid() && IsTimer(instr)
      modifies this`delayTimer, this`soundTimer, this`blocked, this`wasBlocked, registers
      ensures ram == old(ram) && registers == old(registers) && keys == old(keys) && matrix == old(matrix)
      ensures Executed(State(), advance) == TimerUpdate(old(State()), instr)
    {
      advance := true;
      match instr {
        case LoadDelay(x) =>
          registers[x] := delayTimer;
        case WaitKey(x) =>
          if blocked || !wasBlocked {
            wasBlocked := true;
            blocked := true;
            advance := false;
          } else {
            registers[x] := KeyValue(unblockKey);
            wasBlocked := false;
          }
        case SetDelay(x) =>
          delayTimer := registers[x];
        case SetSound(x) =>
          soundTimer := registers[x];
      }
    }

    /** `3xnn`, `4xnn`, `5xy0`, `9xy0`, `Ex9E` and `ExA1`: skip the next
        instruction when the condition holds. */
    method ExecuteSkip(instr: Instr)
      requires Valid() && IsSkip(instr)
      modifies this`pc
      ensures ram == old(ram) && registers == old(registers) && keys == old(keys) && matrix == old(matrix)
      ensures State() == SkipIf(old(State()), SkipCondition(old(State()), instr))
    {
      var skip: bool;
      match instr {
        case SkipIfEqual(x, nn) =>
          skip := registers[x] == nn;
        case SkipIfNotEqual(x, nn) =>
          skip := registers[x] != nn;
        case SkipIfRegistersEqual(x, y) =>
          skip := registers[x] == registers[y];
        case SkipIfRegistersDiffer(x, y) =>
          skip := registers[x] != registers[y];
        case SkipIfKey(x) =>
          skip := registers[x] < keys.Length && keys[registers[x]];
        case SkipIfNotKey(x) =>
          skip := !(registers[x] < keys.Length && keys[registers[x]]);
      }
      if skip {
        pc := pc + 2;
      }
    }

    /** `00E0`, `00EE`, `1nnn`, `2nnn`, `Bnnn` and unknown opcodes. */
    method ExecuteFlow(instr: Instr) returns (advance: bool)
      requires Valid() && IsFlow(instr) && Defined(State(), instr)
      modifies this`pc, this`superRoutines, this`matrix, this`shouldDraw, this`error
      ensures ram == old(ram) && registers == old(registers) && keys == old(keys)
      ensures matrix == old(matrix) || (fresh(matrix) && matrix.Length0 == width && matrix.Length1 == height)
      ensures Executed(State(), advance) == Flow(old(State()), instr)
    {
      advance := true;
      match instr {
        case ClearScreen =>
          Clear();
        case Return =>
          pc := superRoutines[|superRoutines| - 1];
          superRoutines := superRoutines[..|superRoutines| - 1];
        case Jump(a) =>
          pc := a;
          advance := false;
        case Call(a) =>
          superRoutines := superRoutines + [pc];
          pc := a;
          advance := false;
        case JumpOffset(a) =>
          pc := registers[0] + a;
          advance := false;
        case Unknown(op) =>
          error := Some(op);
      }
    }
  }

  /** The memory `startEmulation` fills: the ROM bytes copied one by one to
      0x200, then the font to 0x50. */
  method LoadMemory(rom: seq<Byte>) returns (ram: array<nat>)
    requires |rom| <= MaxRomSize
    ensures fresh(ram) && ram[..] == BootRam(rom)
  {
    ram := new nat[MemorySize](_ => 0);
    var index := 0;
    while index < |rom|
      invariant 0 <= index <= |rom|
      invariant forall a | 0 <= a < MemorySize ::
        ram[a] == if ProgramStart <= a < ProgramStart + index then rom[a - ProgramStart] else 0
    {
      ram[ProgramStart + index] := rom[index];
      index := index + 1;
    }
    var i := FontStart;
    while i <= 0xA0
      invariant FontStart <= i <= 0xA1
      invariant forall a | 0 <= a < MemorySize ::
        ram[a] == if FontStart <= a < i then (if a - FontStart < |Font| then Font[a - FontStart] else 0)
                  else if ProgramStart <= a < ProgramStart + |rom| then rom[a - ProgramStart]
                  else 0
    {
      ram[i] := if i - FontStart < |Font| then Font[i - FontStart] else 0;
      i := i + 1;
    }
    assert ram[..] == BootRam(rom);
  }
}
