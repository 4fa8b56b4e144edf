/** What `tickLogic` and `interpretOpcode` (app/class/Emulator.js) promise,
    stated about the value model in chip8.dfy. */
module Properties {
  import opened Wrappers
  import opened Bits
  import opened Opcode
  import opened Keyboard
  import opened Chip8

  // ------------------------------------------------------- fetch and advance

  /** The fetched opcode is the big-endian word at `pc` whenever the second
      byte is a byte. */
  lemma FetchBigEndian(m: Machine)
    requires CanFetch(m) && RamAt(m.ram, m.pc + 1) < 0x100
    ensures Fetch(m) == RamAt(m.ram, m.pc) * 0x100 + RamAt(m.ram, m.pc + 1)
  {
    Pow2Values();
    OrDisjoint(RamAt(m.ram, m.pc), RamAt(m.ram, m.pc + 1), 8);
  }

  /** Whether an instruction sets `dontContinue` in state `m`: the jumps, the
      call, and `Fx0A` while it blocks. */
  predicate Redirects(m: Machine, i: Instr)
  {
    i.Jump? || i.Call? || i.JumpOffset? || (i.WaitKey? && (m.blocked || !m.wasBlocked))
  }

  /** `interpretOpcode` returns true exactly for the instructions that do not
      set `dontContinue`. */
  lemma ExecuteAdvances(m: Machine, i: Instr, rnd: nat)
    requires Valid(m) && Defined(m, i) && rnd < 0xFF
    ensures Execute(m, i, rnd).advance <==> !Redirects(m, i)
  {
    if IsFlow(i) {
      FlowCase(m, i, rnd);
    } else if IsSkip(i) {
      SkipCase(m, i, rnd);
    } else if IsArithmetic(i) {
      ArithmeticCase(m, i, rnd);
    } else if IsIndex(i) {
      IndexCase(m, i, rnd);
    } else if IsTimer(i) {
      TimerCase(m, i, rnd);
    } else if IsMemory(i) {
      MemoryCase(m, i, rnd);
    } else {
      DrawCase(m, i, rnd);
    }
  }

  /** A tick leaves `pc` two past where the instruction put it, unless the
      instruction redirected it. */
  lemma TickAdvances(m: Machine, rnd: nat)
    requires CanTick(m, rnd)
    ensures var f := Fetched(m);
            var e := Execute(f, Decode(f.opcode), rnd);
            Tick(m, rnd).next.pc == if Redirects(f, Decode(f.opcode)) then e.next.pc else e.next.pc + 2
  {
    FetchedDefined(m);
    var f := Fetched(m);
    ExecuteAdvances(f, Decode(f.opcode), rnd);
  }

  /** Unknown opcodes are reported and execution goes on. */
  lemma UnknownContinues(m: Machine, op: nat, rnd: nat)
    requires Valid(m) && rnd < 0xFF
    ensures var e := Execute(m, Unknown(op), rnd);
            e.advance && e.next == m.(error := Some(op))
  {
    FlowCase(m, Unknown(op), rnd);
  }

  // --------------------------------------------------------- call and return

  /** `2nnn` pushes the address of the call and jumps without advancing; a
      later `00EE`, on the stack as the call left it, pops that address and
      the advance lands just past the call, with the stack as before. */
  lemma CallReturnRoundTrip(m: Machine, a: Address, m2: Machine, rnd: nat)
    requires Valid(m) && Valid(m2) && rnd < 0xFF
    requires m2.superRoutines == m.superRoutines + [m.pc]
    ensures var c := Advanced(Execute(m, Call(a), rnd));
            c.pc == a && c.superRoutines == m2.superRoutines
    ensures var r := Advanced(Execute(m2, Return, rnd));
            r.pc == m.pc + 2 && r.superRoutines == m.superRoutines
    ensures Advanced(Execute(m, Call(a), rnd)) == m.(pc := a, superRoutines := m.superRoutines + [m.pc])
    ensures var c := Advanced(Execute(m, Call(a), rnd));
            Valid(c) ==> Advanced(Execute(c, Return, rnd)) == m.(pc := m.pc + 2)
  {
    FlowCase(m, Call(a), rnd);
    FlowCase(m2, Return, rnd);
    assert (m.superRoutines + [m.pc])[..|m.superRoutines|] == m.superRoutines;
    var c := Advanced(Execute(m, Call(a), rnd));
    if Valid(c) {
      FlowCase(c, Return, rnd);
    }
  }

  // -------------------------------------------------------------- arithmetic

  /** `7xnn` wraps the sum to a byte and touches no other register. */
  lemma AddImmediateWraps(V: seq<nat>, x: Reg, nn: Byte, rnd: nat)
    requires |V| == 16
    ensures var W := Arithmetic(V, AddImmediate(x, nn), rnd);
            W[x] < 0x100 && W[x] == (V[x] + nn) % 0x100
            && forall r | 0 <= r < 16 && r != x :: W[r] == V[r]
  {
  }

  /** `Cxnn` keeps in Vx exactly the bits set both in the random number and
      in nn, and touches no other register. */
  lemma RandomMasks(V: seq<nat>, x: Reg, nn: Byte, rnd: nat)
    requires |V| == 16
    ensures var W := Arithmetic(V, Random(x, nn), rnd);
            && W[x] <= nn && W[x] <= rnd
            && (forall k: nat :: TestBit(W[x], k) == (TestBit(rnd, k) && TestBit(nn, k)))
            && forall r | 0 <= r < 16 && r != x :: W[r] == V[r]
  {
    forall k: nat
      ensures TestBit(BitAnd(rnd, nn), k) == (TestBit(rnd, k) && TestBit(nn, k))
    {
      AndTestBit(rnd, nn, k);
    }
  }

  /** `8xy4`: VF is 1 exactly when the sum exceeds 0xFF, for every x (the
      flag is written last, so for x = F it overwrites the sum), and
      otherwise Vx receives the sum modulo 256. */
  lemma AddCarries(V: seq<nat>, x: Reg, y: Reg, rnd: nat)
    requires |V| == 16
    ensures var W := Arithmetic(V, Add(x, y), rnd);
            && (W[FlagRegister] == 1 <==> V[x] + V[y] > 0xFF)
            && (W[FlagRegister] == 0 <==> V[x] + V[y] <= 0xFF)
            && (x != FlagRegister ==> W[x] < 0x100 && W[x] == (V[x] + V[y]) % 0x100)
            && forall r | 0 <= r < 16 && r != x && r != FlagRegister :: W[r] == V[r]
  {
  }

  /** `8xy5`: VF is 1 exactly when the difference is negative (the reverse of
      the usual "no borrow" flag), for every x, and otherwise Vx is the
      difference modulo 256 when both operands are bytes. */
  lemma SubtractBorrows(V: seq<nat>, x: Reg, y: Reg, rnd: nat)
    requires |V| == 16
    ensures var W := Arithmetic(V, Subtract(x, y), rnd);
            var d := V[x] as int - V[y];
            && (W[FlagRegister] == 1 <==> d < 0) && (W[FlagRegister] == 0 <==> d >= 0)
            && (x != FlagRegister && V[x] < 0x100 && V[y] < 0x100 ==> W[x] < 0x100 && W[x] == d % 0x100)
            && forall r | 0 <= r < 16 && r != x && r != FlagRegister :: W[r] == V[r]
  {
  }

  /** `8xy7`: the same with the operands swapped. */
  lemma SubtractReverseBorrows(V: seq<nat>, x: Reg, y: Reg, rnd: nat)
    requires |V| == 16
    ensures var W := Arithmetic(V, SubtractReverse(x, y), rnd);
            var d := V[y] as int - V[x];
            && (W[FlagRegister] == 1 <==> d < 0) && (W[FlagRegister] == 0 <==> d >= 0)
            && (x != FlagRegister && V[x] < 0x100 && V[y] < 0x100 ==> W[x] < 0x100 && W[x] == d % 0x100)
            && forall r | 0 <= r < 16 && r != x && r != FlagRegister :: W[r] == V[r]
  {
  }

  /** `8xy6`: VF receives the bit shifted out and Vx is halved; for x = F the
      shift is applied to that bit, leaving VF at 0. */
  lemma ShiftRightFlag(V: seq<nat>, x: Reg, y: Reg, rnd: nat)
    requires |V| == 16
    ensures var W := Arithmetic(V, ShiftRight(x, y), rnd);
            && (x != FlagRegister ==> W[FlagRegister] == V[x] % 2 && W[x] == V[x] / 2)
            && (x == FlagRegister ==> W[FlagRegister] == 0)
            && forall r | 0 <= r < 16 && r != x && r != FlagRegister :: W[r] == V[r]
  {
    AndPow2(V[x], 0);
  }

  /** `8xyE`: VF receives `Vx & 0x80`, so it is 0x80 (not 1) when bit 7 is
      set, and Vx is doubled without being masked to a byte; for x = F the
      doubling is applied to that flag. */
  lemma ShiftLeftFlag(V: seq<nat>, x: Reg, y: Reg, rnd: nat)
    requires |V| == 16
    ensures var W := Arithmetic(V, ShiftLeft(x, y), rnd);
            && (x != FlagRegister ==> W[FlagRegister] == (if TestBit(V[x], 7) then 0x80 else 0) && W[x] == 2 * V[x])
            && (x == FlagRegister ==> W[FlagRegister] == (if TestBit(V[x], 7) then 0x100 else 0))
            && forall r | 0 <= r < 16 && r != x && r != FlagRegister :: W[r] == V[r]
  {
    Pow2Values();
    AndPow2(V[x], 7);
  }

  // ------------------------------------------------------------------- skips

  /** A skip advances `pc` by 4 when its condition holds and by 2 otherwise,
      and changes nothing else. */
  lemma SkipAdvances(m: Machine, i: Instr, rnd: nat)
    requires Valid(m) && IsSkip(i) && rnd < 0xFF
    ensures var t := Advanced(Execute(m, i, rnd));
            t == m.(pc := m.pc + if SkipCondition(m, i) then 4 else 2)
  {
    SkipCase(m, i, rnd);
  }

  /** The key skips: `Ex9E` skips exactly when the key numbered Vx is down,
      `ExA1` exactly when it is not; a value past the sixteen keys never
      counts as down. */
  lemma KeySkips(m: Machine, x: Reg)
    requires Valid(m)
    ensures SkipCondition(m, SkipIfKey(x)) <==> m.registers[x] < 16 && m.keys[m.registers[x]]
    ensures SkipCondition(m, SkipIfNotKey(x)) <==> !(m.registers[x] < 16 && m.keys[m.registers[x]])
  {
  }

  // -------------------------------------------------------------------- draw

  /** A sprite pixel is set exactly when it lies in the sprite's 8-wide,
      n-high window and its bit, counted from the most significant of the
      row's byte, is 1. */
  lemma SpriteBitIsBit(ram: seq<nat>, I: nat, sx: nat, sy: nat, n: nat, px: nat, py: nat)
    ensures SpriteBit(ram, I, sx, sy, n, px, py) <==>
              sx <= px < sx + 8 && sy <= py < sy + n && TestBit(RamAt(ram, I + (py - sy)), 7 - (px - sx))
  {
    if sx <= px < sx + 8 && sy <= py < sy + n {
      AndPow2(RamAt(ram, I + (py - sy)), 7 - (px - sx));
    }
  }

  /** `Dxyn` XORs each framebuffer pixel with its sprite bit, changes no
      pixel outside the sprite's window, and asks for a redraw. */
  lemma DrawXorsWindow(m: Machine, x: Reg, y: Reg, n: Nibble)
    requires Valid(m)
    ensures var d := DrawSprite(m, x, y, n);
            var sx, sy := m.registers[x], m.registers[y];
            && d.shouldDraw && Valid(d)
            && forall px, py | 0 <= px < m.width && 0 <= py < m.height ::
                 && d.matrix[px][py] == (m.matrix[px][py] != (sx <= px < sx + 8 && sy <= py < sy + n
                                          && TestBit(RamAt(m.ram, m.I + (py - sy)), 7 - (px - sx))))
                 && (d.matrix[px][py] != m.matrix[px][py] ==> sx <= px < sx + 8 && sy <= py < sy + n)
    ensures var d := DrawSprite(m, x, y, n);
            && d.(matrix := m.matrix, registers := m.registers, shouldDraw := m.shouldDraw) == m
            && d.registers == m.registers[FlagRegister := d.registers[FlagRegister]]
  {
    DrawValid(m, x, y, n);
    var sx, sy := m.registers[x], m.registers[y];
    forall px, py | 0 <= px < m.width && 0 <= py < m.height {
      SpriteBitIsBit(m.ram, m.I, sx, sy, n, px, py);
    }
  }

  /** VF is 1 after `Dxyn` exactly when some lit pixel was turned off, and 0
      otherwise; no other register changes. */
  lemma DrawFlagsErasure(m: Machine, x: Reg, y: Reg, n: Nibble)
    requires Valid(m)
    ensures var d := DrawSprite(m, x, y, n);
            && (d.registers[FlagRegister] == 1 <==> Erased(m.matrix, d.matrix))
            && (d.registers[FlagRegister] == 0 <==> !Erased(m.matrix, d.matrix))
            && forall r | 0 <= r < 16 && r != FlagRegister :: d.registers[r] == m.registers[r]
  {
    var d := DrawSprite(m, x, y, n);
    var sx, sy := m.registers[x], m.registers[y];
    if Collision(m.matrix, m.ram, m.I, sx, sy, n) {
      var px, py :| 0 <= px < |m.matrix| && 0 <= py < |m.matrix[px]|
                    && SpriteBit(m.ram, m.I, sx, sy, n, px, py) && m.matrix[px][py];
      assert m.matrix[px][py] && !d.matrix[px][py];
    } else {
      forall px, py | 0 <= px < |m.matrix| && 0 <= py < |m.matrix[px]|
        ensures !(m.matrix[px][py] && !d.matrix[px][py])
      {
        assert !(SpriteBit(m.ram, m.I, sx, sy, n, px, py) && m.matrix[px][py]);
      }
    }
  }

  /** Whether a pixel lit in `before` is unlit in `after`. */
  predicate Erased(before: seq<seq<bool>>, after: seq<seq<bool>>)
  {
    exists px, py | 0 <= px < |before| && 0 <= py < |before[px]| ::
      px < |after| && py < |after[px]| && before[px][py] && !after[px][py]
  }

  /** Drawing the same sprite twice restores the framebuffer, as long as
      neither coordinate register is VF (which the first draw overwrites). */
  lemma DrawTwiceRestores(m: Machine, x: Reg, y: Reg, n: Nibble)
    requires Valid(m) && x != FlagRegister && y != FlagRegister
    ensures var d := DrawSprite(m, x, y, n);
            Valid(d) && DrawSprite(d, x, y, n).matrix == m.matrix
  {
    DrawValid(m, x, y, n);
    var d := DrawSprite(m, x, y, n);
    var d2 := DrawSprite(d, x, y, n);
    assert d.registers[x] == m.registers[x] && d.registers[y] == m.registers[y];
    forall px | 0 <= px < |m.matrix|
      ensures d2.matrix[px] == m.matrix[px]
    {
    }
  }

  /** On a blank screen a draw never reports a collision. */
  lemma DrawOnBlankNoCollision(m: Machine, x: Reg, y: Reg, n: Nibble)
    requires Valid(m) && m.matrix == Blank(m.width, m.height)
    ensures DrawSprite(m, x, y, n).registers[FlagRegister] == 0
  {
    forall px, py | 0 <= px < |m.matrix| && 0 <= py < |m.matrix[px]|
      ensures !m.matrix[px][py]
    {
    }
  }

  // ----------------------------------------------------------------- memory

  /** `Fx33`: three decimal digits that recompose to Vx, the last two at
      most 9 and the first too when Vx is below 1000; no other cell changes. */
  lemma BcdDigits(ram: seq<nat>, I: nat, v: nat)
    requires I + 2 < |ram|
    ensures var r := StoreDigits(ram, I, v);
            && |r| == |ram| && 100 * r[I] + 10 * r[I + 1] + r[I + 2] == v
            && r[I + 1] <= 9 && r[I + 2] <= 9 && (v < 1000 ==> r[I] <= 9)
            && forall a | 0 <= a < |ram| && !(I <= a <= I + 2) :: r[a] == ram[a]
  {
    var h, t, u := v / 100, (v % 100) / 10, v % 10;
    assert v == 100 * h + v % 100;
    assert v % 100 == 10 * t + u by {
      DivModUnique(v, 10, 10 * h + t, (v % 100) % 10);
      assert (v % 100) % 10 == u;
    }
  }

  /** `Fx65` after `Fx55` with the same `I` and x reads back the stored
      V0..Vx; the registers above x keep whatever they hold at the load. */
  lemma LoadAfterStore(ram: seq<nat>, V: seq<nat>, V2: seq<nat>, I: nat, x: Reg)
    requires |V| == 16 && |V2| == 16 && I + x < |ram|
    ensures LoadRange(StoreRange(ram, V, I, x), V2, I, x) == V[..x + 1] + V2[x + 1..]
  {
    var L := LoadRange(StoreRange(ram, V, I, x), V2, I, x);
    forall r | 0 <= r < 16
      ensures L[r] == (V[..x + 1] + V2[x + 1..])[r]
    {
    }
  }

  /** The round trip on the machine: store V0..Vx, then load them back with
      `I` unchanged, and the registers are as before; `Fx55` changes no cell
      outside `ram[I..I + x]`. */
  lemma StoreLoadRoundTrip(m: Machine, x: Reg)
    requires Valid(m) && m.I + x < MemorySize
    ensures var s := Memory(m, StoreRegisters(x));
            && Valid(s) && Defined(s, LoadRegisters(x))
            && Memory(s, LoadRegisters(x)).registers == m.registers
            && Memory(s, LoadRegisters(x)).ram == s.ram
            && forall a | 0 <= a < MemorySize && !(m.I <= a <= m.I + x) :: s.ram[a] == m.ram[a]
  {
    MemoryValid(m, StoreRegisters(x));
    LoadAfterStore(m.ram, m.registers, m.registers, m.I, x);
    assert m.registers[..x + 1] + m.registers[x + 1..] == m.registers;
  }

  // ------------------------------------------------------------------ index

  /** `Annn` points `I` at nnn and changes nothing but `I` and `pc`. */
  lemma LoadIndexSets(m: Machine, a: Address, rnd: nat)
    requires Valid(m) && rnd < 0xFF
    ensures var e := Execute(m, LoadIndex(a), rnd);
            && e.advance && e.next.I == a
            && e.next.(I := m.I) == m
  {
    IndexCase(m, LoadIndex(a), rnd);
  }

  /** `Fx1E`, for every x: `I` wraps to 12 bits and VF is 1 exactly when the
      sum passes 0xFFF (for x = F the sum uses VF as it was); no other
      register changes. */
  lemma AddIndexWraps(m: Machine, x: Reg, rnd: nat)
    requires Valid(m) && rnd < 0xFF
    ensures var e := Execute(m, AddIndex(x), rnd);
            var sum := m.I + m.registers[x];
            && e.advance && e.next.I < 0x1000 && e.next.I == sum % 0x1000
            && (e.next.registers[FlagRegister] == 1 <==> sum > 0xFFF)
            && (e.next.registers[FlagRegister] == 0 <==> sum <= 0xFFF)
            && |e.next.registers| == 16
            && (forall r | 0 <= r < 16 && r != FlagRegister :: e.next.registers[r] == m.registers[r])
            && e.next.(I := m.I, registers := m.registers) == m
  {
    IndexCase(m, AddIndex(x), rnd);
  }

  /** `Fx29` with a digit in Vx and the font where boot puts it: `I` points
      at the five rows of that digit's glyph. */
  lemma LoadFontGlyph(m: Machine, x: Reg, rnd: nat)
    requires Valid(m) && rnd < 0xFF && m.registers[x] < 16
    requires forall i | 0 <= i < |Font| :: m.ram[FontStart + i] == Font[i]
    ensures var e := Execute(m, LoadFont(x), rnd);
            && e.advance && e.next.I == FontStart + 5 * m.registers[x]
            && e.next.(I := m.I) == m
            && e.next.ram[e.next.I..e.next.I + 5] == Font[5 * m.registers[x]..5 * m.registers[x] + 5]
  {
    IndexCase(m, LoadFont(x), rnd);
    GlyphRows(m.ram, 5 * m.registers[x]);
  }

  /** Five consecutive font bytes, read in a memory holding the font. */
  lemma GlyphRows(ram: seq<nat>, g: nat)
    requires FontStart + |Font| <= |ram| && g + 5 <= |Font|
    requires forall i | 0 <= i < |Font| :: ram[FontStart + i] == Font[i]
    ensures ram[FontStart + g..FontStart + g + 5] == Font[g..g + 5]
  {
  }

  // ------------------------------------------------------------------ clear

  /** `00E0`: every pixel off, the size kept, a redraw asked for, and
      execution goes on. */
  /** A second draw of the same sprite on a blank screen sets VF exactly when the sprite has a pixel on screen. */
  lemma SecondDrawCollides(m: Machine, x: Reg, y: Reg, n: Nibble)
    requires Valid(m) && m.matrix == Blank(m.width, m.height)
    requires x != FlagRegister && y != FlagRegister
    ensures var d := DrawSprite(m, x, y, n);
            (DrawSprite(d, x, y, n).registers[FlagRegister] == 1) <==>
            exists px, py | 0 <= px < m.width && 0 <= py < m.height ::
              SpriteBit(m.ram, m.I, m.registers[x], m.registers[y], n, px, py)
  {
    DrawValid(m, x, y, n);
    var d := DrawSprite(m, x, y, n);
    assert d.registers[x] == m.registers[x] && d.registers[y] == m.registers[y];
    assert d.ram == m.ram && d.I == m.I;
    assert d.width == m.width && d.height == m.height;
    assert |d.matrix| == m.width;
  }

  lemma ClearBlanks(m: Machine, rnd: nat)
    requires Valid(m) && rnd < 0xFF
    ensures var e := Execute(m, ClearScreen, rnd);
            && e.advance && e.next.shouldDraw && |e.next.matrix| == m.width
            && forall px, py | 0 <= px < m.width && 0 <= py < m.height ::
                 py < |e.next.matrix[px]| && !e.next.matrix[px][py]
    ensures Execute(m, ClearScreen, rnd).next == m.(matrix := Blank(m.width, m.height), shouldDraw := true)
  {
    FlowCase(m, ClearScreen, rnd);
  }

  // ----------------------------------------------------------------- timers

  /** Only `Fx15` and `Fx18` write the timers. */
  lemma ExecuteKeepsTimers(m: Machine, i: Instr, rnd: nat)
    requires Valid(m) && Defined(m, i) && rnd < 0xFF
    ensures !i.SetDelay? ==> Execute(m, i, rnd).next.delayTimer == m.delayTimer
    ensures !i.SetSound? ==> Execute(m, i, rnd).next.soundTimer == m.soundTimer
  {
    if IsFlow(i) {
      FlowCase(m, i, rnd);
    } else if IsSkip(i) {
      SkipCase(m, i, rnd);
    } else if IsArithmetic(i) {
      ArithmeticCase(m, i, rnd);
    } else if IsIndex(i) {
      IndexCase(m, i, rnd);
    } else if IsTimer(i) {
      TimerCase(m, i, rnd);
    } else if IsMemory(i) {
      MemoryCase(m, i, rnd);
    } else {
      DrawCase(m, i, rnd);
    }
  }

  /** `Fx15` and `Fx18` load a timer from Vx and change nothing else, and
      `Fx07` right after `Fx15` reads the value back: the registers end as
      they were. */
  lemma DelayRoundTrip(m: Machine, x: Reg, rnd: nat)
    requires Valid(m) && rnd < 0xFF
    ensures var s := Execute(m, SetDelay(x), rnd);
            && s.advance && s.next == m.(delayTimer := m.registers[x])
            && Valid(s.next)
            && Execute(s.next, LoadDelay(x), rnd).next.registers == m.registers
            && Execute(s.next, LoadDelay(x), rnd).next.delayTimer == m.registers[x]
    ensures var s := Execute(m, SetSound(x), rnd);
            s.advance && s.next == m.(soundTimer := m.registers[x])
  {
    TimerCase(m, SetDelay(x), rnd);
    TimerCase(m, SetSound(x), rnd);
    var s := Execute(m, SetDelay(x), rnd).next;
    TimerValid(m, SetDelay(x));
    TimerCase(s, LoadDelay(x), rnd);
    assert s.registers[x := s.delayTimer] == m.registers;
  }

  /** Each tick takes one from a running timer and leaves a stopped one at
      0 (unless the instruction sets it), and runs a timer's hook exactly
      when the timer is still running after the step. */
  lemma TickTimers(m: Machine, rnd: nat)
    requires CanTick(m, rnd)
    ensures var t := Tick(m, rnd);
            var i := Decode(Fetch(m));
            && (!i.SetDelay? ==> t.next.delayTimer == if m.delayTimer > 0 then m.delayTimer - 1 else 0)
            && (!i.SetSound? ==> t.next.soundTimer == if m.soundTimer > 0 then m.soundTimer - 1 else 0)
            && (t.delayHook <==> m.delayTimer > 0 && m.delayTimer - 1 != 0)
            && (t.soundHook <==> m.soundTimer > 0 && m.soundTimer - 1 != 0)
  {
    FetchedDefined(m);
    ExecuteKeepsTimers(Fetched(m), Decode(Fetch(m)), rnd);
  }

  // ---------------------------------------------------------- waiting for a key

  /** `Fx0A` on its first execution, or while still blocked: marks the wait,
      leaves `pc` on the instruction and changes nothing else. */
  lemma WaitKeyBlocks(m: Machine, x: Reg, rnd: nat)
    requires Valid(m) && rnd < 0xFF && (m.blocked || !m.wasBlocked)
    ensures Advanced(Execute(m, WaitKey(x), rnd)) == m.(blocked := true, wasBlocked := true)
  {
    TimerCase(m, WaitKey(x), rnd);
  }

  /** `Fx0A` once a key press has cleared `blocked`: stores the key, ends the
      wait and moves on. */
  lemma WaitKeyResumes(m: Machine, x: Reg, rnd: nat)
    requires Valid(m) && rnd < 0xFF && !m.blocked && m.wasBlocked
    ensures Advanced(Execute(m, WaitKey(x), rnd))
            == m.(registers := m.registers[x := KeyValue(m.unblockKey)], wasBlocked := false, pc := m.pc + 2)
  {
    TimerCase(m, WaitKey(x), rnd);
  }

  /** While blocked on `Fx0A`, ticks keep the instruction in place: however
      many ticks run, `pc`, the registers and memory stay as they were and
      the machine stays blocked (only the timers move). */
  lemma {:induction false} WaitKeySuspends(m: Machine, rnds: seq<nat>)
    requires Valid(m) && CanFetch(m) && Decode(Fetch(m)).WaitKey? && m.blocked
    requires forall k | 0 <= k < |rnds| :: rnds[k] < 0xFF
    ensures var r := Run(m, rnds);
            && r.Some? && r.value.pc == m.pc && r.value.blocked
            && r.value.registers == m.registers && r.value.ram == m.ram
    decreases |rnds|
  {
    if rnds != [] {
      var t := Tick(m, rnds[0]).next;
      FetchedDefined(m);
      WaitKeyBlocks(Fetched(m), Decode(Fetch(m)).x, rnds[0]);
      TickValid(m, rnds[0]);
      assert Fetch(t) == Fetch(m);
      WaitKeySuspends(t, rnds[1..]);
    }
  }

  /** A key press during the wait, then a tick: the key lands in Vx and
      execution moves past the `Fx0A`.  For a code of the layout, Vx then
      holds the key that code stands for; a code outside it is stored as 0
      (`KeyValue` of `None`). */
  lemma KeyPressEndsWait(m: Machine, code: int, rnd: nat)
    requires CanTick(m, rnd) && Decode(Fetch(m)).WaitKey? && m.wasBlocked
    ensures var p := PressKey(m, code);
            var x := Decode(Fetch(m)).x;
            && CanTick(p, rnd)
            && Tick(p, rnd).next.registers == m.registers[x := KeyValue(KeyToKeyboard(code))]
            && Tick(p, rnd).next.pc == m.pc + 2
            && !Tick(p, rnd).next.blocked && !Tick(p, rnd).next.wasBlocked
            && (code in HostKeys ==> Tick(p, rnd).next.registers[x] < 16
                                     && HostKey(Tick(p, rnd).next.registers[x]) == code)
  {
    var p := PressKey(m, code);
    assert Fetch(p) == Fetch(m);
    FetchedDefined(p);
    WaitKeyResumes(Fetched(p), Decode(Fetch(m)).x, rnd);
  }

  // ------------------------------------------------------------ key handlers

  /** `keydown` releases any wait and records the key; a CHIP-8 key is marked
      down, and `keyup` marks it up again; other keys leave the keypad alone. */
  lemma KeyHandlers(m: Machine, code: int)
    requires Valid(m)
    ensures var p := PressKey(m, code);
            var r := ReleaseKey(p, code);
            var k := KeyToKeyboard(code);
            && !p.blocked && p.unblockKey == k && |p.keys| == 16 && |r.keys| == 16
            && (forall j | 0 <= j < 16 :: p.keys[j] == (m.keys[j] || k == Some(j)))
            && (forall j | 0 <= j < 16 :: r.keys[j] == (m.keys[j] && k != Some(j)))
    ensures var p := PressKey(m, code);
            var r := ReleaseKey(p, code);
            p == m.(blocked := false, unblockKey := KeyToKeyboard(code), keys := p.keys)
            && r == p.(keys := r.keys)
  {
  }
}
