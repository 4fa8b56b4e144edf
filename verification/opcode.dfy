/** Instruction decoding: how `interpretOpcode` (app/class/Emulator.js)
    takes a fetched opcode apart.  The source switches on the top nibble
    and, inside the `0x8` case and its `default` case, on the masked values
    `opcode & 0xf00f` and `opcode & 0xF0FF`; `Decode` names each case it
    reaches as one `Instr` variant carrying its operand fields. */
module Opcode {
  import opened Bits
  import opened Wrappers

  type Reg = r: nat | r < 16
  type Nibble = n: nat | n < 16
  type Byte = b: nat | b < 0x100
  type Address = a: nat | a < 0x1000

  datatype Instr =
    | ClearScreen                          // 00E0
    | Return                               // 00EE
    | Jump(addr: Address)                  // 1nnn
    | Call(addr: Address)                  // 2nnn
    | SkipIfEqual(x: Reg, nn: Byte)        // 3xnn
    | SkipIfNotEqual(x: Reg, nn: Byte)     // 4xnn
    | SkipIfRegistersEqual(x: Reg, y: Reg) // 5xy_
    | LoadImmediate(x: Reg, nn: Byte)      // 6xnn
    | AddImmediate(x: Reg, nn: Byte)       // 7xnn
    | Assign(x: Reg, y: Reg)               // 8xy0
    | Or(x: Reg, y: Reg)                   // 8xy1
    | And(x: Reg, y: Reg)                  // 8xy2
    | Xor(x: Reg, y: Reg)                  // 8xy3
    | Add(x: Reg, y: Reg)                  // 8xy4
    | Subtract(x: Reg, y: Reg)             // 8xy5
    | ShiftRight(x: Reg, y: Reg)           // 8xy6
    | SubtractReverse(x: Reg, y: Reg)      // 8xy7
    | ShiftLeft(x: Reg, y: Reg)            // 8xyE
    | SkipIfRegistersDiffer(x: Reg, y: Reg) // 9xy_
    | LoadIndex(addr: Address)             // Annn
    | JumpOffset(addr: Address)            // Bnnn
    | Random(x: Reg, nn: Byte)             // Cxnn
    | Draw(x: Reg, y: Reg, n: Nibble)      // Dxyn
    | SkipIfKey(x: Reg)                    // Ex9E
    | SkipIfNotKey(x: Reg)                 // ExA1
    | LoadDelay(x: Reg)                    // Fx07
    | WaitKey(x: Reg)                      // Fx0A
    | SetDelay(x: Reg)                     // Fx15
    | SetSound(x: Reg)                     // Fx18
    | AddIndex(x: Reg)                     // Fx1E
    | LoadFont(x: Reg)                     // Fx29
    | StoreBcd(x: Reg)                     // Fx33
    | StoreRegisters(x: Reg)               // Fx55
    | LoadRegisters(x: Reg)                // Fx65
    | Unknown(opcode: nat)                 // reported through handleError

  // Field extraction: `(opcode & 0xF000) >> 12`, `(opcode & 0x0F00) >> 8`,
  // `(opcode & 0x00F0) >> 4`, `opcode & 0x000F`, `opcode & 0x00FF`, `opcode & 0x0FFF`.
  function Top(op: nat): Nibble { (op / 0x1000) % 0x10 }
  function X(op: nat): Reg { (op / 0x100) % 0x10 }
  function Y(op: nat): Reg { (op / 0x10) % 0x10 }
  function N(op: nat): Nibble { op % 0x10 }
  function NN(op: nat): Byte { op % 0x100 }
  function NNN(op: nat): Address { op % 0x1000 }

  /** The shifted selectors `(opcode & 0xF000) >> 12`, `(opcode & 0x0F00) >> 8`
      and `(opcode & 0x00F0) >> 4` are the fields above: the masked values are
      non-negative, so each shift is a division. */
  lemma ShiftedSelectors(op: nat)
    ensures BitAnd(op, 0xF000) / 0x1000 == Top(op)
    ensures BitAnd(op, 0x0F00) / 0x100 == X(op)
    ensures BitAnd(op, 0x00F0) / 0x10 == Y(op)
  {
    MaskNibbles(op, 0xF, 0x0, 0x0, 0x0);
    MaskNibbles(op, 0x0, 0xF, 0x0, 0x0);
    MaskNibbles(op, 0x0, 0x0, 0xF, 0x0);
  }

  /** The low masks `opcode & 0x000F`, `& 0x00FF` and `& 0x0FFF` are the
      n, nn and nnn fields. */
  lemma LowSelectors(op: nat)
    ensures BitAnd(op, 0x000F) == N(op)
    ensures BitAnd(op, 0x00FF) == NN(op)
    ensures BitAnd(op, 0x0FFF) == NNN(op)
  {
    LowFields(op);
    MaskNibbles(op, 0x0, 0x0, 0x0, 0xF);
    MaskNibbles(op, 0x0, 0x0, 0xF, 0xF);
    MaskNibbles(op, 0x0, 0xF, 0xF, 0xF);
  }

  /** The inner switch selectors `opcode & 0xf00f` and `opcode & 0xF0FF`
      keep the top nibble with the n nibble or with the low byte: they are
      the values `Decode` hands to `DecodeArithmetic` and `DecodeMasked`. */
  lemma SwitchSelectors(op: nat)
    ensures BitAnd(op, 0xF00F) == Top(op) * 0x1000 + N(op)
    ensures BitAnd(op, 0xF0FF) == Top(op) * 0x1000 + NN(op)
  {
    LowFields(op);
    MaskNibbles(op, 0xF, 0x0, 0x0, 0xF);
    MaskNibbles(op, 0xF, 0x0, 0xF, 0xF);
  }

  /** A 16-bit mask made of whole nibbles, each 0x0 or 0xF, keeps exactly
      the opcode's nibbles where it has 0xF. */
  lemma MaskNibbles(op: nat, mt: Nibble, mx: Nibble, my: Nibble, mn: Nibble)
    requires mt in {0x0, 0xF} && mx in {0x0, 0xF} && my in {0x0, 0xF} && mn in {0x0, 0xF}
    ensures BitAnd(op, Compose(mt, mx, my, mn))
         == Compose(if mt == 0 then 0 else Top(op), if mx == 0 then 0 else X(op),
                    if my == 0 then 0 else Y(op), if mn == 0 then 0 else N(op))
  {
    Low16And(op, Compose(mt, mx, my, mn));
    LowFields(op);
    NibbleAnd(Top(op), X(op), Y(op), N(op), mt, mx, my, mn);
    KeepOrDrop(Top(op), mt);
    KeepOrDrop(X(op), mx);
    KeepOrDrop(Y(op), my);
    KeepOrDrop(N(op), mn);
  }

  /** A 16-bit mask sees only the low 16 bits of the opcode. */
  lemma Low16And(op: nat, mask: nat)
    requires mask < 0x1_0000
    ensures BitAnd(op, mask) == BitAnd(op % 0x1_0000, mask)
  {
    NibbleShifts();
    AndSplit(op, mask, op / 0x1_0000, op % 0x1_0000, 0, mask, 16);
    assert BitAnd(op / 0x1_0000, 0) == 0;
  }

  /** `&` acts nibble by nibble on 16-bit values. */
  lemma NibbleAnd(t: Nibble, x: Nibble, y: Nibble, n: Nibble, mt: Nibble, mx: Nibble, my: Nibble, mn: Nibble)
    ensures BitAnd(Compose(t, x, y, n), Compose(mt, mx, my, mn))
         == Compose(BitAnd(t, mt), BitAnd(x, mx), BitAnd(y, my), BitAnd(n, mn))
  {
    var low, mlow := x * 0x100 + y * 0x10 + n, mx * 0x100 + my * 0x10 + mn;
    var byte, mbyte := y * 0x10 + n, my * 0x10 + mn;
    NibbleShifts();
    AndSplit(Compose(t, x, y, n), Compose(mt, mx, my, mn), t, low, mt, mlow, 12);
    AndSplit(low, mlow, x, byte, mx, mbyte, 8);
    AndSplit(byte, mbyte, y, n, my, mn, 4);
  }

  lemma NibbleShifts()
    ensures Pow2(4) == 0x10 && Pow2(8) == 0x100 && Pow2(12) == 0x1000 && Pow2(16) == 0x1_0000
  {
    Pow2Values();
  }

  /** A nibble and 0xF is the nibble; a nibble and 0 is 0. */
  lemma KeepOrDrop(v: Nibble, m: Nibble)
    requires m in {0x0, 0xF}
    ensures BitAnd(v, m) == if m == 0 then 0 else v
  {
    if m == 0xF {
      NibbleShifts();
      KeepNibble(v, m);
    }
  }

  lemma KeepNibble(v: nat, m: nat)
    requires v < Pow2(4) && m == Pow2(4) - 1
    ensures BitAnd(v, m) == v
  {
    AndLowMask(v, 4);
    DivModUnique(v, Pow2(4), 0, v);
  }

  /** The four nibbles of a 16-bit opcode put back together give the opcode. */
  lemma FieldsCompose(op: nat)
    requires op < 0x10000
    ensures op == Top(op) * 0x1000 + X(op) * 0x100 + Y(op) * 0x10 + N(op)
    ensures NN(op) == Y(op) * 0x10 + N(op)
    ensures NNN(op) == X(op) * 0x100 + NN(op)
  {
    LowFields(op);
  }

  /** The instruction an opcode selects, or `Unknown` when no case of the
      source's switch matches it. */
  function Decode(op: nat): (i: Instr)
    ensures i.Unknown? ==> i.opcode == op
  {
    match DecodeNibbles(Top(op), X(op), Y(op), N(op))
    case Some(i) => i
    case None => Unknown(op)
  }

  /** The two-level switch, given the four nibbles of the opcode (most
      significant first); `None` stands for the source's `default` branches
      that call `handleError`. */
  function DecodeNibbles(t: Nibble, x: Nibble, y: Nibble, n: Nibble): Option<Instr>
  {
    var nn: Byte := y * 0x10 + n;
    var nnn: Address := x * 0x100 + nn;
    match t
    case 0x1 => Some(Jump(nnn))
    case 0x2 => Some(Call(nnn))
    case 0x3 => Some(SkipIfEqual(x, nn))
    case 0x4 => Some(SkipIfNotEqual(x, nn))
    case 0x5 => Some(SkipIfRegistersEqual(x, y))
    case 0x6 => Some(LoadImmediate(x, nn))
    case 0x7 => Some(AddImmediate(x, nn))
    case 0x8 => DecodeArithmetic(x, y, n)
    case 0x9 => Some(SkipIfRegistersDiffer(x, y))
    case 0xA => Some(LoadIndex(nnn))
    case 0xB => Some(JumpOffset(nnn))
    case 0xC => Some(Random(x, nn))
    case 0xD => Some(Draw(x, y, n))
    case _ => DecodeMasked(t * 0x1000 + nn, x)
  }

  /** The `0x8` group, selected by `opcode & 0xf00f`. */
  function DecodeArithmetic(x: Reg, y: Reg, n: Nibble): Option<Instr>
  {
    match n
    case 0x0 => Some(Assign(x, y))
    case 0x1 => Some(Or(x, y))
    case 0x2 => Some(And(x, y))
    case 0x3 => Some(Xor(x, y))
    case 0x4 => Some(Add(x, y))
    case 0x5 => Some(Subtract(x, y))
    case 0x6 => Some(ShiftRight(x, y))
    case 0x7 => Some(SubtractReverse(x, y))
    case 0xE => Some(ShiftLeft(x, y))
    case _ => None
  }

  /** The `default` group (top nibble 0x0, 0xE or 0xF), selected by the
      value of `opcode & 0xF0FF`, which keeps the top nibble and the low byte
      and drops the x nibble. */
  function DecodeMasked(masked: nat, x: Reg): Option<Instr>
  {
    match masked
    case 0x00E0 => Some(ClearScreen)
    case 0x00EE => Some(Return)
    case 0xE09E => Some(SkipIfKey(x))
    case 0xE0A1 => Some(SkipIfNotKey(x))
    case 0xF007 => Some(LoadDelay(x))
    case 0xF00A => Some(WaitKey(x))
    case 0xF015 => Some(SetDelay(x))
    case 0xF018 => Some(SetSound(x))
    case 0xF01E => Some(AddIndex(x))
    case 0xF029 => Some(LoadFont(x))
    case 0xF033 => Some(StoreBcd(x))
    case 0xF055 => Some(StoreRegisters(x))
    case 0xF065 => Some(LoadRegisters(x))
    case _ => None
  }

  /** The opcode with the given four nibbles, most significant first. */
  function Compose(t: Nibble, x: Nibble, y: Nibble, n: Nibble): (op: nat)
    ensures op < 0x10000
  {
    t * 0x1000 + x * 0x100 + y * 0x10 + n
  }

  /** Field extraction reads back the nibbles an opcode was composed of. */
  lemma ComposeFields(t: Nibble, x: Nibble, y: Nibble, n: Nibble)
    ensures var op := Compose(t, x, y, n);
      && Top(op) == t && X(op) == x && Y(op) == y && N(op) == n
      && NN(op) == y * 0x10 + n && NNN(op) == x * 0x100 + y * 0x10 + n
  {
    var op := Compose(t, x, y, n);
    DivModUnique(op, 0x1000, t, x * 0x100 + y * 0x10 + n);
    DivModUnique(op, 0x100, t * 0x10 + x, y * 0x10 + n);
    DivModUnique(t * 0x10 + x, 0x10, t, x);
    DivModUnique(op, 0x10, t * 0x100 + x * 0x10 + y, n);
    DivModUnique(t * 0x100 + x * 0x10 + y, 0x10, t * 0x10 + x, y);
  }

  datatype Nibbles = Nibbles(t: Nibble, x: Nibble, y: Nibble, n: Nibble)

  function HighOf(nn: Byte): Nibble { nn / 0x10 }
  function LowOf(nn: Byte): Nibble { nn % 0x10 }

  /** The canonical nibbles of an instruction; the unused nibble of `5xy_`,
      `9xy_` and the x nibble of `00E0` and `00EE` are written as zero. */
  function NibblesOf(i: Instr): Nibbles
    requires !i.Unknown?
  {
    match i
    case ClearScreen => Nibbles(0, 0, 0xE, 0x0)
    case Return => Nibbles(0, 0, 0xE, 0xE)
    case Jump(a) => Nibbles(1, a / 0x100, HighOf(a % 0x100), LowOf(a % 0x100))
    case Call(a) => Nibbles(2, a / 0x100, HighOf(a % 0x100), LowOf(a % 0x100))
    case SkipIfEqual(x, nn) => Nibbles(3, x, HighOf(nn), LowOf(nn))
    case SkipIfNotEqual(x, nn) => Nibbles(4, x, HighOf(nn), LowOf(nn))
    case SkipIfRegistersEqual(x, y) => Nibbles(5, x, y, 0)
    case LoadImmediate(x, nn) => Nibbles(6, x, HighOf(nn), LowOf(nn))
    case AddImmediate(x, nn) => Nibbles(7, x, HighOf(nn), LowOf(nn))
    case Assign(x, y) => Nibbles(8, x, y, 0x0)
    case Or(x, y) => Nibbles(8, x, y, 0x1)
    case And(x, y) => Nibbles(8, x, y, 0x2)
    case Xor(x, y) => Nibbles(8, x, y, 0x3)
    case Add(x, y) => Nibbles(8, x, y, 0x4)
    case Subtract(x, y) => Nibbles(8, x, y, 0x5)
    case ShiftRight(x, y) => Nibbles(8, x, y, 0x6)
    case SubtractReverse(x, y) => Nibbles(8, x, y, 0x7)
    case ShiftLeft(x, y) => Nibbles(8, x, y, 0xE)
    case SkipIfRegistersDiffer(x, y) => Nibbles(9, x, y, 0)
    case LoadIndex(a) => Nibbles(0xA, a / 0x100, HighOf(a % 0x100), LowOf(a % 0x100))
    case JumpOffset(a) => Nibbles(0xB, a / 0x100, HighOf(a % 0x100), LowOf(a % 0x100))
    case Random(x, nn) => Nibbles(0xC, x, HighOf(nn), LowOf(nn))
    case Draw(x, y, n) => Nibbles(0xD, x, y, n)
    case SkipIfKey(x) => Nibbles(0xE, x, 0x9, 0xE)
    case SkipIfNotKey(x) => Nibbles(0xE, x, 0xA, 0x1)
    case LoadDelay(x) => Nibbles(0xF, x, 0x0, 0x7)
    case WaitKey(x) => Nibbles(0xF, x, 0x0, 0xA)
    case SetDelay(x) => Nibbles(0xF, x, 0x1, 0x5)
    case SetSound(x) => Nibbles(0xF, x, 0x1, 0x8)
    case AddIndex(x) => Nibbles(0xF, x, 0x1, 0xE)
    case LoadFont(x) => Nibbles(0xF, x, 0x2, 0x9)
    case StoreBcd(x) => Nibbles(0xF, x, 0x3, 0x3)
    case StoreRegisters(x) => Nibbles(0xF, x, 0x5, 0x5)
    case LoadRegisters(x) => Nibbles(0xF, x, 0x6, 0x5)
  }

  /** The canonical 16-bit encoding of an instruction. */
  function Encode(i: Instr): (op: nat)
    requires !i.Unknown?
    ensures op < 0x10000
  {
    var f := NibblesOf(i);
    Compose(f.t, f.x, f.y, f.n)
  }

  /** Decoding inverts encoding: every instruction the interpreter knows is
      reached by its canonical opcode. */
  lemma DecodeEncode(i: Instr)
    requires !i.Unknown?
    ensures Decode(Encode(i)) == i
  {
    var f := NibblesOf(i);
    ComposeFields(f.t, f.x, f.y, f.n);
    NibblesRoundTrip(i);
  }

  /** The two-level switch maps the canonical nibbles of an instruction back to it. */
  lemma NibblesRoundTrip(i: Instr)
    requires !i.Unknown?
    ensures var f := NibblesOf(i); DecodeNibbles(f.t, f.x, f.y, f.n) == Some(i)
  {
    if i.Jump? || i.Call? || i.LoadIndex? || i.JumpOffset? {
      NibblesOfAddress(i);
    } else if i.SkipIfEqual? || i.SkipIfNotEqual? || i.LoadImmediate? || i.AddImmediate? || i.Random? {
      NibblesOfImmediate(i);
    } else if i.ClearScreen? || i.Return? || i.SkipIfRegistersEqual? || i.SkipIfRegistersDiffer? || i.Draw? {
      NibblesOfOther(i);
    } else if i.Assign? || i.Or? || i.And? || i.Xor? || i.Add? || i.Subtract? || i.ShiftRight?
       || i.SubtractReverse? || i.ShiftLeft? {
      NibblesOfArithmetic(i);
    } else {
      NibblesOfMasked(i);
    }
  }

  lemma NibblesOfAddress(i: Instr)
    requires i.Jump? || i.Call? || i.LoadIndex? || i.JumpOffset?
    ensures var f := NibblesOf(i); DecodeNibbles(f.t, f.x, f.y, f.n) == Some(i)
  {
    var a := i.addr;
    assert a == (a / 0x100) * 0x100 + HighOf(a % 0x100) * 0x10 + LowOf(a % 0x100);
  }

  lemma NibblesOfImmediate(i: Instr)
    requires i.SkipIfEqual? || i.SkipIfNotEqual? || i.LoadImmediate? || i.AddImmediate? || i.Random?
    ensures var f := NibblesOf(i); DecodeNibbles(f.t, f.x, f.y, f.n) == Some(i)
  {
    assert i.nn == HighOf(i.nn) * 0x10 + LowOf(i.nn);
  }

  lemma NibblesOfOther(i: Instr)
    requires i.ClearScreen? || i.Return? || i.SkipIfRegistersEqual? || i.SkipIfRegistersDiffer? || i.Draw?
    ensures var f := NibblesOf(i); DecodeNibbles(f.t, f.x, f.y, f.n) == Some(i)
  {
  }

  lemma NibblesOfArithmetic(i: Instr)
    requires i.Assign? || i.Or? || i.And? || i.Xor? || i.Add? || i.Subtract? || i.ShiftRight?
       || i.SubtractReverse? || i.ShiftLeft?
    ensures var f := NibblesOf(i); DecodeNibbles(f.t, f.x, f.y, f.n) == Some(i)
  {
  }

  lemma NibblesOfMasked(i: Instr)
    requires i.SkipIfKey? || i.SkipIfNotKey? || i.LoadDelay? || i.WaitKey? || i.SetDelay?
       || i.SetSound? || i.AddIndex? || i.LoadFont? || i.StoreBcd? || i.StoreRegisters?
       || i.LoadRegisters?
    ensures var f := NibblesOf(i); DecodeNibbles(f.t, f.x, f.y, f.n) == Some(i)
  {
  }

  /** Encoding inverts decoding, up to the nibbles the switch ignores: a
      16-bit opcode the interpreter knows is its instruction's canonical
      opcode, except that `00E0` and `00EE` lose their x nibble and `5xy_`
      and `9xy_` lose their last nibble. */
  lemma EncodeDecode(op: nat)
    requires op < 0x10000 && !Decode(op).Unknown?
    ensures var i := Decode(op);
      Encode(i) == op - (if i.ClearScreen? || i.Return? then X(op) * 0x100 else 0)
                      - (if i.SkipIfRegistersEqual? || i.SkipIfRegistersDiffer? then N(op) else 0)
    ensures var i := Decode(op);
      !(i.ClearScreen? || i.Return? || i.SkipIfRegistersEqual? || i.SkipIfRegistersDiffer?)
      ==> Encode(i) == op
  {
    FieldsCompose(op);
    NibblesDecode(Top(op), X(op), Y(op), N(op));
  }

  /** The canonical nibbles of a decoded instruction are the nibbles it was
      decoded from, with the ignored ones set to zero. */
  lemma NibblesDecode(t: Nibble, x: Nibble, y: Nibble, n: Nibble)
    requires DecodeNibbles(t, x, y, n).Some?
    ensures var i := DecodeNibbles(t, x, y, n).value;
      && !i.Unknown?
      && NibblesOf(i) == Nibbles(t, if t == 0 then 0 else x, y, if t == 5 || t == 9 then 0 else n)
      && (t == 0 <==> i.ClearScreen? || i.Return?)
      && (t == 5 || t == 9 <==> i.SkipIfRegistersEqual? || i.SkipIfRegistersDiffer?)
  {
    if t in {0x1, 0x2, 0xA, 0xB} {
      var nnn := x * 0x100 + y * 0x10 + n;
      DivModUnique(nnn, 0x100, x, y * 0x10 + n);
      DivModUnique(y * 0x10 + n, 0x10, y, n);
    } else if t in {0x3, 0x4, 0x6, 0x7, 0xC} {
      DivModUnique(y * 0x10 + n, 0x10, y, n);
    } else if t in {0x0, 0xE, 0xF} {
      MaskedNibbles(t, x, y, n);
    }
  }

  lemma MaskedNibbles(t: Nibble, x: Nibble, y: Nibble, n: Nibble)
    requires t in {0x0, 0xE, 0xF} && DecodeMasked(t * 0x1000 + y * 0x10 + n, x).Some?
    ensures var i := DecodeMasked(t * 0x1000 + y * 0x10 + n, x).value;
      && !i.Unknown?
      && NibblesOf(i) == Nibbles(t, if t == 0 then 0 else x, y, n)
      && (t == 0 <==> i.ClearScreen? || i.Return?)
      && !(i.SkipIfRegistersEqual? || i.SkipIfRegistersDiffer?)
  {
  }

  /** Because `opcode & 0xF0FF` drops the x nibble, every `0x_E0` opcode with
      top nibble zero clears the screen, and every `0x_EE` one returns. */
  lemma MaskedDropsX(x: Nibble)
    ensures Decode(x * 0x100 + 0xE0) == ClearScreen
    ensures Decode(x * 0x100 + 0xEE) == Return
  {
    DecodeComposed(x * 0x100 + 0xE0, 0, x, 0xE, 0x0);
    DecodeComposed(x * 0x100 + 0xEE, 0, x, 0xE, 0xE);
  }

  /** Decoding a composed opcode runs the switch on the nibbles it was composed of. */
  lemma DecodeComposed(op: nat, t: Nibble, x: Nibble, y: Nibble, n: Nibble)
    requires op == t * 0x1000 + x * 0x100 + y * 0x10 + n
    ensures Decode(op) == match DecodeNibbles(t, x, y, n) case Some(i) => i case None => Unknown(op)
  {
    assert op == Compose(t, x, y, n);
    ComposeFields(t, x, y, n);
  }

  /** Any opcode's low 16 bits are composed of its four fields. */
  lemma LowFields(op: nat)
    ensures op % 0x10000 == Compose(Top(op), X(op), Y(op), N(op))
    ensures op % 0x1000 == X(op) * 0x100 + op % 0x100
    ensures op % 0x100 == Y(op) * 0x10 + N(op)
  {
    DivDiv(op, 0x10, 0x10);
    DivDiv(op, 0x100, 0x10);
    DivDiv(op, 0x1000, 0x10);
  }

  /** Only the low 16 bits of the fetched word select the instruction. */
  lemma DecodeLow16(op: nat)
    requires !Decode(op).Unknown?
    ensures Decode(op % 0x10000) == Decode(op)
  {
    LowFields(op);
    ComposeFields(Top(op), X(op), Y(op), N(op));
  }
}
