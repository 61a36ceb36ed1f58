/**
  Decoding of the 16-bit instruction word.  The interpreter splits the word
  into four nibbles and matches on them; `Decode` makes that match an explicit
  instruction value, and `Encode` is its inverse, which shows that the
  decoder neither loses nor invents operand bits.
 */
module Opcode {
  import opened Machine

  type Nibble = n: int | 0 <= n < 0x10
  /** The low 12 bits of a word, the NNN operand. */
  type Addr = a: int | 0 <= a < 0x1000

  datatype Instr =
    | Cls                              // 00E0
    | Ret                              // 00EE
    | Sys(nnn: Addr)                   // 0NNN, a no-op
    | Jump(nnn: Addr)                  // 1NNN
    | Call(nnn: Addr)                  // 2NNN
    | SkipEqImm(x: Nibble, nn: Byte)   // 3XNN
    | SkipNeImm(x: Nibble, nn: Byte)   // 4XNN
    | SkipEqReg(x: Nibble, y: Nibble)  // 5XY0
    | SetImm(x: Nibble, nn: Byte)      // 6XNN
    | AddImm(x: Nibble, nn: Byte)      // 7XNN
    | Mov(x: Nibble, y: Nibble)        // 8XY0
    | Or(x: Nibble, y: Nibble)         // 8XY1
    | And(x: Nibble, y: Nibble)        // 8XY2
    | Xor(x: Nibble, y: Nibble)        // 8XY3
    | AddReg(x: Nibble, y: Nibble)     // 8XY4
    | SubReg(x: Nibble, y: Nibble)     // 8XY5
    | ShiftRight(x: Nibble, y: Nibble) // 8XY6, Y ignored
    | SubRev(x: Nibble, y: Nibble)     // 8XY7
    | ShiftLeft(x: Nibble, y: Nibble)  // 8XYE, Y ignored
    | SkipNeReg(x: Nibble, y: Nibble)  // 9XY0
    | SetIndex(nnn: Addr)              // ANNN
    | JumpV0(nnn: Addr)                // BNNN
    | Rand(x: Nibble, nn: Byte)        // CXNN
    | Draw(x: Nibble, y: Nibble, n: Nibble) // DXYN
    | SkipKey(x: Nibble)               // EX9E
    | SkipNoKey(x: Nibble)             // EXA1
    | GetDelay(x: Nibble)              // FX07
    | WaitKey(x: Nibble)               // FX0A
    | SetDelay(x: Nibble)              // FX15
    | SetSound(x: Nibble)              // FX18
    | AddIndex(x: Nibble)              // FX1E
    | FontChar(x: Nibble)              // FX29
    | Bcd(x: Nibble)                   // FX33
    | StoreRegs(x: Nibble)             // FX55
    | LoadRegs(x: Nibble)              // FX65
    | Unsupported(op: Word)            // anything else

  /** The word whose nibbles, most significant first, are a, x, y and n. */
  function Word4(a: Nibble, x: Nibble, y: Nibble, n: Nibble): Word {
    a * 0x1000 + x * 0x100 + y * 0x10 + n
  }

  /** A word with an 8-bit immediate operand. */
  function WordXNN(a: Nibble, x: Nibble, nn: Byte): Word {
    Word4(a, x, nn / 0x10, nn % 0x10)
  }

  /** A word with a 12-bit address operand. */
  function WordNNN(a: Nibble, nnn: Addr): Word {
    Word4(a, nnn / 0x100, nnn / 0x10 % 0x10, nnn % 0x10)
  }

  /** Splitting a word into nibbles and joining them again gives the word back, and conversely. */
  lemma NibbleSplit(op: Word)
    ensures op / 0x1000 < 0x10
    ensures op == Word4(op / 0x1000, op / 0x100 % 0x10, op / 0x10 % 0x10, op % 0x10)
  {
    assert op == 0x10 * (op / 0x10) + op % 0x10;
    assert op / 0x10 == 0x10 * (op / 0x100) + op / 0x10 % 0x10;
    assert op / 0x100 == 0x10 * (op / 0x1000) + op / 0x100 % 0x10;
  }

  lemma NibbleJoin(a: Nibble, x: Nibble, y: Nibble, n: Nibble)
    ensures var w := Word4(a, x, y, n);
      w / 0x1000 == a && w / 0x100 % 0x10 == x && w / 0x10 % 0x10 == y && w % 0x10 == n
  {
    var w := Word4(a, x, y, n);
    assert w / 0x1000 == a;
    assert w / 0x100 == a * 0x10 + x;
    assert w / 0x10 == a * 0x100 + x * 0x10 + y;
  }

  /** An 8-bit operand taken apart into its two nibbles. */
  lemma SplitByte(y: Nibble, n: Nibble)
    ensures (y * 0x10 + n) / 0x10 == y && (y * 0x10 + n) % 0x10 == n
  {
  }

  /** A 12-bit operand taken apart into its three nibbles. */
  lemma SplitAddr(x: Nibble, y: Nibble, n: Nibble)
    ensures var nnn := x * 0x100 + y * 0x10 + n;
      nnn / 0x100 == x && nnn / 0x10 % 0x10 == y && nnn % 0x10 == n
  {
    NibbleJoin(0, x, y, n);
  }

  /** Dispatch on the nibbles in the order of the interpreter's match; the first arm that fits wins. */
  function DecodeNibbles(op: Word, a: Nibble, x: Nibble, y: Nibble, n: Nibble): (ins: Instr)
    ensures ins.Unsupported? ==> ins.op == op
  {
    var nn: Byte := y * 0x10 + n;
    var nnn: Addr := x * 0x100 + nn;
    match a
    case 0x0 =>
      if x == 0 && y == 0xE && n == 0 then Cls
      else if x == 0 && y == 0xE && n == 0xE then Ret
      else Sys(nnn)
    case 0x1 => Jump(nnn)
    case 0x2 => Call(nnn)
    case 0x3 => SkipEqImm(x, nn)
    case 0x4 => SkipNeImm(x, nn)
    case 0x5 => if n == 0 then SkipEqReg(x, y) else Unsupported(op)
    case 0x6 => SetImm(x, nn)
    case 0x7 => AddImm(x, nn)
    case 0x8 =>
      (match n
       case 0x0 => Mov(x, y)
       case 0x1 => Or(x, y)
       case 0x2 => And(x, y)
       case 0x3 => Xor(x, y)
       case 0x4 => AddReg(x, y)
       case 0x5 => SubReg(x, y)
       case 0x6 => ShiftRight(x, y)
       case 0x7 => SubRev(x, y)
       case 0xE => ShiftLeft(x, y)
       case _ => Unsupported(op))
    case 0x9 => if n == 0 then SkipNeReg(x, y) else Unsupported(op)
    case 0xA => SetIndex(nnn)
    case 0xB => JumpV0(nnn)
    case 0xC => Rand(x, nn)
    case 0xD => Draw(x, y, n)
    case 0xE =>
      if y == 0x9 && n == 0xE then SkipKey(x)
      else if y == 0xA && n == 0x1 then SkipNoKey(x)
      else Unsupported(op)
    case _ =>
      if y == 0x0 && n == 0x7 then GetDelay(x)
      else if y == 0x0 && n == 0xA then WaitKey(x)
      else if y == 0x1 && n == 0x5 then SetDelay(x)
      else if y == 0x1 && n == 0x8 then SetSound(x)
      else if y == 0x1 && n == 0xE then AddIndex(x)
      else if y == 0x2 && n == 0x9 then FontChar(x)
      else if y == 0x3 && n == 0x3 then Bcd(x)
      else if y == 0x5 && n == 0x5 then StoreRegs(x)
      else if y == 0x6 && n == 0x5 then LoadRegs(x)
      else Unsupported(op)
  }

  /** The nibble match of `Emu::exec`. */
  function Decode(op: Word): (ins: Instr)
    ensures ins.Unsupported? ==> ins.op == op
  {
    NibbleSplit(op);
    DecodeNibbles(op, op / 0x1000, op / 0x100 % 0x10, op / 0x10 % 0x10, op % 0x10)
  }

  /** The word an instruction is written as. */
  function Encode(ins: Instr): Word {
    match ins
    case Cls => 0x00E0
    case Ret => 0x00EE
    case Sys(nnn) => WordNNN(0x0, nnn)
    case Jump(nnn) => WordNNN(0x1, nnn)
    case Call(nnn) => WordNNN(0x2, nnn)
    case SkipEqImm(x, nn) => WordXNN(0x3, x, nn)
    case SkipNeImm(x, nn) => WordXNN(0x4, x, nn)
    case SkipEqReg(x, y) => Word4(0x5, x, y, 0x0)
    case SetImm(x, nn) => WordXNN(0x6, x, nn)
    case AddImm(x, nn) => WordXNN(0x7, x, nn)
    case Mov(x, y) => Word4(0x8, x, y, 0x0)
    case Or(x, y) => Word4(0x8, x, y, 0x1)
    case And(x, y) => Word4(0x8, x, y, 0x2)
    case Xor(x, y) => Word4(0x8, x, y, 0x3)
    case AddReg(x, y) => Word4(0x8, x, y, 0x4)
    case SubReg(x, y) => Word4(0x8, x, y, 0x5)
    case ShiftRight(x, y) => Word4(0x8, x, y, 0x6)
    case SubRev(x, y) => Word4(0x8, x, y, 0x7)
    case ShiftLeft(x, y) => Word4(0x8, x, y, 0xE)
    case SkipNeReg(x, y) => Word4(0x9, x, y, 0x0)
    case SetIndex(nnn) => WordNNN(0xA, nnn)
    case JumpV0(nnn) => WordNNN(0xB, nnn)
    case Rand(x, nn) => WordXNN(0xC, x, nn)
    case Draw(x, y, n) => Word4(0xD, x, y, n)
    case SkipKey(x) => Word4(0xE, x, 0x9, 0xE)
    case SkipNoKey(x) => Word4(0xE, x, 0xA, 0x1)
    case GetDelay(x) => Word4(0xF, x, 0x0, 0x7)
    case WaitKey(x) => Word4(0xF, x, 0x0, 0xA)
    case SetDelay(x) => Word4(0xF, x, 0x1, 0x5)
    case SetSound(x) => Word4(0xF, x, 0x1, 0x8)
    case AddIndex(x) => Word4(0xF, x, 0x1, 0xE)
    case FontChar(x) => Word4(0xF, x, 0x2, 0x9)
    case Bcd(x) => Word4(0xF, x, 0x3, 0x3)
    case StoreRegs(x) => Word4(0xF, x, 0x5, 0x5)
    case LoadRegs(x) => Word4(0xF, x, 0x6, 0x5)
    case Unsupported(op) => op
  }

  /**
    The instructions the decoder can produce: the machine-code call never
    takes the two words reserved for clear and return, and an unsupported
    word really is unsupported.
   */
  predicate WellFormed(ins: Instr) {
    match ins
    case Sys(nnn) => nnn != 0x0E0 && nnn != 0x0EE
    case Unsupported(op) => Decode(op).Unsupported?
    case _ => true
  }

  /** Decoding loses no bits: re-encoding the decoded instruction yields the fetched word. */
  lemma EncodeDecode(op: Word)
    ensures WellFormed(Decode(op))
    ensures Encode(Decode(op)) == op
  {
    NibbleSplit(op);
    var a, x, y, n := op / 0x1000, op / 0x100 % 0x10, op / 0x10 % 0x10, op % 0x10;
    EncodeDecodeNibbles(op, a, x, y, n);
  }

  lemma EncodeDecodeNibbles(op: Word, a: Nibble, x: Nibble, y: Nibble, n: Nibble)
    requires op == Word4(a, x, y, n)
    requires Decode(op) == DecodeNibbles(op, a, x, y, n)
    ensures WellFormed(DecodeNibbles(op, a, x, y, n))
    ensures Encode(DecodeNibbles(op, a, x, y, n)) == op
  {
    SplitByte(y, n);
    SplitAddr(x, y, n);
    if a == 0x0 {
      var ins := DecodeNibbles(op, a, x, y, n);
      assert ins.Sys? ==> ins.nnn == op;
    } else if a <= 0x7 {
      EncodeDecodeLow(op, a, x, y, n);
    } else if a == 0x8 {
      EncodeDecodeAlu(op, x, y, n);
    } else if a <= 0xD {
      EncodeDecodeHigh(op, a, x, y, n);
    } else {
      EncodeDecodeKeysAndTimers(op, a, x, y, n);
    }
  }

  lemma EncodeDecodeLow(op: Word, a: Nibble, x: Nibble, y: Nibble, n: Nibble)
    requires 0x1 <= a <= 0x7
    requires op == Word4(a, x, y, n)
    requires Decode(op) == DecodeNibbles(op, a, x, y, n)
    requires (y * 0x10 + n) / 0x10 == y && (y * 0x10 + n) % 0x10 == n
    requires var nnn := x * 0x100 + y * 0x10 + n;
      nnn / 0x100 == x && nnn / 0x10 % 0x10 == y && nnn % 0x10 == n
    ensures WellFormed(DecodeNibbles(op, a, x, y, n))
    ensures Encode(DecodeNibbles(op, a, x, y, n)) == op
  {
  }

  lemma EncodeDecodeAlu(op: Word, x: Nibble, y: Nibble, n: Nibble)
    requires op == Word4(0x8, x, y, n)
    requires Decode(op) == DecodeNibbles(op, 0x8, x, y, n)
    ensures WellFormed(DecodeNibbles(op, 0x8, x, y, n))
    ensures Encode(DecodeNibbles(op, 0x8, x, y, n)) == op
  {
  }

  lemma EncodeDecodeKeysAndTimers(op: Word, a: Nibble, x: Nibble, y: Nibble, n: Nibble)
    requires 0xE <= a
    requires op == Word4(a, x, y, n)
    requires Decode(op) == DecodeNibbles(op, a, x, y, n)
    ensures WellFormed(DecodeNibbles(op, a, x, y, n))
    ensures Encode(DecodeNibbles(op, a, x, y, n)) == op
  {
    if a == 0xE {
      EncodeDecodeKeys(op, x, y, n);
    } else {
      EncodeDecodeTimers(op, x, y, n);
    }
  }

  lemma EncodeDecodeKeys(op: Word, x: Nibble, y: Nibble, n: Nibble)
    requires op == Word4(0xE, x, y, n)
    requires Decode(op) == DecodeNibbles(op, 0xE, x, y, n)
    ensures WellFormed(DecodeNibbles(op, 0xE, x, y, n))
    ensures Encode(DecodeNibbles(op, 0xE, x, y, n)) == op
  {
  }

  lemma EncodeDecodeTimers(op: Word, x: Nibble, y: Nibble, n: Nibble)
    requires op == Word4(0xF, x, y, n)
    requires Decode(op) == DecodeNibbles(op, 0xF, x, y, n)
    ensures WellFormed(DecodeNibbles(op, 0xF, x, y, n))
    ensures Encode(DecodeNibbles(op, 0xF, x, y, n)) == op
  {
  }

  lemma EncodeDecodeHigh(op: Word, a: Nibble, x: Nibble, y: Nibble, n: Nibble)
    requires 0x9 <= a <= 0xD
    requires op == Word4(a, x, y, n)
    requires Decode(op) == DecodeNibbles(op, a, x, y, n)
    requires (y * 0x10 + n) / 0x10 == y && (y * 0x10 + n) % 0x10 == n
    requires var nnn := x * 0x100 + y * 0x10 + n;
      nnn / 0x100 == x && nnn / 0x10 % 0x10 == y && nnn % 0x10 == n
    ensures WellFormed(DecodeNibbles(op, a, x, y, n))
    ensures Encode(DecodeNibbles(op, a, x, y, n)) == op
  {
  }

  /** Decoding is onto the well-formed instructions and inverts encoding on them. */
  lemma DecodeEncode(ins: Instr)
    requires WellFormed(ins)
    ensures Decode(Encode(ins)) == ins
  {
    if ins.Sys? || ins.Jump? || ins.Call? || ins.SetIndex? || ins.JumpV0? {
      DecodeEncodeAddr(ins);
    } else if ins.SkipEqImm? || ins.SkipNeImm? || ins.SetImm? || ins.AddImm? || ins.Rand? {
      DecodeEncodeImm(ins);
    } else if !ins.Cls? && !ins.Ret? && !ins.Unsupported? {
      DecodeEncodeRegs(ins);
    }
  }

  /** The instructions with a 12-bit address operand. */
  lemma DecodeEncodeAddr(ins: Instr)
    requires ins.Sys? || ins.Jump? || ins.Call? || ins.SetIndex? || ins.JumpV0?
    requires WellFormed(ins)
    ensures Decode(Encode(ins)) == ins
  {
    DecodeNNN(Encode(ins) / 0x1000, ins.nnn);
  }

  /** The instructions with an 8-bit immediate operand. */
  lemma DecodeEncodeImm(ins: Instr)
    requires ins.SkipEqImm? || ins.SkipNeImm? || ins.SetImm? || ins.AddImm? || ins.Rand?
    ensures Decode(Encode(ins)) == ins
  {
    DecodeXNN(Encode(ins) / 0x1000, ins.x, ins.nn);
  }

  /** The register-operand instructions, whose words are given nibble by nibble. */
  lemma DecodeEncodeRegs(ins: Instr)
    requires !ins.Cls? && !ins.Ret? && !ins.Unsupported?
    requires !ins.Sys? && !ins.Jump? && !ins.Call? && !ins.SetIndex? && !ins.JumpV0?
    requires !ins.SkipEqImm? && !ins.SkipNeImm? && !ins.SetImm? && !ins.AddImm? && !ins.Rand?
    ensures Decode(Encode(ins)) == ins
  {
    match ins
    case SkipEqReg(x, y) => DecodeWord4(0x5, x, y, 0x0);
    case SkipNeReg(x, y) => DecodeWord4(0x9, x, y, 0x0);
    case Draw(x, y, n) => DecodeWord4(0xD, x, y, n);
    case SkipKey(x) => DecodeWord4(0xE, x, 0x9, 0xE);
    case SkipNoKey(x) => DecodeWord4(0xE, x, 0xA, 0x1);
    case Mov(_, _) => DecodeEncodeAlu(ins);
    case Or(_, _) => DecodeEncodeAlu(ins);
    case And(_, _) => DecodeEncodeAlu(ins);
    case Xor(_, _) => DecodeEncodeAlu(ins);
    case AddReg(_, _) => DecodeEncodeAlu(ins);
    case SubReg(_, _) => DecodeEncodeAlu(ins);
    case ShiftRight(_, _) => DecodeEncodeAlu(ins);
    case SubRev(_, _) => DecodeEncodeAlu(ins);
    case ShiftLeft(_, _) => DecodeEncodeAlu(ins);
    case FontChar(_) => DecodeEncodeIndexMemory(ins);
    case Bcd(_) => DecodeEncodeIndexMemory(ins);
    case StoreRegs(_) => DecodeEncodeIndexMemory(ins);
    case LoadRegs(_) => DecodeEncodeIndexMemory(ins);
    case _ => DecodeEncodeTimers(ins);
  }

  /** The 8XYN register arithmetic. */
  lemma DecodeEncodeAlu(ins: Instr)
    requires ins.Mov? || ins.Or? || ins.And? || ins.Xor? || ins.AddReg? || ins.SubReg?
      || ins.ShiftRight? || ins.SubRev? || ins.ShiftLeft?
    ensures Decode(Encode(ins)) == ins
  {
    match ins
    case Mov(x, y) => DecodeWord4(0x8, x, y, 0x0);
    case Or(x, y) => DecodeWord4(0x8, x, y, 0x1);
    case And(x, y) => DecodeWord4(0x8, x, y, 0x2);
    case Xor(x, y) => DecodeWord4(0x8, x, y, 0x3);
    case AddReg(x, y) => DecodeWord4(0x8, x, y, 0x4);
    case SubReg(x, y) => DecodeWord4(0x8, x, y, 0x5);
    case ShiftRight(x, y) => DecodeWord4(0x8, x, y, 0x6);
    case SubRev(x, y) => DecodeWord4(0x8, x, y, 0x7);
    case ShiftLeft(x, y) => DecodeWord4(0x8, x, y, 0xE);
  }

  /** The FX.. timer, key-wait and index-add instructions. */
  lemma DecodeEncodeTimers(ins: Instr)
    requires ins.GetDelay? || ins.WaitKey? || ins.SetDelay? || ins.SetSound? || ins.AddIndex?
    ensures Decode(Encode(ins)) == ins
  {
    match ins
    case GetDelay(x) => DecodeWord4(0xF, x, 0x0, 0x7);
    case WaitKey(x) => DecodeWord4(0xF, x, 0x0, 0xA);
    case SetDelay(x) => DecodeWord4(0xF, x, 0x1, 0x5);
    case SetSound(x) => DecodeWord4(0xF, x, 0x1, 0x8);
    case AddIndex(x) => DecodeWord4(0xF, x, 0x1, 0xE);
  }

  /** The FX.. glyph, BCD and register dump and load instructions. */
  lemma DecodeEncodeIndexMemory(ins: Instr)
    requires ins.FontChar? || ins.Bcd? || ins.StoreRegs? || ins.LoadRegs?
    ensures Decode(Encode(ins)) == ins
  {
    match ins
    case FontChar(x) => DecodeWord4(0xF, x, 0x2, 0x9);
    case Bcd(x) => DecodeWord4(0xF, x, 0x3, 0x3);
    case StoreRegs(x) => DecodeWord4(0xF, x, 0x5, 0x5);
    case LoadRegs(x) => DecodeWord4(0xF, x, 0x6, 0x5);
  }

  /** Decoding a word assembled from nibbles dispatches on exactly those nibbles. */
  lemma DecodeWord4(a: Nibble, x: Nibble, y: Nibble, n: Nibble)
    ensures Decode(Word4(a, x, y, n)) == DecodeNibbles(Word4(a, x, y, n), a, x, y, n)
  {
    NibbleJoin(a, x, y, n);
  }

  lemma DecodeXNN(a: Nibble, x: Nibble, nn: Byte)
    ensures WordXNN(a, x, nn) / 0x1000 == a
    ensures var ins := Decode(WordXNN(a, x, nn));
      && (a == 0x3 ==> ins == SkipEqImm(x, nn))
      && (a == 0x4 ==> ins == SkipNeImm(x, nn))
      && (a == 0x6 ==> ins == SetImm(x, nn))
      && (a == 0x7 ==> ins == AddImm(x, nn))
      && (a == 0xC ==> ins == Rand(x, nn))
  {
    assert nn == nn / 0x10 * 0x10 + nn % 0x10;
    DecodeWord4(a, x, nn / 0x10, nn % 0x10);
  }

  lemma DecodeNNN(a: Nibble, nnn: Addr)
    ensures WordNNN(a, nnn) / 0x1000 == a
    ensures var ins := Decode(WordNNN(a, nnn));
      && (a == 0x0 && nnn != 0x0E0 && nnn != 0x0EE ==> ins == Sys(nnn))
      && (a == 0x1 ==> ins == Jump(nnn))
      && (a == 0x2 ==> ins == Call(nnn))
      && (a == 0xA ==> ins == SetIndex(nnn))
      && (a == 0xB ==> ins == JumpV0(nnn))
  {
    assert nnn == 0x10 * (nnn / 0x10) + nnn % 0x10;
    assert nnn / 0x10 == 0x10 * (nnn / 0x100) + nnn / 0x10 % 0x10;
    DecodeWord4(a, nnn / 0x100, nnn / 0x10 % 0x10, nnn % 0x10);
  }

  /** Groups 0-4, 6, 7 and A-D accept every word: only the 5, 8, 9, E and F groups leave words to `unimplemented!`. */
  lemma UnsupportedGroups(op: Word)
    ensures Decode(op).Unsupported? ==> var a := op / 0x1000; a == 0x5 || a == 0x8 || a == 0x9 || a == 0xE || a == 0xF
  {
    NibbleSplit(op);
  }

  /**
    The words of the 5, 8 and 9 groups no arm of the match accepts: a 5 or 9
    group word with a nonzero low nibble, and an 8 group word exactly when its
    low nibble is 8..D or F.
   */
  lemma UnsupportedWords(x: Nibble, y: Nibble, n: Nibble)
    ensures n != 0 ==> Decode(Word4(0x5, x, y, n)) == Unsupported(Word4(0x5, x, y, n))
    ensures n != 0 ==> Decode(Word4(0x9, x, y, n)) == Unsupported(Word4(0x9, x, y, n))
    ensures Decode(Word4(0x8, x, y, n)).Unsupported? <==> (0x8 <= n <= 0xD || n == 0xF)
  {
    NibbleJoin(0x5, x, y, n);
    NibbleJoin(0x8, x, y, n);
    NibbleJoin(0x9, x, y, n);
  }

  /**
    An E or F group word is unsupported exactly when its low byte names none of
    the listed sub-operations (EX9E, EXA1; FX07, FX0A, FX15, FX18, FX1E, FX29,
    FX33, FX55, FX65).
   */
  lemma UnsupportedSubOps(x: Nibble, y: Nibble, n: Nibble)
    ensures Decode(Word4(0xE, x, y, n)).Unsupported? <==> !(y == 0x9 && n == 0xE) && !(y == 0xA && n == 0x1)
    ensures Decode(Word4(0xF, x, y, n)).Unsupported? <==>
      !(|| (y == 0x0 && (n == 0x7 || n == 0xA))
        || (y == 0x1 && (n == 0x5 || n == 0x8 || n == 0xE))
        || (y == 0x2 && n == 0x9)
        || (y == 0x3 && n == 0x3)
        || (y == 0x5 && n == 0x5)
        || (y == 0x6 && n == 0x5))
  {
    NibbleJoin(0xE, x, y, n);
    NibbleJoin(0xF, x, y, n);
  }
}
