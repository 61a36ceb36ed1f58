/**
  What one `exec` step does, instruction by instruction, stated against the
  whole machine state: which fields change, how, and which stay put.
 */
module Properties {
  import opened Machine
  import opened Opcode
  import opened Bits
  import opened Interp
  import Sprite

  /** The next fetch succeeds and yields the word of `ins`. */
  predicate Fetches(e: Emu, ins: Instr)
    requires e.Valid()
  {
    Fetch(e).Ok? && Decode(Fetch(e).value) == ins
  }

  /** `r` is `e` after the fetch, with only the listed registers possibly changed. */
  predicate RegsOnly(e: Emu, r: Emu, x: nat, alsoFlag: bool)
    requires e.Valid() && r.Valid()
  {
    && r == e.(pc := r.pc, reg := r.reg)
    && r.pc == e.pc + 2
    && forall k :: 0 <= k < RegCount && k != x && (k != VF || !alsoFlag) ==> r.reg[k] == e.reg[k]
  }

  /** Fetch: the big-endian word at pc, pc advanced by two before dispatch. */
  lemma StepFetch(e: Emu, rnd: Byte)
    requires e.Valid()
    ensures e.pc + 1 >= MemSize ==> Step(e, rnd) == Err(PcOutOfRange(e.pc))
    ensures e.pc + 1 < MemSize ==>
      Step(e, rnd) == Execute(e.(pc := e.pc + 2), Decode(e.mem[e.pc] as int * 0x100 + e.mem[e.pc + 1]), rnd)
  {
    if e.pc + 1 < MemSize {
      assert Fetch(e) == Ok(e.mem[e.pc] as int * 0x100 + e.mem[e.pc + 1]);
    }
  }

  /**
    A program loaded into a fresh machine is where execution begins: the
    first fetch reads its first two bytes.
   */
  lemma FirstFetchAfterLoad(data: seq<Byte>)
    requires 2 <= |data| <= MemSize - ProgramStart
    ensures Load(Default(), data).Ok?
    ensures Fetch(Load(Default(), data).value) == Ok(data[0] as int * 0x100 + data[1])
  {
    var e := Load(Default(), data).value;
    assert e.mem[ProgramStart..ProgramStart + |data|][0] == data[0];
    assert e.mem[ProgramStart..ProgramStart + |data|][1] == data[1];
  }

  /** Whether a skip instruction's condition holds. */
  predicate SkipTaken(e: Emu, ins: Instr)
    requires e.Valid()
    requires (ins.SkipKey? || ins.SkipNoKey?) ==> e.reg[ins.x] < KeyCount
  {
    match ins
    case SkipEqImm(x, nn) => e.reg[x] == nn
    case SkipNeImm(x, nn) => e.reg[x] != nn
    case SkipEqReg(x, y) => e.reg[x] == e.reg[y]
    case SkipNeReg(x, y) => e.reg[x] != e.reg[y]
    case SkipKey(x) => e.keys[e.reg[x]]
    case SkipNoKey(x) => !e.keys[e.reg[x]]
    case _ => false
  }

  /** A skip advances pc by 4 when its condition holds and by 2 otherwise; nothing else changes. */
  lemma StepSkip(e: Emu, ins: Instr, rnd: Byte)
    requires e.Valid() && Fetches(e, ins)
    requires ins.SkipEqImm? || ins.SkipNeImm? || ins.SkipEqReg? || ins.SkipNeReg? || ins.SkipKey? || ins.SkipNoKey?
    requires (ins.SkipKey? || ins.SkipNoKey?) ==> e.reg[ins.x] < KeyCount
    ensures Step(e, rnd) == Ok(e.(pc := e.pc + if SkipTaken(e, ins) then 4 else 2))
  {
  }

  /** The key skips index the keypad with VX; a value past the keypad faults. */
  lemma StepSkipKeyFault(e: Emu, ins: Instr, rnd: Byte)
    requires e.Valid() && Fetches(e, ins) && (ins.SkipKey? || ins.SkipNoKey?)
    ensures Step(e, rnd).Err? <==> e.reg[ins.x] >= KeyCount
  {
  }

  /** 1NNN jumps to NNN; BNNN jumps to NNN + V0. */
  lemma StepJump(e: Emu, ins: Instr, rnd: Byte)
    requires e.Valid() && Fetches(e, ins) && (ins.Jump? || ins.JumpV0?)
    ensures ins.Jump? ==> Step(e, rnd) == Ok(e.(pc := ins.nnn))
    ensures ins.JumpV0? ==> Step(e, rnd) == Ok(e.(pc := ins.nnn + e.reg[0]))
  {
  }

  /**
    2NNN pushes the address after the call and jumps; a later 00EE that
    finds the stack as the call left it returns there and pops the entry.
   */
  lemma CallReturnRoundTrip(e: Emu, nnn: Addr, later: Emu, rnd: Byte)
    requires e.Valid() && Fetches(e, Call(nnn)) && e.sp < StackSize
    requires later.Valid() && Fetches(later, Ret)
    requires later.sp == e.sp + 1 && later.stack == e.stack[e.sp := e.pc + 2]
    ensures Step(e, rnd) == Ok(e.(pc := nnn, sp := e.sp + 1, stack := later.stack))
    ensures Step(later, rnd) == Ok(later.(pc := e.pc + 2, sp := e.sp))
  {
  }

  /** A call on a full stack and a return on an empty one both fault; any other
      call pushes the return address, and any other return pops it into the program counter. */
  lemma StackFaults(e: Emu, ins: Instr, rnd: Byte)
    requires e.Valid() && Fetches(e, ins) && (ins.Call? || ins.Ret?)
    ensures ins.Call? ==> (Step(e, rnd).Err? <==> e.sp >= StackSize)
    ensures ins.Call? && e.sp >= StackSize ==> Step(e, rnd) == Err(StackOverflow)
    ensures ins.Call? && e.sp < StackSize ==>
      Step(e, rnd) == Ok(e.(pc := ins.nnn, sp := e.sp + 1, stack := e.stack[e.sp := e.pc + 2]))
    ensures ins.Ret? && e.sp == 0 ==> Step(e, rnd) == Err(StackUnderflow)
    ensures ins.Ret? && e.sp > StackSize ==> Step(e, rnd) == Err(StackOverflow)
    ensures ins.Ret? && 0 < e.sp <= StackSize ==>
      Step(e, rnd) == Ok(e.(pc := e.stack[e.sp - 1], sp := e.sp - 1))
  {
  }

  /** 7XNN adds modulo 256 and leaves every other register, VF included, alone. */
  lemma StepAddImm(e: Emu, x: Nibble, nn: Byte, rnd: Byte)
    requires e.Valid() && Fetches(e, AddImm(x, nn))
    ensures Step(e, rnd).Ok?
    ensures var r := Step(e, rnd).value;
      && RegsOnly(e, r, x, false)
      && r.reg[x] == (e.reg[x] as int + nn) % 0x100
  {
  }

  /** 8XY4: VX gets the low byte of the sum and VF its carry, so VX + 256 * VF is the true sum. */
  lemma StepAddReg(e: Emu, x: Nibble, y: Nibble, rnd: Byte)
    requires e.Valid() && Fetches(e, AddReg(x, y))
    ensures Step(e, rnd).Ok?
    ensures var r := Step(e, rnd).value;
      && RegsOnly(e, r, x, true)
      && (r.reg[VF] == 1 <==> e.reg[x] as int + e.reg[y] >= 0x100)
      && r.reg[VF] <= 1
      && (x != VF ==> r.reg[x] as int + 0x100 * (r.reg[VF] as int) == e.reg[x] as int + e.reg[y])
  {
  }

  /**
    8XY5: VX gets VX - VY modulo 256 and VF the borrow of `overflowing_sub`,
    so VF is 1 exactly when VY exceeds VX and VX - 256 * VF is the true
    difference.
   */
  lemma StepSubReg(e: Emu, x: Nibble, y: Nibble, rnd: Byte)
    requires e.Valid() && Fetches(e, SubReg(x, y))
    ensures Step(e, rnd).Ok?
    ensures var r := Step(e, rnd).value;
      && RegsOnly(e, r, x, true)
      && (r.reg[VF] == 1 <==> e.reg[x] < e.reg[y])
      && r.reg[VF] <= 1
      && (x != VF ==> r.reg[x] as int - 0x100 * (r.reg[VF] as int) == e.reg[x] as int - e.reg[y])
  {
  }

  /** 8XY7: as 8XY5 with the operands swapped. */
  lemma StepSubRev(e: Emu, x: Nibble, y: Nibble, rnd: Byte)
    requires e.Valid() && Fetches(e, SubRev(x, y))
    ensures Step(e, rnd).Ok?
    ensures var r := Step(e, rnd).value;
      && RegsOnly(e, r, x, true)
      && (r.reg[VF] == 1 <==> e.reg[y] < e.reg[x])
      && r.reg[VF] <= 1
      && (x != VF ==> r.reg[x] as int - 0x100 * (r.reg[VF] as int) == e.reg[y] as int - e.reg[x])
  {
  }

  /**
    The doc comments of 8XY5 and 8XY7 promise VF = 1 when there is no
    borrow; the code stores the borrow itself, so on every input VF is the
    opposite of the documented flag.
   */
  lemma SubFlagIsBorrow(e: Emu, ins: Instr, rnd: Byte)
    requires e.Valid() && Fetches(e, ins) && (ins.SubReg? || ins.SubRev?)
    ensures Step(e, rnd).Ok?
    ensures var noBorrow := if ins.SubReg? then e.reg[ins.x] >= e.reg[ins.y] else e.reg[ins.y] >= e.reg[ins.x];
      Step(e, rnd).value.reg[VF] == if noBorrow then 0 else 1
  {
  }

  /**
    8XY6: VF gets the bit shifted out and VX is halved, so 2 * VX + VF is
    the old VX.  The flag is written first, so for X = F the shift then
    clears it.
   */
  lemma StepShiftRight(e: Emu, x: Nibble, y: Nibble, rnd: Byte)
    requires e.Valid() && Fetches(e, ShiftRight(x, y))
    ensures Step(e, rnd).Ok?
    ensures var r := Step(e, rnd).value;
      && RegsOnly(e, r, x, true)
      && (x != VF ==> r.reg[VF] <= 1 && 2 * (r.reg[x] as int) + r.reg[VF] == e.reg[x])
      && (x == VF ==> r.reg[VF] == 0)
  {
  }

  /**
    8XYE: VF gets bit 7 and VX is doubled modulo 256, so VX + 256 * VF is
    twice the old VX.  For X = F the flag itself is then doubled.
   */
  lemma StepShiftLeft(e: Emu, x: Nibble, y: Nibble, rnd: Byte)
    requires e.Valid() && Fetches(e, ShiftLeft(x, y))
    ensures Step(e, rnd).Ok?
    ensures var r := Step(e, rnd).value;
      && RegsOnly(e, r, x, true)
      && (x != VF ==> r.reg[VF] <= 1 && r.reg[x] as int + 0x100 * (r.reg[VF] as int) == 2 * e.reg[x] as int)
      && (x == VF ==> r.reg[VF] == 2 * (e.reg[VF] / 0x80))
  {
  }

  /** 6XNN, 8XY0 to 8XY3: the register loads and bitwise operations, bit by bit. */
  lemma StepLogic(e: Emu, ins: Instr, rnd: Byte)
    requires e.Valid() && Fetches(e, ins) && (ins.SetImm? || ins.Mov? || ins.Or? || ins.And? || ins.Xor?)
    ensures Step(e, rnd).Ok?
    ensures var r := Step(e, rnd).value;
      && RegsOnly(e, r, ins.x, false)
      && (ins.SetImm? ==> r.reg[ins.x] == ins.nn)
      && (ins.Mov? ==> r.reg[ins.x] == e.reg[ins.y])
      && forall i :: 0 <= i < 8 ==>
        var a, b, c := Bit(e.reg[ins.x], i), (if ins.SetImm? then false else Bit(e.reg[ins.y], i)), Bit(r.reg[ins.x], i);
        && (ins.Or? ==> c == (a || b))
        && (ins.And? ==> c == (a && b))
        && (ins.Xor? ==> c == (a != b))
  {
  }

  /** CXNN: VX is the random byte masked by NN, so it has no bit outside NN. */
  lemma StepRand(e: Emu, x: Nibble, nn: Byte, rnd: Byte)
    requires e.Valid() && Fetches(e, Rand(x, nn))
    ensures Step(e, rnd).Ok?
    ensures var r := Step(e, rnd).value;
      && RegsOnly(e, r, x, false)
      && (forall i :: 0 <= i < 8 ==> Bit(r.reg[x], i) == (Bit(nn, i) && Bit(rnd, i)))
      && Or8(r.reg[x], nn) == nn
  {
    assert Step(e, rnd) == Ok(e.(pc := e.pc + 2, reg := e.reg[x := And8(nn, rnd)]));
    AndWithinMask(nn, rnd);
  }

  /**
    DXYN toggles exactly the cells the sprite covers, sets VF exactly when
    one of them was on, and changes nothing else: I and memory stay.
   */
  lemma StepDraw(e: Emu, x: Nibble, y: Nibble, n: Nibble, rnd: Byte)
    requires e.Valid() && Fetches(e, Draw(x, y, n))
    ensures Step(e, rnd).Err? <==> n > 0 && e.index + n > MemSize
    ensures Step(e, rnd).Ok? ==>
      var r := Step(e, rnd).value;
      var rows := SpriteRows(e, n);
      && r == e.(pc := e.pc + 2, screen := r.screen, reg := e.reg[VF := r.reg[VF]])
      && (forall c :: 0 <= c < ScreenSize ==>
            r.screen[c] == (e.screen[c] != Sprite.Covered(e.reg[x], e.reg[y], rows, c)))
      && (r.reg[VF] == 1 <==> exists c :: 0 <= c < ScreenSize && Sprite.Covered(e.reg[x], e.reg[y], rows, c) && e.screen[c])
      && r.reg[VF] <= 1
  {
  }

  /** DXYN within memory: the screen after `Sprite.Draw` and VF set to its collision flag. */
  lemma ExecuteDraw(e: Emu, x: Nibble, y: Nibble, n: Nibble, rnd: Byte)
    requires e.Valid() && 2 <= e.pc <= MemSize && (n == 0 || e.index + n <= MemSize)
    ensures var drawn := Sprite.Draw(e.screen, e.reg[x], e.reg[y], SpriteRows(e, n));
      Execute(e, Draw(x, y, n), rnd) == Ok(SetReg(e.(screen := drawn.0), VF, Flag(drawn.1)))
  {
    DrawDispatch(e, x, y, n, rnd);
  }

  lemma DrawDispatch(e: Emu, x: Nibble, y: Nibble, n: Nibble, rnd: Byte)
    requires e.Valid() && 2 <= e.pc <= MemSize
    ensures Execute(e, Draw(x, y, n), rnd) == ExecMemory(e, Draw(x, y, n))
  {
  }

  /**
    Executing the same DXYN twice restores the screen, provided neither
    coordinate register is VF (the first draw rewrites VF).
   */
  lemma DrawTwiceRestoresScreen(e: Emu, x: Nibble, y: Nibble, n: Nibble, rnd: Byte)
    requires e.Valid() && 2 <= e.pc <= MemSize && (n == 0 || e.index + n <= MemSize)
    requires x != VF && y != VF
    ensures Execute(e, Draw(x, y, n), rnd).Ok?
    ensures var once := Execute(e, Draw(x, y, n), rnd).value;
      Execute(once, Draw(x, y, n), rnd).Ok? && Execute(once, Draw(x, y, n), rnd).value.screen == e.screen
  {
    var rows := SpriteRows(e, n);
    ExecuteDraw(e, x, y, n, rnd);
    var once := Execute(e, Draw(x, y, n), rnd).value;
    assert once.reg[x] == e.reg[x] && once.reg[y] == e.reg[y];
    assert SpriteRows(once, n) == rows;
    ExecuteDraw(once, x, y, n, rnd);
    Sprite.DrawTwiceRestores(e.screen, e.reg[x], e.reg[y], rows);
  }

  /** FX33 stores the three decimal digits of VX, most significant first, at I..I+2. */
  lemma StepBcd(e: Emu, x: Nibble, rnd: Byte)
    requires e.Valid() && Fetches(e, Bcd(x))
    ensures Step(e, rnd).Err? <==> e.index + 2 >= MemSize
    ensures Step(e, rnd).Ok? ==>
      var r := Step(e, rnd).value;
      var d0, d1, d2 := r.mem[e.index], r.mem[e.index + 1], r.mem[e.index + 2];
      && r == e.(pc := e.pc + 2, mem := r.mem)
      && d0 <= 9 && d1 <= 9 && d2 <= 9
      && 100 * d0 + 10 * d1 + d2 == e.reg[x]
      && forall a :: 0 <= a < MemSize && !(e.index <= a <= e.index + 2) ==> r.mem[a] == e.mem[a]
  {
  }

  /** FX55 writes V0..VX to I..I+X and nothing else. */
  lemma StepStoreRegs(e: Emu, x: Nibble, rnd: Byte)
    requires e.Valid() && Fetches(e, StoreRegs(x))
    ensures Step(e, rnd).Err? <==> e.index + x >= MemSize
    ensures Step(e, rnd).Ok? ==>
      var r := Step(e, rnd).value;
      && r == e.(pc := e.pc + 2, mem := r.mem)
      && (forall k :: 0 <= k <= x ==> r.mem[e.index + k] == e.reg[k])
      && (forall a :: 0 <= a < MemSize && !(e.index <= a <= e.index + x) ==> r.mem[a] == e.mem[a])
  {
  }

  /** FX65 reads V0..VX from I..I+X and changes nothing else. */
  lemma StepLoadRegs(e: Emu, x: Nibble, rnd: Byte)
    requires e.Valid() && Fetches(e, LoadRegs(x))
    ensures Step(e, rnd).Err? <==> e.index + x >= MemSize
    ensures Step(e, rnd).Ok? ==>
      var r := Step(e, rnd).value;
      && r == e.(pc := e.pc + 2, reg := r.reg)
      && (forall k :: 0 <= k <= x ==> r.reg[k] == e.mem[e.index + k])
      && (forall k :: x < k < RegCount ==> r.reg[k] == e.reg[k])
  {
  }

  /**
    Register dump and reload round trip: after FX55, any state that still
    has the dumped memory and the same I gets V0..VX back by FX65, however
    the registers were changed in between.
   */
  lemma StoreLoadRoundTrip(e: Emu, x: Nibble, later: Emu, rnd: Byte)
    requires e.Valid() && 2 <= e.pc <= MemSize && e.index + x < MemSize
    requires later.Valid() && 2 <= later.pc <= MemSize
    requires Execute(e, StoreRegs(x), rnd).Ok?
    requires later.mem == Execute(e, StoreRegs(x), rnd).value.mem && later.index == e.index
    ensures Execute(later, LoadRegs(x), rnd).Ok?
    ensures var loaded := Execute(later, LoadRegs(x), rnd).value;
      && loaded.reg[..x + 1] == e.reg[..x + 1]
      && loaded.reg[x + 1..] == later.reg[x + 1..]
      && loaded.index == e.index
  {
  }

  /**
    FX0A: with no key down the step changes nothing at all, so the same
    instruction is fetched again; otherwise VX gets the lowest pressed key.
   */
  lemma StepWaitKey(e: Emu, x: Nibble, rnd: Byte)
    requires e.Valid() && Fetches(e, WaitKey(x))
    ensures (forall k :: 0 <= k < KeyCount ==> !e.keys[k]) ==> Step(e, rnd) == Ok(e)
    ensures (exists k :: 0 <= k < KeyCount && e.keys[k]) ==>
      Step(e, rnd).Ok? &&
      var r := Step(e, rnd).value;
      && RegsOnly(e, r, x, false)
      && r.reg[x] < KeyCount && e.keys[r.reg[x]]
      && forall k :: 0 <= k < r.reg[x] ==> !e.keys[k]
  {
  }

  /** FX07, FX15, FX18: copies between VX and the timers. */
  lemma StepTimers(e: Emu, ins: Instr, rnd: Byte)
    requires e.Valid() && Fetches(e, ins) && (ins.GetDelay? || ins.SetDelay? || ins.SetSound?)
    ensures Step(e, rnd).Ok?
    ensures var r := Step(e, rnd).value;
      && (ins.GetDelay? ==> RegsOnly(e, r, ins.x, false) && r.reg[ins.x] == e.delayTimer)
      && (ins.SetDelay? ==> r == e.(pc := e.pc + 2, delayTimer := e.reg[ins.x]))
      && (ins.SetSound? ==> r == e.(pc := e.pc + 2, soundTimer := e.reg[ins.x]))
  {
  }

  /**
    ANNN, FX1E and FX29 only move the index register: FX1E adds with 16-bit
    wrap-around, and FX29 for a digit 0..F points I at that digit's glyph,
    provided the font is still in place.
   */
  lemma StepIndex(e: Emu, ins: Instr, rnd: Byte)
    requires e.Valid() && Fetches(e, ins) && (ins.SetIndex? || ins.AddIndex? || ins.FontChar?)
    ensures Step(e, rnd).Ok?
    ensures var r := Step(e, rnd).value;
      && r == e.(pc := e.pc + 2, index := r.index)
      && (ins.SetIndex? ==> r.index == ins.nnn)
      && (ins.AddIndex? ==> r.index == (e.index + e.reg[ins.x]) % 0x1_0000)
      && (ins.FontChar? ==> r.index == 5 * (e.reg[ins.x] as int))
      && (ins.FontChar? && e.reg[ins.x] < 0x10 && e.mem[..FontSize] == Font ==>
            r.mem[r.index .. r.index + 5] == Font[5 * e.reg[ins.x] .. 5 * e.reg[ins.x] + 5])
  {
  }

  /** 00E0 blanks the screen; 0NNN does nothing but advance. */
  lemma StepClearAndSys(e: Emu, ins: Instr, rnd: Byte)
    requires e.Valid() && Fetches(e, ins) && (ins.Cls? || ins.Sys?)
    ensures Step(e, rnd).Ok?
    ensures var r := Step(e, rnd).value;
      && r == e.(pc := e.pc + 2, screen := r.screen)
      && (ins.Cls? ==> forall c :: 0 <= c < ScreenSize ==> !r.screen[c])
      && (ins.Sys? ==> r.screen == e.screen)
  {
  }

  /** Any word the match does not accept stops the machine with that word. */
  lemma StepUnsupported(e: Emu, rnd: Byte)
    requires e.Valid() && Fetch(e).Ok? && Decode(Fetch(e).value).Unsupported?
    ensures Step(e, rnd) == Err(UnsupportedOpcode(Fetch(e).value))
  {
  }
}
