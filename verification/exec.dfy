/**
  One step of `Emu::exec`: fetch the big-endian instruction word at the
  program counter, advance the program counter by two, then execute the
  decoded instruction.  Each Rust panic becomes an `Err` carrying a `Fault`;
  the random byte of CXNN is an input.
 */
module Interp {
  import opened Machine
  import opened Opcode
  import Sprite
  import opened Bits

  /** Fetches the instruction word: memory[pc] is its high byte and memory[pc + 1] its low byte. */
  function Fetch(e: Emu): (r: Result<Word>)
    requires e.Valid()
    ensures r.Ok? <==> e.pc + 1 < MemSize
    ensures r.Err? ==> r.fault == PcOutOfRange(e.pc)
    ensures r.Ok? ==> r.value / 0x100 == e.mem[e.pc] && r.value % 0x100 == e.mem[e.pc + 1]
  {
    if e.pc + 1 < MemSize then Ok(e.mem[e.pc] as int * 0x100 + e.mem[e.pc + 1]) else Err(PcOutOfRange(e.pc))
  }

  /** The first address of `[base, ..)` outside memory. */
  function FirstBadAddr(base: nat): nat {
    if base >= MemSize then base else MemSize
  }

  /**
    When executing `ins` makes the Rust code panic (or reach `unimplemented!`):
    popping an empty stack, indexing the stack, memory or keys out of range,
    or an unsupported word.  Memory accesses `I + k` count as out of range as
    soon as the sum reaches the memory size, which includes the u16 overflow
    that panics in a debug build.
   */
  predicate Panics(e: Emu, ins: Instr)
    requires e.Valid()
  {
    match ins
    case Ret => e.sp == 0 || e.sp > StackSize
    case Call(_) => e.sp >= StackSize
    case SkipKey(x) => e.reg[x] >= KeyCount
    case SkipNoKey(x) => e.reg[x] >= KeyCount
    case Draw(_, _, n) => n > 0 && e.index + n > MemSize
    case Bcd(_) => e.index + 2 >= MemSize
    case StoreRegs(x) => e.index + x >= MemSize
    case LoadRegs(x) => e.index + x >= MemSize
    case Unsupported(_) => true
    case _ => false
  }

  function SetReg(e: Emu, x: nat, v: Byte): (r: Emu)
    requires e.Valid() && x < RegCount
    ensures r.Valid()
  {
    e.(reg := e.reg[x := v])
  }

  /** Skips the next instruction when `cond` holds. */
  function SkipIf(e: Emu, cond: bool): (r: Emu)
    requires e.pc <= MemSize
  {
    if cond then e.(pc := e.pc + 2) else e
  }

  function Flag(b: bool): Byte { if b then 1 else 0 }

  /** The lowest index at or after `k` of a pressed key, as the FX0A scan finds it. */
  function FirstPressed(keys: seq<bool>, k: nat): (r: Option<nat>)
    requires k <= |keys|
    ensures r.Some? ==> k <= r.value < |keys| && keys[r.value]
    ensures r.Some? ==> forall j :: k <= j < r.value ==> !keys[j]
    ensures r.None? ==> forall j :: k <= j < |keys| ==> !keys[j]
    decreases |keys| - k
  {
    if k == |keys| then None
    else if keys[k] then Some(k)
    else FirstPressed(keys, k + 1)
  }

  /**
    Executes a decoded instruction on a state whose program counter has
    already been advanced past it, so `2 <= pc <= 4096`.  The result fails
    exactly when the Rust code would panic, and it keeps the array lengths
    and the stack-pointer bound.
   */
  function Execute(e: Emu, ins: Instr, rnd: Byte): (r: Result<Emu>)
    requires e.Valid() && 2 <= e.pc <= MemSize
    ensures r.Err? <==> Panics(e, ins)
    ensures r.Ok? ==> r.value.Valid()
    ensures e.sp <= StackSize && r.Ok? ==> r.value.sp <= StackSize
    ensures r.Ok? ==> r.value.keys == e.keys
    ensures r.Ok? && !ins.SetDelay? ==> r.value.delayTimer == e.delayTimer
    ensures r.Ok? && !ins.SetSound? ==> r.value.soundTimer == e.soundTimer
    ensures r.Ok? && !ins.Call? && !ins.Ret? ==> r.value.sp == e.sp && r.value.stack == e.stack
  {
    if ins.Cls? || ins.Ret? || ins.Sys? || ins.Jump? || ins.Call? || ins.JumpV0? then
      ExecControl(e, ins)
    else if ins.SkipEqImm? || ins.SkipNeImm? || ins.SkipEqReg? || ins.SkipNeReg? || ins.SkipKey? || ins.SkipNoKey? then
      ExecSkip(e, ins)
    else if ins.SetImm? || ins.AddImm? || ins.Mov? || ins.Or? || ins.And? || ins.Xor? || ins.Rand? then
      ExecAlu(e, ins, rnd)
    else if ins.AddReg? || ins.SubReg? || ins.ShiftRight? || ins.SubRev? || ins.ShiftLeft? then
      ExecArith(e, ins)
    else if ins.SetIndex? || ins.GetDelay? || ins.WaitKey? || ins.SetDelay? || ins.SetSound? || ins.AddIndex? || ins.FontChar? then
      ExecTimersAndIndex(e, ins)
    else if ins.Draw? || ins.Bcd? || ins.StoreRegs? || ins.LoadRegs? then
      ExecMemory(e, ins)
    else
      Err(UnsupportedOpcode(ins.op))
  }

  /** Control flow: clear, return, machine-code call, jump, call and jump with offset. */
  function ExecControl(e: Emu, ins: Instr): (r: Result<Emu>)
    requires e.Valid() && 2 <= e.pc <= MemSize
    requires ins.Cls? || ins.Ret? || ins.Sys? || ins.Jump? || ins.Call? || ins.JumpV0?
    ensures r.Err? <==> Panics(e, ins)
    ensures r.Ok? ==> r.value.Valid()
    ensures e.sp <= StackSize && r.Ok? ==> r.value.sp <= StackSize
    ensures r.Ok? ==> r.value == e.(pc := r.value.pc, sp := r.value.sp, stack := r.value.stack, screen := r.value.screen)
    ensures r.Ok? && !ins.Cls? ==> r.value.screen == e.screen
  {
    match ins
    case Cls => Ok(e.(screen := seq(ScreenSize, _ => false)))
    case Ret =>
      if e.sp == 0 then Err(StackUnderflow)
      else if e.sp - 1 >= StackSize then Err(StackOverflow)
      else Ok(e.(sp := e.sp - 1, pc := e.stack[e.sp - 1]))
    case Sys(_) => Ok(e)
    case Jump(nnn) => Ok(e.(pc := nnn))
    case Call(nnn) =>
      if e.sp >= StackSize then Err(StackOverflow)
      else Ok(e.(stack := e.stack[e.sp := e.pc], sp := e.sp + 1, pc := nnn))
    case JumpV0(nnn) => Ok(e.(pc := nnn as int + e.reg[0]))
  }

  /** The conditional skips. */
  function ExecSkip(e: Emu, ins: Instr): (r: Result<Emu>)
    requires e.Valid() && 2 <= e.pc <= MemSize
    requires ins.SkipEqImm? || ins.SkipNeImm? || ins.SkipEqReg? || ins.SkipNeReg? || ins.SkipKey? || ins.SkipNoKey?
    ensures r.Err? <==> Panics(e, ins)
    ensures r.Ok? ==> r.value.Valid()
    ensures e.sp <= StackSize && r.Ok? ==> r.value.sp <= StackSize
    ensures r.Ok? ==> r.value == e.(pc := r.value.pc) && (r.value.pc == e.pc || r.value.pc == e.pc + 2)
  {
    match ins
    case SkipEqImm(x, nn) => Ok(SkipIf(e, e.reg[x] == nn))
    case SkipNeImm(x, nn) => Ok(SkipIf(e, e.reg[x] != nn))
    case SkipEqReg(x, y) => Ok(SkipIf(e, e.reg[x] == e.reg[y]))
    case SkipNeReg(x, y) => Ok(SkipIf(e, e.reg[x] != e.reg[y]))
    case SkipKey(x) =>
      if e.reg[x] >= KeyCount then Err(KeyOutOfRange(e.reg[x]))
      else Ok(SkipIf(e, e.keys[e.reg[x]]))
    case SkipNoKey(x) =>
      if e.reg[x] >= KeyCount then Err(KeyOutOfRange(e.reg[x]))
      else Ok(SkipIf(e, !e.keys[e.reg[x]]))
  }

  /** Register loads and bitwise logic, including the random byte; none of them touches VF on its own. */
  function ExecAlu(e: Emu, ins: Instr, rnd: Byte): (r: Result<Emu>)
    requires e.Valid() && 2 <= e.pc <= MemSize
    requires ins.SetImm? || ins.AddImm? || ins.Mov? || ins.Or? || ins.And? || ins.Xor? || ins.Rand?
    ensures r.Err? <==> Panics(e, ins)
    ensures r.Ok? ==> r.value.Valid()
    ensures e.sp <= StackSize && r.Ok? ==> r.value.sp <= StackSize
  {
    match ins
    case SetImm(x, nn) => Ok(SetReg(e, x, nn))
    case AddImm(x, nn) => Ok(SetReg(e, x, (e.reg[x] as int + nn) % 0x100))
    case Mov(x, y) => Ok(SetReg(e, x, e.reg[y]))
    case Or(x, y) => Ok(SetReg(e, x, Or8(e.reg[x], e.reg[y])))
    case And(x, y) => Ok(SetReg(e, x, And8(e.reg[x], e.reg[y])))
    case Xor(x, y) => Ok(SetReg(e, x, Xor8(e.reg[x], e.reg[y])))
    case Rand(x, nn) => Ok(SetReg(e, x, And8(nn, rnd)))
  }

  /** Register arithmetic that reports a carry, borrow or shifted-out bit in VF. */
  function ExecArith(e: Emu, ins: Instr): (r: Result<Emu>)
    requires e.Valid() && 2 <= e.pc <= MemSize
    requires ins.AddReg? || ins.SubReg? || ins.ShiftRight? || ins.SubRev? || ins.ShiftLeft?
    ensures r.Err? <==> Panics(e, ins)
    ensures r.Ok? ==> r.value.Valid()
    ensures e.sp <= StackSize && r.Ok? ==> r.value.sp <= StackSize
    ensures r.Ok? && r.value == e.(reg := e.reg[ins.x := r.value.reg[ins.x]][VF := r.value.reg[VF]])
  {
    match ins
    case AddReg(x, y) =>
      // overflowing_add: the wrapped sum, then the carry into VF
      var sum := e.reg[x] as int + e.reg[y];
      Ok(SetReg(SetReg(e, x, sum % 0x100), VF, Flag(sum >= 0x100)))
    case SubReg(x, y) =>
      // overflowing_sub: the wrapped difference, then the borrow into VF
      Ok(SetReg(SetReg(e, x, (e.reg[x] as int - e.reg[y]) % 0x100), VF, Flag(e.reg[x] < e.reg[y])))
    case ShiftRight(x, _) =>
      // VF is written first, then the register is shifted
      var e1 := SetReg(e, VF, e.reg[x] % 2);
      Ok(SetReg(e1, x, e1.reg[x] / 2))
    case SubRev(x, y) =>
      Ok(SetReg(SetReg(e, x, (e.reg[y] as int - e.reg[x]) % 0x100), VF, Flag(e.reg[y] < e.reg[x])))
    case ShiftLeft(x, _) =>
      var e1 := SetReg(e, VF, e.reg[x] / 0x80);
      Ok(SetReg(e1, x, e1.reg[x] as int * 2 % 0x100))
  }

  /** Timers, the key wait, and the index register. */
  function ExecTimersAndIndex(e: Emu, ins: Instr): (r: Result<Emu>)
    requires e.Valid() && 2 <= e.pc <= MemSize
    requires ins.SetIndex? || ins.GetDelay? || ins.WaitKey? || ins.SetDelay? || ins.SetSound? || ins.AddIndex? || ins.FontChar?
    ensures r.Err? <==> Panics(e, ins)
    ensures r.Ok? ==> r.value.Valid()
    ensures e.sp <= StackSize && r.Ok? ==> r.value.sp <= StackSize
    ensures r.Ok?
    ensures r.value == e.(pc := r.value.pc, reg := r.value.reg, index := r.value.index,
                          delayTimer := r.value.delayTimer, soundTimer := r.value.soundTimer)
    ensures r.value.pc == e.pc || (ins.WaitKey? && r.value.pc == e.pc - 2)
    ensures ins.WaitKey? ==> (r.value.pc == e.pc - 2 <==> FirstPressed(e.keys, 0).None?)
    ensures forall k :: 0 <= k < RegCount && (ins.SetIndex? || k != ins.x) ==> r.value.reg[k] == e.reg[k]
  {
    match ins
    case SetIndex(nnn) => Ok(e.(index := nnn))
    case GetDelay(x) => Ok(SetReg(e, x, e.delayTimer))
    case WaitKey(x) =>
      (match FirstPressed(e.keys, 0)
       case Some(k) => Ok(SetReg(e, x, k))
       case None => Ok(e.(pc := e.pc - 2)))
    case SetDelay(x) => Ok(e.(delayTimer := e.reg[x]))
    case SetSound(x) => Ok(e.(soundTimer := e.reg[x]))
    case AddIndex(x) => Ok(e.(index := (e.index as int + e.reg[x]) % 0x1_0000))
    case FontChar(x) => Ok(e.(index := e.reg[x] as int * 5))
  }

  /** The sprite rows DXYN reads: N bytes from the index register on. */
  function SpriteRows(e: Emu, n: Nibble): (rows: seq<Byte>)
    requires e.Valid() && (n == 0 || e.index + n <= MemSize)
    ensures |rows| == n
    ensures forall i :: 0 <= i < n ==> rows[i] == e.mem[e.index + i]
  {
    if n == 0 then [] else e.mem[e.index .. e.index + n]
  }

  /** Instructions that read or write memory at the index register. */
  function ExecMemory(e: Emu, ins: Instr): (r: Result<Emu>)
    requires e.Valid() && 2 <= e.pc <= MemSize
    requires ins.Draw? || ins.Bcd? || ins.StoreRegs? || ins.LoadRegs?
    ensures r.Err? <==> Panics(e, ins)
    ensures r.Ok? ==> r.value.Valid()
    ensures e.sp <= StackSize && r.Ok? ==> r.value.sp <= StackSize
    ensures r.Ok? ==> r.value == e.(screen := r.value.screen, reg := r.value.reg, mem := r.value.mem)
  {
    match ins
    case Draw(x, y, n) =>
      if n > 0 && e.index + n > MemSize then Err(MemoryOutOfRange(FirstBadAddr(e.index)))
      else
        var drawn := Sprite.Draw(e.screen, e.reg[x], e.reg[y], SpriteRows(e, n));
        Ok(SetReg(e.(screen := drawn.0), VF, Flag(drawn.1)))
    case Bcd(x) =>
      if e.index + 2 >= MemSize then Err(MemoryOutOfRange(FirstBadAddr(e.index)))
      else
        var v := e.reg[x];
        Ok(e.(mem := e.mem[e.index := v / 100][e.index + 1 := v % 100 / 10][e.index + 2 := v % 10]))
    case StoreRegs(x) =>
      if e.index + x >= MemSize then Err(MemoryOutOfRange(FirstBadAddr(e.index)))
      else Ok(e.(mem := e.mem[..e.index] + e.reg[..x + 1] + e.mem[e.index + x + 1..]))
    case LoadRegs(x) =>
      if e.index + x >= MemSize then Err(MemoryOutOfRange(FirstBadAddr(e.index)))
      else Ok(e.(reg := e.mem[e.index .. e.index + x + 1] + e.reg[x + 1..]))
  }

  /**
    `Emu::exec`.  A program counter too close to the end of memory for a
    two-byte fetch faults; otherwise the decoded instruction runs with the
    program counter already advanced by two.
   */
  function Step(e: Emu, rnd: Byte): (r: Result<Emu>)
    requires e.Valid()
    ensures e.pc + 1 >= MemSize ==> r == Err(PcOutOfRange(e.pc))
    ensures r.Ok? ==> r.value.Valid()
    ensures e.Inv() && r.Ok? ==> r.value.Inv()
  {
    match Fetch(e)
    case Err(f) => Err(f)
    case Ok(op) => Execute(e.(pc := e.pc + 2), Decode(op), rnd)
  }
}
