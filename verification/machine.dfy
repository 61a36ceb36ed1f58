/**
  The CHIP-8 machine state and the operations on it that do not execute
  instructions: construction, reset, program loading, key state and the
  timer tick.  Every fixed-size Rust array becomes a sequence whose length is
  pinned by `Emu.Valid`.
 */
module Machine {

  const ScreenW: nat := 64
  const ScreenH: nat := 32
  const ScreenSize: nat := ScreenW * ScreenH
  const MemSize: nat := 4096
  const RegCount: nat := 16
  const StackSize: nat := 16
  const KeyCount: nat := 16
  /** Where programs are loaded and where the program counter starts. */
  const ProgramStart: nat := 0x200
  const FontSize: nat := 80
  /** Index of the flag register VF. */
  const VF: nat := 0xF

  type Byte = b: int | 0 <= b < 0x100
  type Word = w: int | 0 <= w < 0x1_0000

  datatype Option<T> = None | Some(value: T)

  /** Conditions under which the Rust code panics, plus the unsupported-opcode failure. */
  datatype Fault =
    | PcOutOfRange(pc: Word)
    | StackUnderflow
    | StackOverflow
    | MemoryOutOfRange(addr: nat)
    | KeyOutOfRange(key: nat)
    | ProgramTooLarge(len: nat)
    | UnsupportedOpcode(op: Word)

  datatype Result<T> = Ok(value: T) | Err(fault: Fault)

  /** The built-in 4x5 hexadecimal font, five rows per glyph 0..F. */
  const Font: seq<Byte> := [
    0xF0, 0x90, 0x90, 0x90, 0xF0, // 0
    0x20, 0x60, 0x20, 0x20, 0x70, // 1
    0xF0, 0x10, 0xF0, 0x80, 0xF0, // 2
    0xF0, 0x10, 0xF0, 0x10, 0xF0, // 3
    0x90, 0x90, 0xF0, 0x10, 0x10, // 4
    0xF0, 0x80, 0xF0, 0x10, 0xF0, // 5
    0xF0, 0x80, 0xF0, 0x90, 0xF0, // 6
    0xF0, 0x10, 0x20, 0x40, 0x40, // 7
    0xF0, 0x90, 0xF0, 0x90, 0xF0, // 8
    0xF0, 0x90, 0xF0, 0x10, 0xF0, // 9
    0xF0, 0x90, 0xF0, 0x90, 0x90, // A
    0xE0, 0x90, 0xE0, 0x90, 0xE0, // B
    0xF0, 0x80, 0x80, 0x80, 0xF0, // C
    0xE0, 0x90, 0x90, 0x90, 0xE0, // D
    0xF0, 0x80, 0xF0, 0x80, 0xF0, // E
    0xF0, 0x80, 0xF0, 0x80, 0x80  // F
  ]

  datatype Emu = Emu(
    pc: Word,
    mem: seq<Byte>,
    screen: seq<bool>,
    reg: seq<Byte>,
    index: Word,
    sp: Word,
    stack: seq<Word>,
    keys: seq<bool>,
    delayTimer: Byte,
    soundTimer: Byte)
  {
    /** Every array has the length the Rust struct gives it. */
    predicate Valid() {
      && |mem| == MemSize
      && |screen| == ScreenSize
      && |reg| == RegCount
      && |stack| == StackSize
      && |keys| == KeyCount
    }

    /** What every reachable state also satisfies: the stack pointer stays within the stack. */
    predicate Inv() {
      Valid() && sp <= StackSize
    }
  }

  /** Memory as freshly constructed: the font at the bottom, zero elsewhere. */
  function InitialMemory(): (m: seq<Byte>)
    ensures |m| == MemSize
    ensures m[..FontSize] == Font
    ensures forall a :: FontSize <= a < MemSize ==> m[a] == 0
  {
    Font + seq(MemSize - FontSize, _ => 0)
  }

  /** `Emu::default`. */
  function Default(): (e: Emu)
    ensures e.Inv()
    ensures e.pc == ProgramStart && e.index == 0 && e.sp == 0
    ensures e.delayTimer == 0 && e.soundTimer == 0
    ensures e.mem[..FontSize] == Font
    ensures forall a :: FontSize <= a < MemSize ==> e.mem[a] == 0
    ensures forall k :: 0 <= k < RegCount ==> e.reg[k] == 0
    ensures forall k :: 0 <= k < StackSize ==> e.stack[k] == 0
    ensures forall k :: 0 <= k < KeyCount ==> !e.keys[k]
    ensures forall c :: 0 <= c < ScreenSize ==> !e.screen[c]
  {
    Emu(
      pc := ProgramStart,
      mem := InitialMemory(),
      screen := seq(ScreenSize, _ => false),
      reg := seq(RegCount, _ => 0),
      index := 0,
      sp := 0,
      stack := seq(StackSize, _ => 0),
      keys := seq(KeyCount, _ => false),
      delayTimer := 0,
      soundTimer := 0)
  }

  /** `Emu::reset`: overwrites every field of the given state in place. */
  function Reset(e: Emu): (r: Emu)
    ensures r.Inv()
    ensures r == Default()
  {
    e.(pc := ProgramStart,
       mem := InitialMemory(),
       screen := seq(ScreenSize, _ => false),
       reg := seq(RegCount, _ => 0),
       index := 0,
       sp := 0,
       stack := seq(StackSize, _ => 0),
       keys := seq(KeyCount, _ => false),
       delayTimer := 0,
       soundTimer := 0)
  }

  /** Resetting forgets the whole previous state: it always yields the freshly constructed machine. */
  lemma ResetIsDefault(e: Emu)
    ensures Reset(e) == Default()
    ensures Reset(Reset(e)) == Reset(e)
  {
  }

  /**
    `Emu::load`: copies `data` to memory from the program start.  A program
    longer than the space above the program start makes the slice index
    panic before anything is copied; here it is an error.
   */
  function Load(e: Emu, data: seq<Byte>): (r: Result<Emu>)
    requires e.Valid()
    ensures r.Ok? <==> |data| <= MemSize - ProgramStart
    ensures r.Err? ==> r.fault == ProgramTooLarge(|data|)
    ensures r.Ok? ==> r.value.Valid() && r.value.(mem := e.mem) == e
    ensures r.Ok? ==> r.value.mem[ProgramStart..ProgramStart + |data|] == data
    ensures r.Ok? ==> forall a :: 0 <= a < MemSize && !(ProgramStart <= a < ProgramStart + |data|) ==>
                        r.value.mem[a] == e.mem[a]
  {
    if |data| > MemSize - ProgramStart then
      Err(ProgramTooLarge(|data|))
    else
      Ok(e.(mem := e.mem[..ProgramStart] + data + e.mem[ProgramStart + |data|..]))
  }

  /** `Emu::key_press`: an index outside the keypad makes the array store panic. */
  function KeyPress(e: Emu, idx: nat, pressed: bool): (r: Result<Emu>)
    requires e.Valid()
    ensures r.Ok? <==> idx < KeyCount
    ensures r.Err? ==> r.fault == KeyOutOfRange(idx)
    ensures r.Ok? ==> r.value.Valid() && r.value.(keys := e.keys) == e
    ensures r.Ok? ==> r.value.keys[idx] == pressed
    ensures r.Ok? ==> forall k :: 0 <= k < KeyCount && k != idx ==> r.value.keys[k] == e.keys[k]
  {
    if idx < KeyCount then Ok(e.(keys := e.keys[idx := pressed])) else Err(KeyOutOfRange(idx))
  }

  /**
    `Emu::tick_timers`: both timers count down towards zero.  The console
    message printed when the sound timer leaves 1 is returned as `toneEnded`.
   */
  function TickTimers(e: Emu): (r: (Emu, bool))
    ensures r.0.(delayTimer := e.delayTimer, soundTimer := e.soundTimer) == e
    ensures r.0.delayTimer == if e.delayTimer > 0 then e.delayTimer - 1 else 0
    ensures r.0.soundTimer == if e.soundTimer > 0 then e.soundTimer - 1 else 0
    ensures r.1 <==> e.soundTimer == 1
  {
    (e.(delayTimer := if e.delayTimer > 0 then e.delayTimer - 1 else 0,
        soundTimer := if e.soundTimer > 0 then e.soundTimer - 1 else 0),
     e.soundTimer == 1)
  }

  /** `n` consecutive timer ticks, as the host loop issues them once per frame. */
  function Ticks(e: Emu, n: nat): (r: Emu)
    decreases n
  {
    if n == 0 then e else Ticks(TickTimers(e).0, n - 1)
  }

  /** After `n` ticks each timer has dropped by `n`, saturating at zero, and nothing else moved. */
  lemma {:induction false} TicksSaturate(e: Emu, n: nat)
    ensures Ticks(e, n).(delayTimer := e.delayTimer, soundTimer := e.soundTimer) == e
    ensures Ticks(e, n).delayTimer == if e.delayTimer >= n then e.delayTimer - n else 0
    ensures Ticks(e, n).soundTimer == if e.soundTimer >= n then e.soundTimer - n else 0
    decreases n
  {
    if n > 0 {
      TicksSaturate(TickTimers(e).0, n - 1);
    }
  }

  /** Counting down from `s`, the end-of-tone signal is raised on tick number `s` and on no other. */
  lemma ToneEndsOnce(e: Emu, n: nat)
    requires e.soundTimer > 0
    ensures TickTimers(Ticks(e, n)).1 <==> n + 1 == e.soundTimer
  {
    TicksSaturate(e, n);
  }
}
