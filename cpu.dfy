/** The CHIP-8 CPU as far as it is implemented: one fetch/decode/execute cycle over the
    program counter, the index register `address`, a 48-slot call stack and its pointer.
    Only the families 0 (no effect), 1 (jump), 2 (call) and A (set index) have code;
    every other family throws. */
module Cpu {
  import opened Bits

  const OperandsMask := 0x0FFF
  const RegisterCount := 0x10
  const StackSize := 48
  const ResetPc := 0x200

  /** How a cycle ends: normally, or with the exception the source throws. */
  datatype Status = Completed | NotImplemented | IndexOutOfRange

  /** Everything a cycle reads or writes besides the RAM, as a value. */
  datatype CpuState = CpuState(pc: u16, address: u16, sp: u8, stack: seq<u16>, registers: seq<u8>)

  /** `ushort` increment, wrapping at 2^16. */
  function Inc16(x: u16): u16
  {
    (x + 1) % 0x1_0000
  }

  /** `byte` increment, wrapping at 2^8. */
  function Inc8(x: u8): u8
  {
    (x + 1) % 0x100
  }

  /** Both opcode bytes read at `pc` lie inside the RAM. The source reads them through an
      unchecked pointer, so a fetch outside the RAM has no defined result. */
  predicate CanFetch(ram: seq<u8>, pc: u16)
  {
    pc < |ram| && Inc16(pc) < |ram|
  }

  /** The opcode at `pc`: the byte at `pc` shifted up by eight, or-ed with the next byte.
      Since the low byte is below 256, the or is an addition. */
  function Fetch(ram: seq<u8>, pc: u16): (opcode: u16)
    requires CanFetch(ram, pc)
    ensures opcode / 0x100 == ram[pc] && opcode % 0x100 == ram[Inc16(pc)]
  {
    ram[pc] as int * 0x100 + ram[Inc16(pc)]
  }

  /** The top four bits of the opcode: the instruction family. */
  function Family(opcode: u16): (family: nat)
    ensures family < 0x10
  {
    opcode / 0x1000
  }

  /** `opcode & OperandsMask`: the 12 operand bits. */
  function Operands(opcode: u16): (operands: u16)
    ensures operands < 0x1000
  {
    opcode % (OperandsMask + 1)
  }

  function InitialState(): CpuState
  {
    CpuState(ResetPc, 0, 0, seq(StackSize, _ => 0), seq(RegisterCount, _ => 0))
  }

  /** Op2: push the return `pc`, then the index register, then jump to the operands. In
      each push the slot is chosen and `sp` incremented before the array access is
      bounds-checked, so a push that faults leaves `sp` already incremented. */
  function Call(s: CpuState, operands: u16): (r: (Status, CpuState))
    requires |s.stack| == StackSize
    ensures r.0 == Completed || r.0 == IndexOutOfRange
    ensures r.0 == Completed <==> s.sp + 2 <= StackSize
    ensures r.1.pc == if r.0 == Completed then operands else s.pc
    ensures |r.1.stack| == StackSize && r.1.address == s.address && r.1.registers == s.registers
  {
    if s.sp >= StackSize then (IndexOutOfRange, s.(sp := Inc8(s.sp)))
    else
      var pushed := s.(stack := s.stack[s.sp := s.pc], sp := Inc8(s.sp));
      if pushed.sp >= StackSize then (IndexOutOfRange, pushed.(sp := Inc8(pushed.sp)))
      else (Completed, pushed.(stack := pushed.stack[pushed.sp := s.address],
                               sp := Inc8(pushed.sp), pc := operands))
  }

  /** One cycle: fetch (advancing `pc` by two), decode, dispatch on the family. */
  function Step(ram: seq<u8>, s: CpuState): (r: (Status, CpuState))
    requires CanFetch(ram, s.pc) && |s.stack| == StackSize
    ensures r.1.registers == s.registers && |r.1.stack| == StackSize
    ensures r.0 != Completed ==> r.1.pc == Advanced(s.pc)
    ensures Family(Fetch(ram, s.pc)) != 0x2 ==> r.1.stack == s.stack && r.1.sp == s.sp
  {
    var opcode := Fetch(ram, s.pc);
    var fetched := s.(pc := Advanced(s.pc));
    var operands := Operands(opcode);
    match Family(opcode)
    case 0x0 => (Completed, fetched)
    case 0x1 => (Completed, fetched.(pc := operands))
    case 0x2 => Call(fetched, operands)
    case 0xA => (Completed, fetched.(address := operands))
    case _ => (NotImplemented, fetched)
  }

  // ---------------------------------------------------------------- decoding

  /** The opcode is big-endian: its high byte is `ram[pc]`, its low byte `ram[pc + 1]`. */
  lemma FetchBigEndian(ram: seq<u8>, pc: u16)
    requires CanFetch(ram, pc)
    ensures GetByte(Fetch(ram, pc), 1) == ram[pc]
    ensures GetByte(Fetch(ram, pc), 0) == ram[Inc16(pc)]
  {
    ByteShifts(Fetch(ram, pc));
  }

  /** The family selector is the top nibble, the operands the other twelve bits, and the
      two together are the whole opcode. */
  lemma DecodeSplits(opcode: u16)
    ensures Family(opcode) <= 0xF && Operands(opcode) <= 0xFFF
    ensures opcode == Family(opcode) * 0x1000 + Operands(opcode)
    ensures Family(opcode) == GetNibble(opcode, 3)
  {
    TopNibble(opcode);
  }

  // ---------------------------------------------------------------- one cycle

  /** `pc` after the fetch: the old `pc` plus two, modulo 2^16. */
  function Advanced(pc: u16): u16
  {
    (pc + 2) % 0x1_0000
  }

  /** 1NNN: `pc := NNN`; nothing else changes. */
  lemma JumpSemantics(ram: seq<u8>, s: CpuState)
    requires CanFetch(ram, s.pc) && |s.stack| == StackSize
    requires Family(Fetch(ram, s.pc)) == 0x1
    ensures Step(ram, s).0 == Completed
    ensures Step(ram, s).1 == s.(pc := Fetch(ram, s.pc) - 0x1000)
  {
  }

  /** ANNN: `address := NNN`, `pc` ends two past where it was; nothing else changes. */
  lemma SetIndexSemantics(ram: seq<u8>, s: CpuState)
    requires CanFetch(ram, s.pc) && |s.stack| == StackSize
    requires Family(Fetch(ram, s.pc)) == 0xA
    ensures Step(ram, s) == (Completed, s.(pc := Advanced(s.pc), address := Fetch(ram, s.pc) - 0xA000))
  {
  }

  /** 2NNN pushes two entries, the return `pc` and then `address`, and jumps to NNN. It
      completes exactly when both entries fit in the 48 slots; otherwise it faults with
      `pc` advanced, `sp` moved past each slot it tried, and the stack holding at most the
      first entry. */
  lemma CallSemantics(ram: seq<u8>, s: CpuState)
    requires CanFetch(ram, s.pc) && |s.stack| == StackSize
    requires Family(Fetch(ram, s.pc)) == 0x2
    ensures var (status, t) := Step(ram, s);
      && (status == Completed <==> s.sp + 2 <= StackSize)
      && (status != Completed ==> status == IndexOutOfRange && t.pc == Advanced(s.pc))
      && (status != Completed && s.sp >= StackSize ==> t.sp == Inc8(s.sp) && t.stack == s.stack)
      && (status != Completed && s.sp < StackSize ==>
            t.sp == s.sp + 2 && t.stack == s.stack[s.sp := Advanced(s.pc)])
      && (status == Completed ==>
            && t.pc == Fetch(ram, s.pc) - 0x2000
            && t.sp == s.sp + 2
            && t.stack == s.stack[s.sp := Advanced(s.pc)][s.sp + 1 := s.address])
      && t.address == s.address && t.registers == s.registers
  {
  }

  /** A family-0 opcode, 00E0 and 00EE included, changes nothing but the fetch's `pc += 2`. */
  lemma Family0NoEffect(ram: seq<u8>, s: CpuState)
    requires CanFetch(ram, s.pc) && |s.stack| == StackSize
    requires Family(Fetch(ram, s.pc)) == 0x0
    ensures Step(ram, s) == (Completed, s.(pc := Advanced(s.pc)))
  {
  }

  /** Every family other than 0, 1, 2 and A throws, after `pc` has already advanced. */
  lemma UnimplementedFamilies(ram: seq<u8>, s: CpuState)
    requires CanFetch(ram, s.pc) && |s.stack| == StackSize
    requires Family(Fetch(ram, s.pc)) !in {0x0, 0x1, 0x2, 0xA}
    ensures Step(ram, s) == (NotImplemented, s.(pc := Advanced(s.pc)))
  {
  }

  // ---------------------------------------------------------------- the stack pointer

  /** `sp` is even and within the stack. */
  ghost predicate SpInvariant(s: CpuState)
  {
    s.sp % 2 == 0 && s.sp <= StackSize && |s.stack| == StackSize
  }

  /** A completed cycle keeps `sp` even and within the stack; it raises `sp` by two
      exactly when it was a call, and leaves it alone otherwise. */
  lemma StepKeepsSpInvariant(ram: seq<u8>, s: CpuState)
    requires CanFetch(ram, s.pc) && SpInvariant(s)
    requires Step(ram, s).0 == Completed
    ensures SpInvariant(Step(ram, s).1)
    ensures Step(ram, s).1.sp == s.sp + (if Family(Fetch(ram, s.pc)) == 0x2 then 2 else 0)
  {
  }

  /** A sequence of states each reached from the previous by a completed cycle. */
  ghost predicate IsRun(ram: seq<u8>, trace: seq<CpuState>)
    decreases |trace|
  {
    |trace| >= 1 &&
    (|trace| >= 2 ==>
       && CanFetch(ram, trace[0].pc) && |trace[0].stack| == StackSize
       && Step(ram, trace[0]) == (Completed, trace[1])
       && IsRun(ram, trace[1..]))
  }

  /** The number of calls executed along a run. */
  ghost function CallCount(ram: seq<u8>, trace: seq<CpuState>): nat
    requires IsRun(ram, trace)
    decreases |trace|
  {
    if |trace| < 2 then 0
    else (if Family(Fetch(ram, trace[0].pc)) == 0x2 then 1 else 0) + CallCount(ram, trace[1..])
  }

  /** Along a run, each call adds two to `sp` and nothing else moves it, so `sp` stays even
      and at most (48 - sp) / 2 calls complete. */
  lemma {:induction false} CallsFillStack(ram: seq<u8>, trace: seq<CpuState>)
    requires IsRun(ram, trace) && SpInvariant(trace[0])
    ensures SpInvariant(trace[|trace| - 1])
    ensures trace[|trace| - 1].sp == trace[0].sp + 2 * CallCount(ram, trace)
    ensures trace[0].sp + 2 * CallCount(ram, trace) <= StackSize
    decreases |trace|
  {
    if |trace| >= 2 {
      StepKeepsSpInvariant(ram, trace[0]);
      CallsFillStack(ram, trace[1..]);
    }
  }

  /** From reset, at most 24 calls complete, and once 24 have, the next call faults. */
  lemma AtMostTwentyFourCalls(ram: seq<u8>, trace: seq<CpuState>)
    requires IsRun(ram, trace) && trace[0] == InitialState()
    ensures CallCount(ram, trace) <= 24
    ensures SpInvariant(trace[|trace| - 1])
    ensures var last := trace[|trace| - 1];
      CallCount(ram, trace) == 24 && CanFetch(ram, last.pc) && Family(Fetch(ram, last.pc)) == 0x2
      ==> Step(ram, last).0 == IndexOutOfRange
  {
    CallsFillStack(ram, trace);
    var last := trace[|trace| - 1];
    if CallCount(ram, trace) == 24 && CanFetch(ram, last.pc) && Family(Fetch(ram, last.pc)) == 0x2 {
      CallSemantics(ram, last);
    }
  }

  // ---------------------------------------------------------------- the object

  class Chip8Cpu {
    /** The RAM, shared with the platform. */
    const ram: array<u8>
    const registers: array<u8>
    const stack: array<u16>
    var pc: u16
    var address: u16
    var sp: u8

    ghost predicate Valid()
      reads this
    {
      && registers.Length == RegisterCount
      && stack.Length == StackSize
      && registers != ram
      && stack as object != ram as object
      && stack as object != registers as object
    }

    ghost function State(): CpuState
      reads this, stack, registers
    {
      CpuState(pc, address, sp, stack[..], registers[..])
    }

    constructor (ram: array<u8>)
      ensures Valid() && this.ram == ram && fresh(stack) && fresh(registers)
      ensures State() == InitialState()
    {
      this.ram := ram;
      registers := new u8[RegisterCount](_ => 0);
      stack := new u16[StackSize](_ => 0);
      pc := ResetPc;
      address := 0;
      sp := 0;
    }

    /** One fetch/decode/execute cycle. The RAM and the registers are not written. */
    method Cycle() returns (status: Status)
      requires Valid() && CanFetch(ram[..], pc)
      modifies this, stack
      ensures Valid()
      ensures (status, State()) == Step(ram[..], old(State()))
    {
      var hi := ram[pc];
      pc := Inc16(pc);
      var lo := ram[pc];
      pc := Inc16(pc);
      var opcode: u16 := hi as int * 0x100 + lo;
      var miniop := opcode / 0x1000;
      var operands: u16 := opcode % (OperandsMask + 1);
      if miniop == 0x0 {
        // Op0: 00E0 clears the console, which holds no state of the model; 00EE is empty.
        status := Completed;
      } else if miniop == 0x1 {
        Op1(operands);
        status := Completed;
      } else if miniop == 0x2 {
        status := Op2(operands);
      } else if miniop == 0xA {
        OpA(operands);
        status := Completed;
      } else {
        status := NotImplemented;
      }
    }

    /** Sets I to the address NNN. */
    method OpA(operands: u16)
      modifies this`address
      ensures address == operands
    {
      address := operands;
    }

    /** Jumps to address NNN. */
    method Op1(operands: u16)
      modifies this`pc
      ensures pc == operands
    {
      pc := operands;
    }

    /** Calls the subroutine at NNN, pushing the return `pc` and then `address`. */
    method Op2(operands: u16) returns (status: Status)
      requires Valid()
      modifies this`sp, this`pc, stack
      ensures (status, State()) == Call(old(State()), operands)
    {
      var i := sp;
      sp := Inc8(sp);
      if i >= stack.Length {
        return IndexOutOfRange;
      }
      stack[i] := pc;
      i := sp;
      sp := Inc8(sp);
      if i >= stack.Length {
        return IndexOutOfRange;
      }
      stack[i] := address;
      pc := operands;
      status := Completed;
    }
  }
}
