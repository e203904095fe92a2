/** The machine (`Chip8Platform`): 4 KiB of RAM with the ROM image loaded at 0x200, a CPU
    over that RAM and a display unit, stepped one CPU cycle then one display cycle. */
module Platform {
  import opened Bits
  import opened Wrappers
  import opened Compositor
  import opened Cpu
  import opened Ppu

  const RamSize := 0x1000

  /** Why construction throws: the ROM does not fit behind 0x200 (`CopyTo` into a shorter
      slice), or the display unit's static constructor rejects the vector width. */
  datatype PlatformError = RomTooLarge | PlatformNotSupported

  /** The RAM right after construction: zero everywhere except the ROM image at 0x200. */
  function LoadedRam(romImage: seq<u8>): (ram: seq<u8>)
    requires |romImage| <= RamSize - ResetPc
    ensures |ram| == RamSize
  {
    seq(RamSize, k requires 0 <= k < RamSize =>
      if ResetPc <= k < ResetPc + |romImage| then romImage[k - ResetPc] else 0)
  }

  /** Byte i of the ROM lands at 0x200 + i, and no other byte is written. */
  lemma RomPlacement(romImage: seq<u8>)
    requires |romImage| <= RamSize - ResetPc
    ensures forall i :: 0 <= i < |romImage| ==> LoadedRam(romImage)[ResetPc + i] == romImage[i]
    ensures forall k :: 0 <= k < ResetPc ==> LoadedRam(romImage)[k] == 0
    ensures forall k :: ResetPc + |romImage| <= k < RamSize ==> LoadedRam(romImage)[k] == 0
  {
  }

  /** The CPU starts at 0x200, so its first opcode is the first two ROM bytes, big-endian;
      a ROM shorter than that is padded by the zeroed RAM. */
  lemma FirstFetch(romImage: seq<u8>)
    requires |romImage| <= RamSize - ResetPc
    ensures CanFetch(LoadedRam(romImage), InitialState().pc)
    ensures |romImage| >= 2 ==> Fetch(LoadedRam(romImage), InitialState().pc) == romImage[0] as int * 0x100 + romImage[1]
    ensures |romImage| == 1 ==> Fetch(LoadedRam(romImage), InitialState().pc) == romImage[0] as int * 0x100
    ensures |romImage| == 0 ==> Fetch(LoadedRam(romImage), InitialState().pc) == 0
  {
    assert Inc16(ResetPc) == ResetPc + 1;
  }

  /** A zeroed RAM of 0x1000 bytes with the ROM image copied in from 0x200 on. */
  method LoadRom(romImage: seq<u8>) returns (ram: array<u8>)
    requires |romImage| <= RamSize - ResetPc
    ensures fresh(ram) && ram[..] == LoadedRam(romImage)
  {
    ram := new u8[RamSize](_ => 0);
    for i := 0 to |romImage|
      invariant forall k :: 0 <= k < RamSize ==>
        ram[k] == if ResetPc <= k < ResetPc + i then romImage[k - ResetPc] else 0
    {
      ram[ResetPc + i] := romImage[i];
    }
    assert ram[..] == LoadedRam(romImage);
  }

  /** Construction with its two failure paths. The ROM copy comes first, so an oversized ROM
      is reported even on a machine whose vectors are too narrow. */
  method Create(romImage: seq<u8>, lanes: nat) returns (r: Result<Chip8Platform, PlatformError>)
    ensures r.Failure? <==> |romImage| > RamSize - ResetPc || lanes < 8
    ensures |romImage| > RamSize - ResetPc ==> r == Failure(RomTooLarge)
    ensures |romImage| <= RamSize - ResetPc && lanes < 8 ==> r == Failure(PlatformNotSupported)
    ensures r.Success? ==> fresh(r.value) && r.value.Valid()
                           && r.value.ram[..] == LoadedRam(romImage)
                           && r.value.cpu.State() == InitialState()
                           && |r.value.ppu.spritePixelMask| == lanes
                           && r.value.ppu.Counts() == Counters(0, 0, 0)
                           && r.value.ppu.frameBuffer[..] == seq(DisplaySize + lanes, _ => 0)
  {
    if |romImage| > RamSize - ResetPc {
      return Failure(RomTooLarge);
    }
    var mask := BuildSpritePixelMask(lanes);
    if mask.None? {
      return Failure(PlatformNotSupported);
    }
    var platform := new Chip8Platform(romImage, mask.value);
    return Success(platform);
  }

  class Chip8Platform {
    const ram: array<u8>
    const cpu: Chip8Cpu
    const ppu: Chip8Ppu

    /** The CPU works on this platform's RAM. */
    ghost predicate Valid()
      reads this, cpu, ppu
    {
      && ram.Length == RamSize
      && cpu.Valid() && cpu.ram == ram
      && ppu.Valid()
    }

    /** The RAM is allocated and loaded before the CPU is built over it; the sound unit is
        not part of this model. */
    constructor (romImage: seq<u8>, spritePixelMask: seq<bv8>)
      requires |romImage| <= RamSize - ResetPc && IsPixelMask(spritePixelMask)
      ensures Valid() && fresh(ram) && fresh(cpu) && fresh(ppu)
      ensures ram[..] == LoadedRam(romImage)
      ensures cpu.State() == InitialState()
      ensures ppu.spritePixelMask == spritePixelMask && ppu.Counts() == Counters(0, 0, 0)
      ensures fresh(ppu.frameBuffer) && ppu.frameBuffer[..] == seq(DisplaySize + |spritePixelMask|, _ => 0)
    {
      var memory := LoadRom(romImage);
      ram := memory;
      cpu := new Chip8Cpu(memory);
      ppu := new Chip8Ppu(spritePixelMask);
    }

    /** One CPU cycle, then one display cycle. A CPU cycle that throws propagates before the
        display cycle starts, so the display counters move only after a completed cycle. */
    method Cycle(oneSecondElapsed: bool) returns (status: Status)
      requires Valid() && CanFetch(ram[..], cpu.pc)
      modifies cpu, cpu.stack, ppu
      ensures Valid()
      ensures (status, cpu.State()) == Step(ram[..], old(cpu.State()))
      ensures ppu.Counts() == if status == Completed then Gate(old(ppu.Counts()), oneSecondElapsed)
                              else old(ppu.Counts())
      ensures ram[..] == old(ram[..]) && ppu.frameBuffer[..] == old(ppu.frameBuffer[..])
    {
      status := cpu.Cycle();
      if status == Completed {
        ppu.Cycle(oneSecondElapsed);
      }
    }
  }
}
