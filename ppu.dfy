/** The picture-processing unit: a byte framebuffer of 64 * 32 cells plus `W` bytes of
    slack, where `W` is the lane count of `Vector<byte>`; the SIMD pixel mask built once by
    the static constructor; two sprite compositors; and the frame gate of `Cycle`, which
    lets every 8th call through and counts the delay timer down. */
module Ppu {
  import opened Bits
  import opened Wrappers
  import opened Compositor

  /** The static constructor. A vector narrower than 8 lanes cannot hold a sprite row and
      raises PlatformNotSupportedException (`None`); otherwise lane i < 8 of the mask is
      `0x80 >> i` and every other lane is 0. */
  method BuildSpritePixelMask(lanes: nat) returns (mask: Option<seq<bv8>>)
    ensures mask.None? <==> lanes < 8
    ensures mask.Some? ==> |mask.value| == lanes && IsPixelMask(mask.value)
    ensures mask.Some? ==> forall i :: 0 <= i < 8 ==> mask.value[i] as int == Pow2(7 - i)
  {
    if lanes < 8 {
      return None;
    }
    var m := new bv8[lanes](_ => 0);
    for i := 0 to 8
      invariant forall j :: 0 <= j < i ==> m[j] == PixelBit(j)
      invariant forall j :: i <= j < lanes ==> m[j] == 0
    {
      m[i] := MSB >> i;
    }
    forall i | 0 <= i < 8
      ensures m[i] as int == Pow2(7 - i)
    {
      ShiftedMask(i);
    }
    return Some(m[..]);
  }

  /** The mask byte of lane i < 8, `MSB` shifted right i times, is the bit of weight
      2^(7 - i): the leftmost pixel is the most significant bit. */
  lemma ShiftedMask(i: nat)
    requires i < 8
    ensures (MSB >> i) as int == Pow2(7 - i)
  {
    match i
    case 0 => assert Pow2(7) == 0x80;
    case 1 => assert Pow2(6) == 0x40;
    case 2 => assert Pow2(5) == 0x20;
    case 3 => assert Pow2(4) == 0x10;
    case 4 => assert Pow2(3) == 0x08;
    case 5 => assert Pow2(2) == 0x04;
    case 6 => assert Pow2(1) == 0x02;
    case 7 => assert Pow2(0) == 0x01;
  }

  /** The counters the frame gate reads and writes. */
  datatype Counters = Counters(cycleCount: int, frameCount: int, delay: u8)

  /** One call of `Cycle`, up to the console output. Every call increments the cycle count;
      a call that finds it not a multiple of 8 returns at once, otherwise the frame is
      counted and the delay timer decremented if positive. `oneSecondElapsed` is the
      stopwatch reading that resets both counts. */
  function Gate(c: Counters, oneSecondElapsed: bool): (d: Counters)
    ensures d.delay == c.delay || (c.delay > 0 && d.delay == c.delay - 1)
    ensures c.cycleCount % 8 != 0 ==> d.frameCount == c.frameCount && d.delay == c.delay
    ensures !oneSecondElapsed ==> d.cycleCount == c.cycleCount + 1
  {
    if c.cycleCount % 8 != 0 then c.(cycleCount := c.cycleCount + 1)
    else
      var delay := if c.delay > 0 then c.delay - 1 else c.delay;
      if oneSecondElapsed then Counters(0, 0, delay)
      else Counters(c.cycleCount + 1, c.frameCount + 1, delay)
  }

  /** n calls of `Cycle` within one stopwatch second. */
  function Gates(c: Counters, n: nat): Counters
    decreases n
  {
    if n == 0 then c else Gate(Gates(c, n - 1), false)
  }

  /** The delay timer moves only on a call that passes the gate, by exactly one and only
      while it is positive. */
  lemma GateDelay(c: Counters, oneSecondElapsed: bool)
    ensures var d := Gate(c, oneSecondElapsed);
      && (d.delay != c.delay <==> c.cycleCount % 8 == 0 && c.delay > 0)
      && (d.delay != c.delay ==> d.delay == c.delay - 1)
      && (c.cycleCount % 8 != 0 ==> d == c.(cycleCount := c.cycleCount + 1))
  {
  }

  /** Starting on a multiple of 8, n calls pass the gate ceil(n / 8) times: the delay timer
      drops by that much, stopping at 0, and every call is counted. */
  lemma {:induction false} DelayAfterCycles(c: Counters, n: nat)
    requires c.cycleCount % 8 == 0
    ensures Gates(c, n).cycleCount == c.cycleCount + n
    ensures Gates(c, n).frameCount == c.frameCount + (n + 7) / 8
    ensures Gates(c, n).delay == if c.delay >= (n + 7) / 8 then c.delay - (n + 7) / 8 else 0
    decreases n
  {
    if n > 0 {
      DelayAfterCycles(c, n - 1);
      PhaseOf(c.cycleCount, n - 1);
      CeilStep(n);
    }
  }

  /** Counting on from a multiple of 8, the phase is the distance travelled modulo 8. */
  lemma PhaseOf(start: int, m: nat)
    requires start % 8 == 0
    ensures (start + m) % 8 == m % 8
  {
  }

  /** ceil(n / 8) grows by one exactly when n - 1 is a multiple of 8. */
  lemma CeilStep(n: nat)
    requires n > 0
    ensures (n + 7) / 8 == (n + 6) / 8 + (if (n - 1) % 8 == 0 then 1 else 0)
  {
  }

  class Chip8Ppu {
    const spritePixelMask: seq<bv8>
    const frameBuffer: array<bv8>
    var cycleCount: int
    var frameCount: int
    /** The delay timer, owned elsewhere in the source; a byte here. */
    var delay: u8

    ghost predicate Valid()
      reads this
    {
      && IsPixelMask(spritePixelMask)
      && frameBuffer.Length == DisplaySize + |spritePixelMask|
      && cycleCount >= 0
    }

    ghost function Counts(): Counters
      reads this
    {
      Counters(cycleCount, frameCount, delay)
    }

    /** A blank framebuffer of `64 * 32 + W` bytes, W being the mask's lane count. */
    constructor (spritePixelMask: seq<bv8>)
      requires IsPixelMask(spritePixelMask)
      ensures Valid() && this.spritePixelMask == spritePixelMask && fresh(frameBuffer)
      ensures frameBuffer[..] == seq(DisplaySize + |spritePixelMask|, _ => 0)
      ensures Counts() == Counters(0, 0, 0)
    {
      this.spritePixelMask := spritePixelMask;
      frameBuffer := new bv8[DisplaySize + |spritePixelMask|](_ => 0);
      cycleCount := 0;
      frameCount := 0;
      delay := 0;
    }

    /** The frame gate and the delay countdown of `Cycle`; the console output and the frame
        limiter that follow are not modelled. */
    method Cycle(oneSecondElapsed: bool)
      requires Valid()
      modifies this
      ensures Valid()
      ensures Counts() == Gate(old(Counts()), oneSecondElapsed)
    {
      var count := cycleCount;
      cycleCount := cycleCount + 1;
      if count % 8 != 0 {
        return;
      }
      frameCount := frameCount + 1;
      if delay > 0 {
        delay := delay - 1;
      }
      if oneSecondElapsed {
        cycleCount := 0;
        frameCount := 0;
      }
    }

    /** The SIMD compositor as written: row windows start at offsets reduced modulo
        `frameBuffer.Length - 1`. The source reaches the windows through a raw pointer and
        never checks them, so they must all fit. */
    method Draw(xPosition: u8, yPosition: u8, spriteMemory: seq<bv8>) returns (bitFlipped: bool)
      requires Valid()
      requires WindowsFit(frameBuffer.Length, |spritePixelMask|, xPosition, yPosition, |spriteMemory|,
                          frameBuffer.Length - 1)
      modifies frameBuffer
      ensures frameBuffer[..] == DrawRows(old(frameBuffer[..]), xPosition, yPosition, spriteMemory,
                                          spritePixelMask, frameBuffer.Length - 1, |spriteMemory|)
      ensures bitFlipped == DrawCollides(old(frameBuffer[..]), xPosition, yPosition, spriteMemory,
                                         spritePixelMask, frameBuffer.Length - 1, |spriteMemory|)
    {
      var modulus := frameBuffer.Length - 1;
      bitFlipped := Composite(xPosition, yPosition, spriteMemory, modulus);
    }

    /** The SIMD compositor with offsets reduced modulo the display size, so that every
        window starts on the display and ends in the slack after it. */
    method DrawWrapped(xPosition: u8, yPosition: u8, spriteMemory: seq<bv8>) returns (bitFlipped: bool)
      requires Valid()
      modifies frameBuffer
      ensures WindowsFit(frameBuffer.Length, |spritePixelMask|, xPosition, yPosition, |spriteMemory|, DisplaySize)
      ensures frameBuffer[..] == DrawRows(old(frameBuffer[..]), xPosition, yPosition, spriteMemory,
                                          spritePixelMask, DisplaySize, |spriteMemory|)
      ensures bitFlipped == DrawCollides(old(frameBuffer[..]), xPosition, yPosition, spriteMemory,
                                         spritePixelMask, DisplaySize, |spriteMemory|)
    {
      WrappedWindowsFit(|spritePixelMask|, xPosition, yPosition, |spriteMemory|);
      bitFlipped := Composite(xPosition, yPosition, spriteMemory, DisplaySize);
    }

    /** The body of Draw for a given offset modulus: per sprite row, build the 0x00/0xFF
        lane vector, test it against the window, XOR it in and copy the window back. */
    method Composite(xPosition: u8, yPosition: u8, sprite: seq<bv8>, modulus: nat) returns (bitFlipped: bool)
      requires WindowsFit(frameBuffer.Length, |spritePixelMask|, xPosition, yPosition, |sprite|, modulus)
      modifies frameBuffer
      ensures frameBuffer[..] == DrawRows(old(frameBuffer[..]), xPosition, yPosition, sprite,
                                          spritePixelMask, modulus, |sprite|)
      ensures bitFlipped == DrawCollides(old(frameBuffer[..]), xPosition, yPosition, sprite,
                                         spritePixelMask, modulus, |sprite|)
    {
      bitFlipped := false;
      var y := 0;
      while y < |sprite|
        invariant y <= |sprite|
        invariant frameBuffer[..] == DrawRows(old(frameBuffer[..]), xPosition, yPosition, sprite, spritePixelMask, modulus, y)
        invariant bitFlipped == DrawCollides(old(frameBuffer[..]), xPosition, yPosition, sprite, spritePixelMask, modulus, y)
      {
        DrawRowsNext(old(frameBuffer[..]), xPosition, yPosition, sprite, spritePixelMask, modulus, y);
        var linePixels := LinePixels(sprite[y], spritePixelMask);
        var offset := WindowStart(y, xPosition, yPosition, modulus);
        bitFlipped := CompositeRow(offset, linePixels, bitFlipped);
        y := y + 1;
      }
    }

    /** One pass of Draw's loop: the collision test of the lane vector `linePixels` against
        the window at `offset` (skipped once a collision is known) and the XORed window
        copied back. */
    method CompositeRow(offset: nat, linePixels: seq<bv8>, flipped: bool) returns (bitFlipped: bool)
      requires offset + |linePixels| <= frameBuffer.Length
      modifies frameBuffer
      ensures frameBuffer[..] == XorRow(old(frameBuffer[..]), offset, linePixels)
      ensures bitFlipped == (flipped || RowCollides(old(frameBuffer[..]), offset, linePixels))
    {
      var regionLine := frameBuffer[offset..offset + |linePixels|];
      bitFlipped := flipped;
      if !bitFlipped {
        bitFlipped := RowCollides(regionLine, 0, linePixels);
        RowCollidesWindow(old(frameBuffer[..]), offset, linePixels, regionLine);
      }
      var renderedLine := XorLanes(regionLine, linePixels);
      CopyTo(offset, renderedLine);
      XorRowSplice(old(frameBuffer[..]), offset, linePixels, regionLine);
    }

    /** Copying the rendered line back: the lanes written over the window at `start`. */
    method CopyTo(start: nat, w: seq<bv8>)
      requires start + |w| <= frameBuffer.Length
      modifies frameBuffer
      ensures frameBuffer[..] == Splice(old(frameBuffer[..]), start, w)
    {
      for c := 0 to |w|
        invariant forall k :: 0 <= k < frameBuffer.Length ==>
          frameBuffer[k] == if start <= k < start + c then w[k - start] else old(frameBuffer[k])
      {
        frameBuffer[start + c] := w[c];
      }
      assert frameBuffer[..] == Splice(old(frameBuffer[..]), start, w);
    }

    /** The scalar compositor: pixel (x, y) of the sprite is XORed into cell `y * 64 + x`
        unless that index is past the end of the buffer. */
    method DrawOld(xPosition: u8, yPosition: u8, spriteMemory: seq<bv8>) returns (bitFlipped: bool)
      modifies frameBuffer
      ensures frameBuffer[..] == DrawOldCells(old(frameBuffer[..]), xPosition, yPosition, spriteMemory)
      ensures bitFlipped == DrawOldCollides(old(frameBuffer[..]), xPosition, yPosition, spriteMemory)
    {
      bitFlipped := DrawOldRows(xPosition, yPosition, spriteMemory);
      OldRowsComplete(old(frameBuffer[..]), xPosition, yPosition, spriteMemory);
      OldRowsCollideComplete(old(frameBuffer[..]), xPosition, yPosition, spriteMemory);
    }

    /** DrawOld's outer loop over the sprite rows, against the row-by-row specification. */
    method DrawOldRows(xPosition: u8, yPosition: u8, spriteMemory: seq<bv8>) returns (bitFlipped: bool)
      modifies frameBuffer
      ensures frameBuffer[..] == OldRows(old(frameBuffer[..]), xPosition, yPosition, spriteMemory, |spriteMemory|)
      ensures bitFlipped == OldRowsCollide(old(frameBuffer[..]), xPosition, yPosition, spriteMemory, |spriteMemory|)
    {
      bitFlipped := false;
      var y: int := yPosition;
      ghost var row: nat := 0;
      while y < yPosition + |spriteMemory|
        invariant row <= |spriteMemory| && y == yPosition + row
        invariant frameBuffer[..] == OldRows(old(frameBuffer[..]), xPosition, yPosition, spriteMemory, row)
        invariant bitFlipped == OldRowsCollide(old(frameBuffer[..]), xPosition, yPosition, spriteMemory, row)
      {
        OldRowsStep(old(frameBuffer[..]), xPosition, yPosition, spriteMemory, row);
        bitFlipped := DrawOldRow(xPosition, yPosition, spriteMemory, y, bitFlipped);
        y := y + 1;
        row := row + 1;
      }
      assert row == |spriteMemory|;
      assert OldRows(old(frameBuffer[..]), xPosition, yPosition, spriteMemory, row) == OldRows(old(frameBuffer[..]), xPosition, yPosition, spriteMemory, |spriteMemory|);
    }

    /** One pass of DrawOld's inner loop: the eight pixels of sprite row y - yPosition,
        with the collision flag found so far. */
    method DrawOldRow(xPosition: u8, yPosition: u8, spriteMemory: seq<bv8>, y: int, flipped: bool)
      returns (bitFlipped: bool)
      requires yPosition <= y < yPosition + |spriteMemory|
      modifies frameBuffer
      ensures frameBuffer[..]
              == OldRowPixels(old(frameBuffer[..]), xPosition, yPosition, spriteMemory, y - yPosition, SpriteWidth)
      ensures bitFlipped
              == (flipped || OldRowCollides(old(frameBuffer[..]), xPosition, yPosition, spriteMemory, y - yPosition, SpriteWidth))
    {
      bitFlipped := flipped;
      var spriteLine := spriteMemory[y - yPosition];
      var x: int := xPosition;
      while x < xPosition + SpriteWidth
        invariant xPosition <= x <= xPosition + SpriteWidth
        invariant frameBuffer[..] == OldRowPixels(old(frameBuffer[..]), xPosition, yPosition, spriteMemory, y - yPosition, x - xPosition)
        invariant bitFlipped == (flipped || OldRowCollides(old(frameBuffer[..]), xPosition, yPosition, spriteMemory, y - yPosition, x - xPosition))
        invariant y * 64 + x <= frameBuffer.Length ==> spriteLine == ShiftedLine(spriteMemory[y - yPosition], x - xPosition)
      {
        OldRowStep(old(frameBuffer[..]), xPosition, yPosition, spriteMemory, y - yPosition, x - xPosition);
        var pixelId := y * 64 + x;
        assert pixelId == PixelId(xPosition, yPosition, y - yPosition, x - xPosition);
        if 0 <= pixelId < frameBuffer.Length {
          NextSpritePixel(spriteMemory[y - yPosition], x - xPosition, spriteLine);
          bitFlipped, spriteLine := DrawOldPixel(pixelId, spriteLine, bitFlipped);
        }
        x := x + 1;
      }
      assert x - xPosition == SpriteWidth;
      assert OldRowPixels(old(frameBuffer[..]), xPosition, yPosition, spriteMemory, y - yPosition, x - xPosition)
          == OldRowPixels(old(frameBuffer[..]), xPosition, yPosition, spriteMemory, y - yPosition, SpriteWidth);
      assert OldRowCollides(old(frameBuffer[..]), xPosition, yPosition, spriteMemory, y - yPosition, x - xPosition)
          == OldRowCollides(old(frameBuffer[..]), xPosition, yPosition, spriteMemory, y - yPosition, SpriteWidth);
    }

    /** The body of DrawOld's inner loop for a pixel inside the buffer: the top bit of
        `spriteLine` is XORed into the pixel, the line shifts on, and the flag is raised
        when a set pixel meets a set sprite bit. */
    method DrawOldPixel(pixelId: nat, spriteLine: bv8, flipped: bool) returns (bitFlipped: bool, nextLine: bv8)
      requires pixelId < frameBuffer.Length
      modifies frameBuffer
      ensures frameBuffer[..] == old(frameBuffer[..])[pixelId := old(frameBuffer[pixelId]) ^ ((spriteLine & MSB) >> 7)]
      ensures nextLine == spriteLine << 1
      ensures bitFlipped == (flipped || (old(frameBuffer[pixelId]) > 0 && (spriteLine & MSB) >> 7 > 0))
    {
      var pixel := frameBuffer[pixelId];
      var spritePixel := (spriteLine & MSB) >> 7;
      nextLine := spriteLine << 1;
      bitFlipped := flipped;
      if !bitFlipped && pixel > 0 && spritePixel > 0 {
        bitFlipped := true;
      }
      frameBuffer[pixelId] := pixel ^ spritePixel;
    }
  }
}
