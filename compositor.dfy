/** What the two sprite compositors of the PPU compute, stated over the framebuffer as a
    sequence of bytes.

    `Draw` works a sprite row at a time on a `Vector<byte>` of `W` lanes, modelled as a
    sequence of `W` bytes: the row byte is broadcast to every lane, ANDed with the pixel
    mask, turned into 0x00/0xFF lanes, and XORed into the `W` framebuffer bytes that start
    at one linear offset. `DrawOld` works a pixel at a time and XORs single bits. */
module Compositor {
  import opened Bits

  const MSB: bv8 := 0x80
  /** The display is 64 cells wide and 32 high; row y of it starts at cell y * 64. The
      width is written as the literal 64 in the arithmetic below. */
  const DisplaySize := 64 * 32

  /** Sprites are 8 pixels wide: one byte per row, one bit per pixel. */
  const SpriteWidth := 8

  /** The single bit of pixel c in a sprite row: bit 7 - c, most significant first. */
  function PixelBit(c: nat): bv8
    requires c < 8
  {
    MSB >> c
  }

  /** Pixel c of a sprite row (0 <= c < 8), as 0 or 1: the top bit once the c pixels
      before it have been shifted out. */
  function SpriteBit(line: bv8, c: nat): (b: bv8)
    requires c < 8
    ensures b <= 1
    decreases c
  {
    if c == 0 then (line & MSB) >> 7 else SpriteBit(line << 1, c - 1)
  }

  /** Pixel c is set exactly when the row shares its pixel bit. */
  lemma {:induction false} SpriteBitIsPixelBit(line: bv8, c: nat)
    requires c < 8
    ensures SpriteBit(line, c) == if line & PixelBit(c) != 0 then 1 else 0
    decreases c
  {
    if c > 0 {
      SpriteBitIsPixelBit(line << 1, c - 1);
    }
  }

  /** The SIMD pixel mask: lane i < 8 holds the single bit 7 - i, every later lane 0. */
  ghost predicate IsPixelMask(mask: seq<bv8>)
  {
    && |mask| >= 8
    && (forall i :: 0 <= i < |mask| ==> mask[i] == if i < 8 then PixelBit(i) else 0)
  }

  // ================================================================ Draw (SIMD)

  /** The row byte broadcast to every lane, masked and compared with zero: lane i is
      0xFF when the row byte shares a bit with mask lane i, and 0 otherwise. */
  function LinePixels(line: bv8, mask: seq<bv8>): (r: seq<bv8>)
    ensures |r| == |mask|
    ensures forall i :: 0 <= i < |r| ==> r[i] == 0 || r[i] == 0xFF
  {
    seq(|mask|, i requires 0 <= i < |mask| => if line & mask[i] > 0 then 0xFF else 0)
  }

  /** Start of the window of sprite row `row`: one linear offset, reduced modulo `modulus`. */
  function WindowStart(row: nat, xPosition: u8, yPosition: u8, modulus: nat): (start: nat)
    requires modulus > 0
    ensures start < modulus
  {
    ((row + yPosition) * 64 + xPosition) % modulus
  }

  /** Every one of the first `rows` row windows, `lanes` bytes wide, lies inside a buffer of
      `length` bytes. */
  ghost predicate WindowsFit(length: nat, lanes: nat, xPosition: u8, yPosition: u8, rows: nat, modulus: nat)
  {
    modulus > 0 &&
    forall r :: 0 <= r < rows ==> WindowStart(r, xPosition, yPosition, modulus) + lanes <= length
  }

  /** `regionLine ^ linePixels` copied back over the window that starts at `start` (the
      draw methods make sure the window lies inside `fb`). */
  function XorRow(fb: seq<bv8>, start: nat, pixels: seq<bv8>): (r: seq<bv8>)
    ensures |r| == |fb|
  {
    seq(|fb|, k requires 0 <= k < |fb| =>
      if start <= k < start + |pixels| then fb[k] ^ pixels[k - start] else fb[k])
  }

  /** `regionLine ^ linePixels`, lane by lane. */
  function XorLanes(region: seq<bv8>, pixels: seq<bv8>): (r: seq<bv8>)
    requires |region| == |pixels|
    ensures |r| == |pixels|
  {
    seq(|pixels|, c requires 0 <= c < |pixels| => region[c] ^ pixels[c])
  }

  /** `Span.CopyTo`: the cells from `start` on replaced by `w`. */
  function Splice(fb: seq<bv8>, start: nat, w: seq<bv8>): (r: seq<bv8>)
    ensures |r| == |fb|
  {
    seq(|fb|, k requires 0 <= k < |fb| => if start <= k < start + |w| then w[k - start] else fb[k])
  }

  /** Reading the window out, XORing it with the row and copying it back is XorRow. */
  lemma XorRowSplice(fb: seq<bv8>, start: nat, pixels: seq<bv8>, window: seq<bv8>)
    requires start + |pixels| <= |fb| && window == fb[start..start + |pixels|]
    ensures Splice(fb, start, XorLanes(window, pixels)) == XorRow(fb, start, pixels)
  {
  }

  /** The collision test of one row (any lane of the AND above zero): some lane of the
      window shares a set bit with its lane of the row. */
  predicate RowCollides(fb: seq<bv8>, start: nat, pixels: seq<bv8>)
  {
    LanesCollide(fb, start, pixels, |pixels|)
  }

  /** The same test over lanes [0, n), one lane at a time. */
  predicate LanesCollide(fb: seq<bv8>, start: nat, pixels: seq<bv8>, n: nat)
    requires n <= |pixels|
    decreases n
  {
    n > 0 &&
    (LanesCollide(fb, start, pixels, n - 1) ||
     (start + n - 1 < |fb| && fb[start + n - 1] & pixels[n - 1] > 0))
  }

  /** The test reads only the window: it gives the same answer on the window copied out. */
  lemma RowCollidesWindow(fb: seq<bv8>, start: nat, pixels: seq<bv8>, window: seq<bv8>)
    requires start + |pixels| <= |fb| && window == fb[start..start + |pixels|]
    ensures RowCollides(fb, start, pixels) == RowCollides(window, 0, pixels)
  {
    LanesCollideWindow(fb, start, pixels, window, |pixels|);
  }

  lemma {:induction false} LanesCollideWindow(fb: seq<bv8>, start: nat, pixels: seq<bv8>, window: seq<bv8>, n: nat)
    requires n <= |pixels| && start + |pixels| <= |fb| && window == fb[start..start + |pixels|]
    ensures LanesCollide(fb, start, pixels, n) == LanesCollide(window, 0, pixels, n)
    decreases n
  {
    if n > 0 {
      LanesCollideWindow(fb, start, pixels, window, n - 1);
      assert window[n - 1] == fb[start + n - 1];
    }
  }

  lemma {:induction false} LanesCollideMeaning(fb: seq<bv8>, start: nat, pixels: seq<bv8>, n: nat)
    requires n <= |pixels|
    ensures LanesCollide(fb, start, pixels, n) <==>
            exists c :: 0 <= c < n && start + c < |fb| && fb[start + c] & pixels[c] > 0
    decreases n
  {
    if n > 0 {
      LanesCollideMeaning(fb, start, pixels, n - 1);
      if start + n - 1 < |fb| && fb[start + n - 1] & pixels[n - 1] > 0 {
        var c := n - 1;
        assert start + c < |fb| && fb[start + c] & pixels[c] > 0;
      }
    }
  }

  /** The framebuffer after the first n rows of the sprite, applied in order. */
  function DrawRows(fb: seq<bv8>, xPosition: u8, yPosition: u8, sprite: seq<bv8>, mask: seq<bv8>,
                    modulus: nat, n: nat): (r: seq<bv8>)
    requires n <= |sprite| && modulus > 0
    ensures |r| == |fb|
    decreases n
  {
    if n == 0 then fb
    else
      XorRow(DrawRows(fb, xPosition, yPosition, sprite, mask, modulus, n - 1),
             WindowStart(n - 1, xPosition, yPosition, modulus), LinePixels(sprite[n - 1], mask))
  }

  /** The collision flag after the first n rows: some row, at its turn, found a set
      framebuffer byte under one of its lit lanes. */
  predicate DrawCollides(fb: seq<bv8>, xPosition: u8, yPosition: u8, sprite: seq<bv8>, mask: seq<bv8>,
                               modulus: nat, n: nat)
    requires n <= |sprite| && modulus > 0
    ensures DrawCollides(fb, xPosition, yPosition, sprite, mask, modulus, n) ==> n > 0
    ensures 0 < n && DrawCollides(fb, xPosition, yPosition, sprite, mask, modulus, n - 1) ==>
            DrawCollides(fb, xPosition, yPosition, sprite, mask, modulus, n)
    decreases n
  {
    n > 0 &&
    (DrawCollides(fb, xPosition, yPosition, sprite, mask, modulus, n - 1) ||
     RowCollides(DrawRows(fb, xPosition, yPosition, sprite, mask, modulus, n - 1),
                 WindowStart(n - 1, xPosition, yPosition, modulus), LinePixels(sprite[n - 1], mask)))
  }

  /** With the pixel mask, lane c < 8 of a row is 0xFF exactly when pixel c of the sprite
      row is set, and every lane from 8 on is 0. */
  lemma LinePixelLanes(line: bv8, mask: seq<bv8>, c: nat)
    requires IsPixelMask(mask) && c < |mask|
    ensures |LinePixels(line, mask)| == |mask|
    ensures c < 8 ==> LinePixels(line, mask)[c] == if SpriteBit(line, c) == 1 then 0xFF else 0
    ensures 8 <= c ==> LinePixels(line, mask)[c] == 0
  {
    if c < 8 {
      SpriteBitIsPixelBit(line, c);
    }
  }

  /** One row of Draw: window lane c < 8 is XORed with 0xFF exactly when pixel c of the
      row is set; lanes from 8 on and everything outside the window keep their value. */
  lemma RowEffect(fb: seq<bv8>, start: nat, line: bv8, mask: seq<bv8>, k: nat)
    requires IsPixelMask(mask) && k < |fb|
    ensures var after := XorRow(fb, start, LinePixels(line, mask));
      after[k] == if start <= k < start + 8 then fb[k] ^ (if SpriteBit(line, k - start) == 1 then 0xFF else 0)
                  else fb[k]
  {
    if start <= k < start + |mask| {
      LinePixelLanes(line, mask, k - start);
    }
  }

  /** One row collides exactly when a lane c < 8 whose sprite pixel is set covers a
      non-zero framebuffer byte. */
  lemma RowCollisionMeaning(fb: seq<bv8>, start: nat, line: bv8, mask: seq<bv8>)
    requires IsPixelMask(mask)
    ensures RowCollides(fb, start, LinePixels(line, mask)) <==>
            exists c :: 0 <= c < 8 && start + c < |fb| && fb[start + c] != 0 && SpriteBit(line, c) == 1
  {
    var pixels := LinePixels(line, mask);
    LanesCollideMeaning(fb, start, pixels, |pixels|);
    if RowCollides(fb, start, pixels) {
      var c :| 0 <= c < |pixels| && start + c < |fb| && fb[start + c] & pixels[c] > 0;
      LaneCollides(fb, start, line, mask, c);
    } else {
      forall c | 0 <= c < 8 && start + c < |fb|
        ensures !(fb[start + c] != 0 && SpriteBit(line, c) == 1)
      {
        LaneCollides(fb, start, line, mask, c);
      }
    }
  }

  lemma LaneCollides(fb: seq<bv8>, start: nat, line: bv8, mask: seq<bv8>, c: nat)
    requires IsPixelMask(mask) && start + c < |fb| && c < |mask|
    ensures (fb[start + c] & LinePixels(line, mask)[c] > 0) <==>
            (c < 8 && fb[start + c] != 0 && SpriteBit(line, c) == 1)
  {
    LinePixelLanes(line, mask, c);
  }

  /** The row windows are only ever 8 cells wide in effect: a cell that lies in none of the
      first 8 lanes of any row window keeps its value. */
  lemma {:induction false} DrawRowsUntouched(fb: seq<bv8>, xPosition: u8, yPosition: u8, sprite: seq<bv8>,
                                             mask: seq<bv8>, modulus: nat, n: nat, k: nat)
    requires IsPixelMask(mask) && n <= |sprite| && k < |fb|
    requires modulus > 0
    requires forall r :: 0 <= r < n ==>
               !(WindowStart(r, xPosition, yPosition, modulus) <= k < WindowStart(r, xPosition, yPosition, modulus) + 8)
    ensures DrawRows(fb, xPosition, yPosition, sprite, mask, modulus, n)[k] == fb[k]
    decreases n
  {
    if n > 0 {
      DrawRowsUntouched(fb, xPosition, yPosition, sprite, mask, modulus, n - 1, k);
      RowEffect(DrawRows(fb, xPosition, yPosition, sprite, mask, modulus, n - 1),
                WindowStart(n - 1, xPosition, yPosition, modulus), sprite[n - 1], mask, k);
    }
  }

  /** What row r XORs into cell k: its lane over k, or 0 outside its window. */
  function RowLane(xPosition: u8, yPosition: u8, sprite: seq<bv8>, mask: seq<bv8>,
                   modulus: nat, r: nat, k: nat): bv8
    requires r < |sprite| && modulus > 0
  {
    var start := WindowStart(r, xPosition, yPosition, modulus);
    if start <= k < start + |mask| then LinePixels(sprite[r], mask)[k - start] else 0
  }

  /** The bits the first n rows flip in cell k. It depends on the sprite and the position
      only, never on the framebuffer. */
  function FlipPattern(xPosition: u8, yPosition: u8, sprite: seq<bv8>, mask: seq<bv8>,
                       modulus: nat, n: nat, k: nat): bv8
    requires n <= |sprite| && modulus > 0
    decreases n
  {
    if n == 0 then 0
    else FlipPattern(xPosition, yPosition, sprite, mask, modulus, n - 1, k)
         ^ RowLane(xPosition, yPosition, sprite, mask, modulus, n - 1, k)
  }

  /** Row n of Draw, applied after rows [0, n). */
  lemma DrawRowsNext(fb: seq<bv8>, xPosition: u8, yPosition: u8, sprite: seq<bv8>,
                     mask: seq<bv8>, modulus: nat, n: nat)
    requires n < |sprite| && modulus > 0
    ensures DrawRows(fb, xPosition, yPosition, sprite, mask, modulus, n + 1)
            == XorRow(DrawRows(fb, xPosition, yPosition, sprite, mask, modulus, n),
                      WindowStart(n, xPosition, yPosition, modulus), LinePixels(sprite[n], mask))
    ensures DrawCollides(fb, xPosition, yPosition, sprite, mask, modulus, n + 1)
            == (DrawCollides(fb, xPosition, yPosition, sprite, mask, modulus, n) ||
                RowCollides(DrawRows(fb, xPosition, yPosition, sprite, mask, modulus, n),
                            WindowStart(n, xPosition, yPosition, modulus), LinePixels(sprite[n], mask)))
  {
  }

  lemma DrawRowsStepAt(fb: seq<bv8>, xPosition: u8, yPosition: u8, sprite: seq<bv8>,
                       mask: seq<bv8>, modulus: nat, n: nat, k: nat)
    requires 0 < n <= |sprite| && k < |fb|
    requires modulus > 0
    ensures DrawRows(fb, xPosition, yPosition, sprite, mask, modulus, n)[k]
            == DrawRows(fb, xPosition, yPosition, sprite, mask, modulus, n - 1)[k]
               ^ RowLane(xPosition, yPosition, sprite, mask, modulus, n - 1, k)
  {
  }

  /** Draw XORs every cell with a pattern fixed by the sprite and the position. */
  lemma {:induction false} DrawRowsIsXor(fb: seq<bv8>, xPosition: u8, yPosition: u8, sprite: seq<bv8>,
                                         mask: seq<bv8>, modulus: nat, n: nat, k: nat)
    requires n <= |sprite| && k < |fb|
    requires modulus > 0
    ensures DrawRows(fb, xPosition, yPosition, sprite, mask, modulus, n)[k]
            == fb[k] ^ FlipPattern(xPosition, yPosition, sprite, mask, modulus, n, k)
    decreases n
  {
    if n > 0 {
      DrawRowsIsXor(fb, xPosition, yPosition, sprite, mask, modulus, n - 1, k);
      DrawRowsStepAt(fb, xPosition, yPosition, sprite, mask, modulus, n, k);
    }
  }

  /** Drawing the same sprite at the same place twice restores the framebuffer. */
  lemma DrawTwiceRestores(fb: seq<bv8>, xPosition: u8, yPosition: u8, sprite: seq<bv8>,
                          mask: seq<bv8>, modulus: nat)
    requires modulus > 0
    ensures var once := DrawRows(fb, xPosition, yPosition, sprite, mask, modulus, |sprite|);
            DrawRows(once, xPosition, yPosition, sprite, mask, modulus, |sprite|) == fb
  {
    var n := |sprite|;
    var once := DrawRows(fb, xPosition, yPosition, sprite, mask, modulus, n);
    var twice := DrawRows(once, xPosition, yPosition, sprite, mask, modulus, n);
    forall k | 0 <= k < |fb|
      ensures twice[k] == fb[k]
    {
      DrawRowsIsXor(fb, xPosition, yPosition, sprite, mask, modulus, n, k);
      DrawRowsIsXor(once, xPosition, yPosition, sprite, mask, modulus, n, k);
    }
  }

  /** A cell the rows flip at all has a first row that flips it: the rows before that one
      leave the cell alone, and that row's lane over the cell is non-zero. */
  lemma {:induction false} FirstFlippingRow(xPosition: u8, yPosition: u8, sprite: seq<bv8>, mask: seq<bv8>,
                                            modulus: nat, n: nat, k: nat) returns (j: nat)
    requires n <= |sprite| && modulus > 0
    requires FlipPattern(xPosition, yPosition, sprite, mask, modulus, n, k) != 0
    ensures j < n
    ensures FlipPattern(xPosition, yPosition, sprite, mask, modulus, j, k) == 0
    ensures RowLane(xPosition, yPosition, sprite, mask, modulus, j, k) != 0
    decreases n
  {
    if FlipPattern(xPosition, yPosition, sprite, mask, modulus, n - 1, k) != 0 {
      j := FirstFlippingRow(xPosition, yPosition, sprite, mask, modulus, n - 1, k);
    } else {
      j := n - 1;
    }
  }

  /** Once raised, the collision flag stays raised through every later row. */
  lemma {:induction false} DrawCollidesLater(fb: seq<bv8>, xPosition: u8, yPosition: u8, sprite: seq<bv8>,
                                             mask: seq<bv8>, modulus: nat, m: nat, n: nat)
    requires m <= n <= |sprite| && modulus > 0
    requires DrawCollides(fb, xPosition, yPosition, sprite, mask, modulus, m)
    ensures DrawCollides(fb, xPosition, yPosition, sprite, mask, modulus, n)
    decreases n - m
  {
    if m < n {
      assert DrawCollides(fb, xPosition, yPosition, sprite, mask, modulus, m + 1);
      DrawCollidesLater(fb, xPosition, yPosition, sprite, mask, modulus, m + 1, n);
    }
  }

  /** Drawing the same sprite at the same place again reports a collision wherever the
      first draw lit a cell that was 0: the first row of the second pass whose lane covers
      that cell finds it still lit, and the lane is 0xFF. */
  lemma DrawSecondCollides(fb: seq<bv8>, xPosition: u8, yPosition: u8, sprite: seq<bv8>,
                           mask: seq<bv8>, modulus: nat, k: nat)
    requires modulus > 0 && k < |fb| && fb[k] == 0
    requires DrawRows(fb, xPosition, yPosition, sprite, mask, modulus, |sprite|)[k] != 0
    ensures DrawCollides(DrawRows(fb, xPosition, yPosition, sprite, mask, modulus, |sprite|),
                         xPosition, yPosition, sprite, mask, modulus, |sprite|)
  {
    var n := |sprite|;
    var once := DrawRows(fb, xPosition, yPosition, sprite, mask, modulus, n);
    DrawRowsIsXor(fb, xPosition, yPosition, sprite, mask, modulus, n, k);
    var j := FirstFlippingRow(xPosition, yPosition, sprite, mask, modulus, n, k);
    var before := DrawRows(once, xPosition, yPosition, sprite, mask, modulus, j);
    DrawRowsIsXor(once, xPosition, yPosition, sprite, mask, modulus, j, k);
    var start := WindowStart(j, xPosition, yPosition, modulus);
    var pixels := LinePixels(sprite[j], mask);
    var c := k - start;
    assert start + c < |before| && before[start + c] & pixels[c] > 0;
    LanesCollideMeaning(before, start, pixels, |pixels|);
    assert DrawCollides(once, xPosition, yPosition, sprite, mask, modulus, j + 1);
    DrawCollidesLater(once, xPosition, yPosition, sprite, mask, modulus, j + 1, n);
  }

  /** Cells that hold only 0x00 or 0xFF keep doing so. */
  lemma {:induction false} DrawRowsKeepsFullBytes(fb: seq<bv8>, xPosition: u8, yPosition: u8, sprite: seq<bv8>,
                                                  mask: seq<bv8>, modulus: nat, n: nat, k: nat)
    requires IsPixelMask(mask) && n <= |sprite| && k < |fb|
    requires modulus > 0
    requires forall j :: 0 <= j < |fb| ==> fb[j] == 0 || fb[j] == 0xFF
    ensures DrawRows(fb, xPosition, yPosition, sprite, mask, modulus, n)[k] in {0, 0xFF}
    decreases n
  {
    if n > 0 {
      DrawRowsKeepsFullBytes(fb, xPosition, yPosition, sprite, mask, modulus, n - 1, k);
      DrawRowsStepAt(fb, xPosition, yPosition, sprite, mask, modulus, n, k);
      var start := WindowStart(n - 1, xPosition, yPosition, modulus);
      if start <= k < start + |mask| {
        LinePixelLanes(sprite[n - 1], mask, k - start);
      }
    }
  }

  // ---------------------------------------------------------------- window bounds

  /** With the offset reduced modulo `Length - 1`, a window can start at `Length - 2`, so
      even its first 8 lanes run past the end of the buffer: for every lane count from 8
      to 1024 there is a one-row sprite position whose window overruns. */
  lemma WindowOverrun(lanes: nat)
    requires 8 <= lanes <= 1024
    ensures var length := DisplaySize + lanes;
            var offset := DisplaySize - 2 + lanes;
            var x, y := offset % 64, offset / 64;
            && 0 <= x < 0x100 && 0 <= y < 0x100
            && WindowStart(0, x, y, length - 1) == length - 2
            && WindowStart(0, x, y, length - 1) + 8 > length
            && !WindowsFit(length, lanes, x, y, 1, length - 1)
  {
    var length := DisplaySize + lanes;
    var offset := DisplaySize - 2 + lanes;
    var x, y := offset % 64, offset / 64;
    assert y * 64 + x == offset;
    assert y < 0x100 by {
      assert offset < 0x100 * 64;
    }
    BelowModulus(offset, length - 1);
    assert WindowStart(0, x, y, length - 1) == offset;
  }

  /** A value already below the modulus is its own remainder. */
  lemma BelowModulus(a: nat, m: nat)
    requires a < m
    ensures a % m == a
  {
  }

  /** Reduced modulo the display size instead, every window starts inside the display and
      ends inside the extra `lanes` bytes after it. */
  lemma WrappedWindowsFit(lanes: nat, xPosition: u8, yPosition: u8, rows: nat)
    ensures WindowsFit(DisplaySize + lanes, lanes, xPosition, yPosition, rows, DisplaySize)
  {
  }

  // ================================================================ DrawOld (scalar)

  /** The linear index of pixel c of sprite row r: `y * 64 + x` for y = yPosition + r and
      x = xPosition + c. */
  function PixelId(xPosition: u8, yPosition: u8, r: nat, c: nat): nat
  {
    (yPosition + r) * 64 + xPosition + c
  }

  /** Cell k is pixel ((k - base) % 64) of sprite row ((k - base) / 64), where base is the
      index of the sprite's top-left pixel. */
  predicate OldHit(xPosition: u8, yPosition: u8, rows: nat, k: nat)
  {
    var base := PixelId(xPosition, yPosition, 0, 0);
    base <= k && (k - base) % 64 < 8 && (k - base) / 64 < rows
  }

  /** The sprite bit DrawOld XORs into cell k, 0 for a cell the sprite does not cover. */
  function OldBit(sprite: seq<bv8>, xPosition: u8, yPosition: u8, k: nat): bv8
  {
    if OldHit(xPosition, yPosition, |sprite|, k) then
      var d := k - PixelId(xPosition, yPosition, 0, 0);
      SpriteBit(sprite[d / 64], d % 64)
    else 0
  }

  /** The framebuffer after DrawOld: each covered cell XORed with its sprite bit. */
  function DrawOldCells(fb: seq<bv8>, xPosition: u8, yPosition: u8, sprite: seq<bv8>): (r: seq<bv8>)
    ensures |r| == |fb|
  {
    seq(|fb|, k requires 0 <= k < |fb| => fb[k] ^ OldBit(sprite, xPosition, yPosition, k))
  }

  /** Cell k is in the buffer, lit, and about to be turned off by a set sprite bit. */
  ghost predicate OldCollisionAt(fb: seq<bv8>, xPosition: u8, yPosition: u8, sprite: seq<bv8>, k: nat)
  {
    k < |fb| && fb[k] > 0 && OldBit(sprite, xPosition, yPosition, k) > 0
  }

  /** DrawOld's result: some written cell was non-zero and had sprite bit 1. */
  ghost predicate DrawOldCollides(fb: seq<bv8>, xPosition: u8, yPosition: u8, sprite: seq<bv8>)
    ensures DrawOldCollides(fb, xPosition, yPosition, sprite) ==> |sprite| > 0 && |fb| > 0
  {
    exists k: nat :: OldCollisionAt(fb, xPosition, yPosition, sprite, k)
  }

  /** The closed form covers exactly the pixels the loops enumerate: rows [0, rows) and
      columns [0, 8) of the sprite, at index `y * 64 + x`. */
  lemma OldHitIsPixel(xPosition: u8, yPosition: u8, rows: nat, k: nat)
    ensures OldHit(xPosition, yPosition, rows, k) <==>
            exists r: nat, c: nat :: r < rows && c < 8 && k == PixelId(xPosition, yPosition, r, c)
  {
    var base := PixelId(xPosition, yPosition, 0, 0);
    if OldHit(xPosition, yPosition, rows, k) {
      var r, c := (k - base) / 64, (k - base) % 64;
      assert k == PixelId(xPosition, yPosition, r, c);
    }
    if exists r: nat, c: nat :: r < rows && c < 8 && k == PixelId(xPosition, yPosition, r, c) {
      var r: nat, c: nat :| r < rows && c < 8 && k == PixelId(xPosition, yPosition, r, c);
      PixelDecode(xPosition, yPosition, r, c);
    }
  }

  lemma PixelDecode(xPosition: u8, yPosition: u8, r: nat, c: nat)
    requires c < 8
    ensures var d := PixelId(xPosition, yPosition, r, c) - PixelId(xPosition, yPosition, 0, 0);
            d / 64 == r && d % 64 == c
  {
    var d := PixelId(xPosition, yPosition, r, c) - PixelId(xPosition, yPosition, 0, 0);
    assert d == r * 64 + c;
  }

  /** Pixel c of sprite row r, when its index is inside the buffer, becomes its old value
      XOR bit 7 - c of the row. */
  lemma OldCellAt(fb: seq<bv8>, xPosition: u8, yPosition: u8, sprite: seq<bv8>, r: nat, c: nat)
    requires r < |sprite| && c < 8 && PixelId(xPosition, yPosition, r, c) < |fb|
    ensures var k := PixelId(xPosition, yPosition, r, c);
            DrawOldCells(fb, xPosition, yPosition, sprite)[k] == fb[k] ^ SpriteBit(sprite[r], c)
  {
    PixelDecode(xPosition, yPosition, r, c);
  }

  /** Drawing the same sprite at the same place twice restores the framebuffer. */
  lemma DrawOldTwiceRestores(fb: seq<bv8>, xPosition: u8, yPosition: u8, sprite: seq<bv8>)
    ensures DrawOldCells(DrawOldCells(fb, xPosition, yPosition, sprite), xPosition, yPosition, sprite) == fb
  {
    var twice := DrawOldCells(DrawOldCells(fb, xPosition, yPosition, sprite), xPosition, yPosition, sprite);
    forall k | 0 <= k < |fb|
      ensures twice[k] == fb[k]
    {
    }
  }

  /** A framebuffer of 0/1 cells stays one of 0/1 cells. */
  lemma DrawOldKeepsBits(fb: seq<bv8>, xPosition: u8, yPosition: u8, sprite: seq<bv8>)
    requires forall k :: 0 <= k < |fb| ==> fb[k] <= 1
    ensures var after := DrawOldCells(fb, xPosition, yPosition, sprite);
            forall k :: 0 <= k < |after| ==> after[k] <= 1
  {
    var after := DrawOldCells(fb, xPosition, yPosition, sprite);
    forall k | 0 <= k < |after|
      ensures after[k] <= 1
    {
      var b := OldBit(sprite, xPosition, yPosition, k);
      assert b <= 1;
    }
  }

  /** A cell the first draw lights (off before, sprite bit set) makes the second draw of the
      same sprite at the same place report a collision. */
  lemma SecondDrawCollides(fb: seq<bv8>, xPosition: u8, yPosition: u8, sprite: seq<bv8>, k: nat)
    requires k < |fb| && fb[k] == 0 && OldBit(sprite, xPosition, yPosition, k) > 0
    ensures DrawOldCells(fb, xPosition, yPosition, sprite)[k] > 0
    ensures DrawOldCollides(DrawOldCells(fb, xPosition, yPosition, sprite), xPosition, yPosition, sprite)
  {
    var once := DrawOldCells(fb, xPosition, yPosition, sprite);
    assert OldCollisionAt(once, xPosition, yPosition, sprite, k);
  }

  /** Of two draws of the same sprite at the same place, at least one reports a collision
      as soon as some in-buffer pixel of the sprite is set: either the cell was lit before
      the first draw, or the first draw lit it. */
  lemma DrawOldTwiceCollides(fb: seq<bv8>, xPosition: u8, yPosition: u8, sprite: seq<bv8>, k: nat)
    requires k < |fb| && OldBit(sprite, xPosition, yPosition, k) > 0
    ensures DrawOldCollides(fb, xPosition, yPosition, sprite) ||
            DrawOldCollides(DrawOldCells(fb, xPosition, yPosition, sprite), xPosition, yPosition, sprite)
  {
    if fb[k] > 0 {
      assert OldCollisionAt(fb, xPosition, yPosition, sprite, k);
    } else {
      SecondDrawCollides(fb, xPosition, yPosition, sprite, k);
    }
  }

  // ---------------------------------------------------------------- DrawOld, loop by loop

  /** The framebuffer once the inner loop has visited pixels [0, cols) of sprite row r,
      starting from `fb`: each visited cell inside the buffer is XORed with its pixel. */
  function OldRowPixels(fb: seq<bv8>, xPosition: u8, yPosition: u8, sprite: seq<bv8>, r: nat, cols: nat): (s: seq<bv8>)
    requires r < |sprite| && cols <= 8
    ensures |s| == |fb|
    decreases cols
  {
    if cols == 0 then fb
    else
      var prev := OldRowPixels(fb, xPosition, yPosition, sprite, r, cols - 1);
      var p := PixelId(xPosition, yPosition, r, cols - 1);
      if p < |prev| then prev[p := prev[p] ^ SpriteBit(sprite[r], cols - 1)] else prev
  }

  /** The flag those visits raise: a visited cell was non-zero, at its turn, under a set pixel. */
  predicate OldRowCollides(fb: seq<bv8>, xPosition: u8, yPosition: u8, sprite: seq<bv8>, r: nat, cols: nat)
    requires r < |sprite| && cols <= 8
    decreases cols
  {
    cols > 0 &&
    (OldRowCollides(fb, xPosition, yPosition, sprite, r, cols - 1) ||
     var prev := OldRowPixels(fb, xPosition, yPosition, sprite, r, cols - 1);
     var p := PixelId(xPosition, yPosition, r, cols - 1);
     p < |prev| && prev[p] > 0 && SpriteBit(sprite[r], cols - 1) > 0)
  }

  /** One more pass of the inner loop: pixel `cols` of row r, XORed in and tested if its
      cell is inside the buffer. */
  lemma OldRowStep(fb: seq<bv8>, xPosition: u8, yPosition: u8, sprite: seq<bv8>, r: nat, cols: nat)
    requires r < |sprite| && cols < 8
    ensures var prev := OldRowPixels(fb, xPosition, yPosition, sprite, r, cols);
            var p := PixelId(xPosition, yPosition, r, cols);
            && OldRowPixels(fb, xPosition, yPosition, sprite, r, cols + 1)
               == (if p < |prev| then prev[p := prev[p] ^ SpriteBit(sprite[r], cols)] else prev)
            && OldRowCollides(fb, xPosition, yPosition, sprite, r, cols + 1)
               == (OldRowCollides(fb, xPosition, yPosition, sprite, r, cols) ||
                   (p < |prev| && prev[p] > 0 && SpriteBit(sprite[r], cols) > 0))
  {
  }

  /** The framebuffer once the outer loop has drawn sprite rows [0, rows). */
  function OldRows(fb: seq<bv8>, xPosition: u8, yPosition: u8, sprite: seq<bv8>, rows: nat): (s: seq<bv8>)
    requires rows <= |sprite|
    ensures |s| == |fb|
    decreases rows
  {
    if rows == 0 then fb
    else OldRowPixels(OldRows(fb, xPosition, yPosition, sprite, rows - 1), xPosition, yPosition, sprite, rows - 1, SpriteWidth)
  }

  /** The flag once those rows are drawn. */
  predicate OldRowsCollide(fb: seq<bv8>, xPosition: u8, yPosition: u8, sprite: seq<bv8>, rows: nat)
    requires rows <= |sprite|
    decreases rows
  {
    rows > 0 &&
    (OldRowsCollide(fb, xPosition, yPosition, sprite, rows - 1) ||
     OldRowCollides(OldRows(fb, xPosition, yPosition, sprite, rows - 1), xPosition, yPosition, sprite, rows - 1, SpriteWidth))
  }

  /** The outer loop's step: one more row is the inner loop run over all of its pixels. */
  lemma OldRowsStep(fb: seq<bv8>, xPosition: u8, yPosition: u8, sprite: seq<bv8>, r: nat)
    requires r < |sprite|
    ensures OldRows(fb, xPosition, yPosition, sprite, r + 1)
            == OldRowPixels(OldRows(fb, xPosition, yPosition, sprite, r), xPosition, yPosition, sprite, r, SpriteWidth)
    ensures OldRowsCollide(fb, xPosition, yPosition, sprite, r + 1)
            == (OldRowsCollide(fb, xPosition, yPosition, sprite, r) ||
                OldRowCollides(OldRows(fb, xPosition, yPosition, sprite, r), xPosition, yPosition, sprite, r, SpriteWidth))
  {
  }

  /** The sprite bit of the cell of pixel c of row r is pixel c of row r. */
  lemma OldBitAt(xPosition: u8, yPosition: u8, sprite: seq<bv8>, r: nat, c: nat)
    requires r < |sprite| && c < 8
    ensures OldBit(sprite, xPosition, yPosition, PixelId(xPosition, yPosition, r, c)) == SpriteBit(sprite[r], c)
  {
    PixelDecode(xPosition, yPosition, r, c);
  }

  /** Cells before the sprite's top-left pixel, and cells between two sprite rows, are not
      covered by the sprite. */
  lemma OldBitOutside(xPosition: u8, yPosition: u8, sprite: seq<bv8>, r: nat, k: nat)
    requires k < PixelId(xPosition, yPosition, 0, 0) ||
             PixelId(xPosition, yPosition, r, 8) <= k < PixelId(xPosition, yPosition, r + 1, 0)
    ensures OldBit(sprite, xPosition, yPosition, k) == 0
  {
    var base := PixelId(xPosition, yPosition, 0, 0);
    if base <= k {
      var d := k - base;
      assert r * 64 + 8 <= d < r * 64 + 64;
      assert d / 64 == r;
    }
  }

  /** Cell-wise, the inner loop over row r XORs the closed-form bit into the visited cells
      and leaves every other cell alone. */
  lemma {:induction false} OldRowPixelsCells(fb: seq<bv8>, xPosition: u8, yPosition: u8, sprite: seq<bv8>,
                                             r: nat, cols: nat, k: nat)
    requires r < |sprite| && cols <= 8 && k < |fb|
    ensures OldRowPixels(fb, xPosition, yPosition, sprite, r, cols)[k]
            == if PixelId(xPosition, yPosition, r, 0) <= k < PixelId(xPosition, yPosition, r, cols)
               then fb[k] ^ OldBit(sprite, xPosition, yPosition, k) else fb[k]
    decreases cols
  {
    if cols > 0 {
      OldRowPixelsCells(fb, xPosition, yPosition, sprite, r, cols - 1, k);
      OldBitAt(xPosition, yPosition, sprite, r, cols - 1);
    }
  }

  /** The inner loop's flag is set exactly when one of the visited cells collides. */
  lemma {:induction false} OldRowCollidesMeaning(fb: seq<bv8>, xPosition: u8, yPosition: u8, sprite: seq<bv8>,
                                                 r: nat, cols: nat)
    requires r < |sprite| && cols <= 8
    ensures OldRowCollides(fb, xPosition, yPosition, sprite, r, cols) <==>
            exists k: nat :: PixelId(xPosition, yPosition, r, 0) <= k < PixelId(xPosition, yPosition, r, cols)
                             && OldCollisionAt(fb, xPosition, yPosition, sprite, k)
    decreases cols
  {
    var first := PixelId(xPosition, yPosition, r, 0);
    if cols > 0 {
      OldRowCollidesMeaning(fb, xPosition, yPosition, sprite, r, cols - 1);
      var p := PixelId(xPosition, yPosition, r, cols - 1);
      OldBitAt(xPosition, yPosition, sprite, r, cols - 1);
      if p < |fb| {
        OldRowPixelsCells(fb, xPosition, yPosition, sprite, r, cols - 1, p);
        if fb[p] > 0 && SpriteBit(sprite[r], cols - 1) > 0 {
          assert OldCollisionAt(fb, xPosition, yPosition, sprite, p);
        }
      }
      assert p + 1 == PixelId(xPosition, yPosition, r, cols);
      if OldRowCollides(fb, xPosition, yPosition, sprite, r, cols - 1) {
        var k: nat :| first <= k < p && OldCollisionAt(fb, xPosition, yPosition, sprite, k);
        assert first <= k < p + 1;
      }
      if exists k: nat :: first <= k < p + 1 && OldCollisionAt(fb, xPosition, yPosition, sprite, k) {
        var k: nat :| first <= k < p + 1 && OldCollisionAt(fb, xPosition, yPosition, sprite, k);
        if k < p {
          assert exists k': nat :: first <= k' < p && OldCollisionAt(fb, xPosition, yPosition, sprite, k');
        }
      }
    }
  }

  /** Cell-wise, the outer loop has drawn every cell before the top-left of row `rows`. */
  lemma {:induction false} OldRowsCells(fb: seq<bv8>, xPosition: u8, yPosition: u8, sprite: seq<bv8>,
                                        rows: nat, k: nat)
    requires rows <= |sprite| && k < |fb|
    ensures OldRows(fb, xPosition, yPosition, sprite, rows)[k]
            == if k < PixelId(xPosition, yPosition, rows, 0) then fb[k] ^ OldBit(sprite, xPosition, yPosition, k)
               else fb[k]
    decreases rows
  {
    if rows > 0 {
      var r := rows - 1;
      var before := OldRows(fb, xPosition, yPosition, sprite, r);
      var first, last, next := PixelId(xPosition, yPosition, r, 0), PixelId(xPosition, yPosition, r, 8),
                               PixelId(xPosition, yPosition, rows, 0);
      assert first <= last <= next;
      OldRowsCells(fb, xPosition, yPosition, sprite, r, k);
      OldRowPixelsCells(before, xPosition, yPosition, sprite, r, SpriteWidth, k);
      if last <= k < next {
        OldBitOutside(xPosition, yPosition, sprite, r, k);
        assert fb[k] ^ 0 == fb[k];
      }
    }
  }

  /** The outer loop's flag is set exactly when a cell before row `rows` collides. */
  lemma {:induction false} OldRowsCollideMeaning(fb: seq<bv8>, xPosition: u8, yPosition: u8, sprite: seq<bv8>,
                                                 rows: nat)
    requires rows <= |sprite|
    ensures OldRowsCollide(fb, xPosition, yPosition, sprite, rows) <==>
            exists k: nat :: k < PixelId(xPosition, yPosition, rows, 0) && OldCollisionAt(fb, xPosition, yPosition, sprite, k)
    decreases rows
  {
    if rows != 0 {
      var r := rows - 1;
      var before := OldRows(fb, xPosition, yPosition, sprite, r);
      var first, last, next := PixelId(xPosition, yPosition, r, 0), PixelId(xPosition, yPosition, r, 8),
                               PixelId(xPosition, yPosition, rows, 0);
      OldRowsCollideMeaning(fb, xPosition, yPosition, sprite, r);
      OldRowCollidesMeaning(before, xPosition, yPosition, sprite, r, SpriteWidth);
      if OldRowCollides(before, xPosition, yPosition, sprite, r, SpriteWidth) {
        var k: nat :| first <= k < last && OldCollisionAt(before, xPosition, yPosition, sprite, k);
        OldRowsCells(fb, xPosition, yPosition, sprite, r, k);
        assert OldCollisionAt(fb, xPosition, yPosition, sprite, k);
      }
      if exists k: nat :: k < next && OldCollisionAt(fb, xPosition, yPosition, sprite, k) {
        var k: nat :| k < next && OldCollisionAt(fb, xPosition, yPosition, sprite, k);
        if first <= k {
          OldRowCellCollides(fb, xPosition, yPosition, sprite, r, k);
        }
      }
    }
  }

  /** A colliding cell inside row r's stretch lies under the row's 8 pixels and still
      collides once the rows above it have been drawn. */
  lemma OldRowCellCollides(fb: seq<bv8>, xPosition: u8, yPosition: u8, sprite: seq<bv8>, r: nat, k: nat)
    requires r < |sprite| && OldCollisionAt(fb, xPosition, yPosition, sprite, k)
    requires PixelId(xPosition, yPosition, r, 0) <= k < PixelId(xPosition, yPosition, r + 1, 0)
    ensures k < PixelId(xPosition, yPosition, r, 8)
    ensures OldCollisionAt(OldRows(fb, xPosition, yPosition, sprite, r), xPosition, yPosition, sprite, k)
  {
    if PixelId(xPosition, yPosition, r, 8) <= k {
      OldBitOutside(xPosition, yPosition, sprite, r, k);
    }
    OldRowsCells(fb, xPosition, yPosition, sprite, r, k);
  }

  /** Past the last row nothing more is covered: the two loops draw DrawOldCells. */
  lemma OldRowsComplete(fb: seq<bv8>, xPosition: u8, yPosition: u8, sprite: seq<bv8>)
    ensures OldRows(fb, xPosition, yPosition, sprite, |sprite|) == DrawOldCells(fb, xPosition, yPosition, sprite)
  {
    var drawn, whole := OldRows(fb, xPosition, yPosition, sprite, |sprite|), DrawOldCells(fb, xPosition, yPosition, sprite);
    forall k | 0 <= k < |fb|
      ensures drawn[k] == whole[k]
    {
      OldRowsCells(fb, xPosition, yPosition, sprite, |sprite|, k);
      if PixelId(xPosition, yPosition, |sprite|, 0) <= k {
        OldBitPastEnd(xPosition, yPosition, sprite, k);
      }
    }
  }

  /** Likewise the flag the two loops raise is DrawOldCollides. */
  lemma OldRowsCollideComplete(fb: seq<bv8>, xPosition: u8, yPosition: u8, sprite: seq<bv8>)
    ensures OldRowsCollide(fb, xPosition, yPosition, sprite, |sprite|) == DrawOldCollides(fb, xPosition, yPosition, sprite)
  {
    OldRowsCollideMeaning(fb, xPosition, yPosition, sprite, |sprite|);
    if DrawOldCollides(fb, xPosition, yPosition, sprite) {
      var k: nat :| OldCollisionAt(fb, xPosition, yPosition, sprite, k);
      if PixelId(xPosition, yPosition, |sprite|, 0) <= k {
        OldBitPastEnd(xPosition, yPosition, sprite, k);
      }
    }
  }

  /** Cells from the start of row |sprite| on lie below the sprite. */
  lemma OldBitPastEnd(xPosition: u8, yPosition: u8, sprite: seq<bv8>, k: nat)
    requires PixelId(xPosition, yPosition, |sprite|, 0) <= k
    ensures OldBit(sprite, xPosition, yPosition, k) == 0
  {
    assert (k - PixelId(xPosition, yPosition, 0, 0)) / 64 >= |sprite|;
  }

  /** A sprite row after `c` executions of `spriteLine <<= 1`. DrawOld's inner loop keeps
      its row in this form; naming the shift keeps the loop's bit-vector reasoning small. */
  function ShiftedLine(line: bv8, c: nat): bv8
    requires c <= 8
  {
    line << c
  }

  /** DrawOld reads the pixel as the top bit of the row shifted left once per pixel
      already written: that is pixel c of the row. */
  lemma {:induction false} ShiftedTopBit(line: bv8, c: nat)
    requires c < 8
    ensures ((line << c) & MSB) >> 7 == SpriteBit(line, c)
    decreases c
  {
    if c > 0 {
      ShiftedTopBit(line << 1, c - 1);
      assert (line << 1) << (c - 1) == line << c;
    }
  }

  /** What one visit of DrawOld does to the row it shifts: the top bit is pixel c, and the
      shifted row is the row after c + 1 shifts. */
  lemma NextSpritePixel(line: bv8, c: nat, spriteLine: bv8)
    requires c < 8 && spriteLine == ShiftedLine(line, c)
    ensures (spriteLine & MSB) >> 7 == SpriteBit(line, c)
    ensures spriteLine << 1 == ShiftedLine(line, c + 1)
  {
    ShiftedTopBit(line, c);
    assert (line << c) << 1 == line << (c + 1);
  }
}
