/** Pixel formats of SC textures and their unpacking into RGBA8.

    Each decoder is specified by a function giving byte `k` of its output
    (`...At`) and the whole output (`...Of`), and implemented by a method
    that fills a freshly allocated buffer in a loop, as the decoders of
    lib/file/parsers/Pixels.js do. Multi-byte reads are little-endian. */
module Pixels {
  import opened Bytes
  import opened TileOrder

  // ---------------------------------------------------------------------
  // Format 0: premultiplied RGBA, un-premultiplied in place.

  /** Byte `k` after un-premultiplying. A JavaScript `Uint8Array` store
      truncates and wraps, so a colour becomes `floor(c * 255 / a) mod 256`.
      In a trailing group of fewer than 4 bytes the alpha read is
      `undefined`, the quotient is NaN and every stored colour byte is 0. */
  function DepremultipliedAt(px: seq<byte>, k: nat): byte
    requires k < |px|
  {
    var g := k - k % 4;
    if g + 3 >= |px| then 0
    else if k % 4 == 3 then px[k]
    else
      var a := px[g + 3];
      if a == 0 then px[k] else Unpremultiply(px[k], a)
  }

  /** One colour byte divided by its alpha, as stored in a byte. */
  function Unpremultiply(c: byte, a: byte): byte
    requires a > 0
  {
    (c as int * 255 / a) % 256
  }

  lemma QuotientNoWrap(c: int, a: int)
    requires 0 < a && 0 <= c <= a
    ensures c * 255 / a < 256
  {
    MulMono(255, c, a);
    QuotBelow(c * 255, a, 256);
  }

  function Depremultiplied(px: seq<byte>): (r: seq<byte>)
    ensures |r| == |px|
    // alpha bytes are kept
    ensures forall k | 0 <= k < |px| && k % 4 == 3 :: r[k] == px[k]
    // a pixel whose alpha is 0 is kept whole
    ensures forall k | 0 <= k < |px| && k - k % 4 + 3 < |px| && px[k - k % 4 + 3] == 0 :: r[k] == px[k]
  {
    seq(|px|, k requires 0 <= k < |px| => DepremultipliedAt(px, k))
  }

  /** A colour byte not above its (non-zero) alpha scales into 0..255
      without the wrap-around of the byte store. */
  lemma DepremultiplyNoWrap(px: seq<byte>, k: nat)
    requires k < |px| && k % 4 < 3 && k - k % 4 + 3 < |px|
    requires 0 < px[k - k % 4 + 3] && px[k] <= px[k - k % 4 + 3]
    ensures Depremultiplied(px)[k] as int == px[k] as int * 255 / px[k - k % 4 + 3] as int
  {
    var c, a := px[k] as int, px[k - k % 4 + 3] as int;
    QuotientNoWrap(c, a);
    var q := c * 255 / a;
    assert Unpremultiply(px[k], px[k - k % 4 + 3]) == q % 256 == q;
    assert Depremultiplied(px)[k] == DepremultipliedAt(px, k);
  }

  /** `rgba_depremultiply`: rewrites the buffer in place. */
  method Depremultiply(a: array<byte>)
    modifies a
    ensures a[..] == Depremultiplied(old(a[..]))
  {
    ghost var px := a[..];
    var len := a.Length;
    var i := 0;
    while i < len
      invariant 0 <= i && i % 4 == 0 && i <= len + 3
      invariant forall k | 0 <= k < len && k < i :: a[k] == DepremultipliedAt(px, k)
      invariant forall k | i <= k < len :: a[k] == px[k]
      decreases len - i
    {
      if i + 3 < len {
        var al := a[i + 3];
        if al != 0 {
          a[i] := Unpremultiply(a[i], al);
          a[i + 1] := Unpremultiply(a[i + 1], al);
          a[i + 2] := Unpremultiply(a[i + 2], al);
        }
      } else {
        // the alpha byte is missing: NaN is stored as 0
        a[i] := 0;
        if i + 1 < len { a[i + 1] := 0; }
        if i + 2 < len { a[i + 2] := 0; }
      }
      i := i + 4;
    }
  }

  // ---------------------------------------------------------------------
  // Formats 2, 4 and 6: one little-endian 16-bit word per pixel.

  /** The 16-bit word of pixel `g`. */
  function Word(px: seq<byte>, g: nat): nat
    requires 2 * g + 1 < |px|
  {
    LE16(px[2 * g..])
  }

  /** Format 2 (`rgba_16`): four nibbles R, G, B, A from high to low, each
      moved to the high half of its byte. */
  function Rgba4444At(px: seq<byte>, k: nat): byte
    requires |px| % 2 == 0 && k < 2 * |px|
  {
    var v := Word(px, k / 4);
    match k % 4
    case 0 => (v / 4096) % 16 * 16
    case 1 => (v / 256) % 16 * 16
    case 2 => (v / 16) % 16 * 16
    case _ => v % 16 * 16
  }

  function Rgba4444Of(px: seq<byte>): (r: seq<byte>)
    requires |px| % 2 == 0
    ensures |r| == 2 * |px|
    ensures forall k | 0 <= k < |r| :: r[k] % 16 == 0
  {
    seq(2 * |px|, k requires 0 <= k < 2 * |px| => Rgba4444At(px, k))
  }

  /** Format 4 (`rgba_565`): R = bits 11..15, G = bits 5..10, B = bits 0..4,
      each shifted to the top of its byte; A = 255. */
  function Rgb565At(px: seq<byte>, k: nat): byte
    requires |px| % 2 == 0 && k < 2 * |px|
  {
    var v := Word(px, k / 4);
    match k % 4
    case 0 => (v / 2048) % 32 * 8
    case 1 => (v / 32) % 64 * 4
    case 2 => v % 32 * 8
    case _ => 255
  }

  function Rgb565Of(px: seq<byte>): (r: seq<byte>)
    requires |px| % 2 == 0
    ensures |r| == 2 * |px|
    ensures forall k | 0 <= k < |r| && k % 4 == 3 :: r[k] == 255
    ensures forall k | 0 <= k < |r| && k % 4 != 1 && k % 4 != 3 :: r[k] % 8 == 0
    ensures forall k | 0 <= k < |r| && k % 4 == 1 :: r[k] % 4 == 0
  {
    seq(2 * |px|, k requires 0 <= k < 2 * |px| => Rgb565At(px, k))
  }

  /** Format 6 (`rgba_LA88`): the high byte of the word is the luminance for
      R, G and B, the low byte is A. */
  function La88At(px: seq<byte>, k: nat): byte
    requires |px| % 2 == 0 && k < 2 * |px|
  {
    var v := Word(px, k / 4);
    if k % 4 < 3 then v / 256 else v % 256
  }

  function La88Of(px: seq<byte>): (r: seq<byte>)
    requires |px| % 2 == 0
    ensures |r| == 2 * |px|
    ensures forall k | 0 <= k < |r| ::
      r[k] == if k % 4 < 3 then px[2 * (k / 4) + 1] else px[2 * (k / 4)]
  {
    seq(2 * |px|, k requires 0 <= k < 2 * |px| => La88At(px, k))
  }

  // ---------------------------------------------------------------------
  // Formats 8 and 10: one byte per pixel.

  /** Format 8 (`rgba_233`): R = b & 3 (not shifted), G = ((b >> 2) & 7) << 2,
      B = ((b >> 5) & 7) << 5, A = 255. */
  function Rgb233At(px: seq<byte>, k: nat): byte
    requires k < 4 * |px|
  {
    var b := px[k / 4];
    match k % 4
    case 0 => b % 4
    case 1 => (b / 4) % 8 * 4
    case 2 => (b / 32) % 8 * 32
    case _ => 255
  }

  function Rgb233Of(px: seq<byte>): (r: seq<byte>)
    ensures |r| == 4 * |px|
    ensures forall k | 0 <= k < |r| && k % 4 == 0 :: r[k] <= 3
    ensures forall k | 0 <= k < |r| && k % 4 == 3 :: r[k] == 255
  {
    seq(4 * |px|, k requires 0 <= k < 4 * |px| => Rgb233At(px, k))
  }

  /** Format 10 (`rgba_L8`): the byte is R, G and B; A = 255. */
  function L8At(px: seq<byte>, k: nat): byte
    requires k < 4 * |px|
  {
    if k % 4 < 3 then px[k / 4] else 255
  }

  function L8Of(px: seq<byte>): (r: seq<byte>)
    ensures |r| == 4 * |px|
    ensures forall k | 0 <= k < |r| :: r[k] == if k % 4 < 3 then px[k / 4] else 255
  {
    seq(4 * |px|, k requires 0 <= k < 4 * |px| => L8At(px, k))
  }

  /** Byte `ii + c` of the output is channel `c` of pixel `g`. */
  lemma GroupOf(ii: nat, g: nat, c: nat)
    requires ii == 4 * g && c < 4
    ensures (ii + c) / 4 == g && (ii + c) % 4 == c
  {
    DivModOf(ii + c, 4, g, c);
  }

  /** Writing the four bytes of pixel `g` extends the decoded prefix. */
  lemma Rgba4444Step(px: seq<byte>, before: seq<byte>, after: seq<byte>, g: nat)
    requires |px| % 2 == 0 && 2 * g + 1 < |px| && |before| == |after| == 2 * |px|
    requires forall k | 0 <= k < 4 * g :: before[k] == Rgba4444At(px, k)
    requires var v := Word(px, g);
      after == before[4 * g := (v / 4096) % 16 * 16][4 * g + 1 := (v / 256) % 16 * 16]
                     [4 * g + 2 := (v / 16) % 16 * 16][4 * g + 3 := v % 16 * 16]
    ensures forall k | 0 <= k < 4 * g + 4 :: after[k] == Rgba4444At(px, k)
  {
    GroupOf(4 * g, g, 0); GroupOf(4 * g, g, 1); GroupOf(4 * g, g, 2); GroupOf(4 * g, g, 3);
  }

  method Rgba4444(px: seq<byte>) returns (out: seq<byte>)
    requires |px| % 2 == 0
    ensures out == Rgba4444Of(px)
  {
    var a := new byte[|px| * 2](_ => 0);
    var i, ii := 0, 0;
    ghost var g, n := 0, |px| / 2;
    while i < |px|
      invariant 0 <= i <= |px| == 2 * n && i == 2 * g && ii == 4 * g
      invariant forall k | 0 <= k < ii :: a[k] == Rgba4444At(px, k)
    {
      var v := LE16(px[i..]);
      ghost var before := a[..];
      a[ii] := (v / 4096) % 16 * 16;
      a[ii + 1] := (v / 256) % 16 * 16;
      a[ii + 2] := (v / 16) % 16 * 16;
      a[ii + 3] := v % 16 * 16;
      Rgba4444Step(px, before, a[..], g);
      i, ii, g := i + 2, ii + 4, g + 1;
    }
    out := a[..];
  }

  /** Writing the four bytes of pixel `g` extends the decoded prefix. */
  lemma Rgb565Step(px: seq<byte>, before: seq<byte>, after: seq<byte>, g: nat)
    requires |px| % 2 == 0 && 2 * g + 1 < |px| && |before| == |after| == 2 * |px|
    requires forall k | 0 <= k < 4 * g :: before[k] == Rgb565At(px, k)
    requires var v := Word(px, g);
      after == before[4 * g := (v / 2048) % 32 * 8][4 * g + 1 := (v / 32) % 64 * 4]
                     [4 * g + 2 := v % 32 * 8][4 * g + 3 := 255]
    ensures forall k | 0 <= k < 4 * g + 4 :: after[k] == Rgb565At(px, k)
  {
    GroupOf(4 * g, g, 0); GroupOf(4 * g, g, 1); GroupOf(4 * g, g, 2); GroupOf(4 * g, g, 3);
  }

  method Rgb565(px: seq<byte>) returns (out: seq<byte>)
    requires |px| % 2 == 0
    ensures out == Rgb565Of(px)
  {
    var a := new byte[|px| * 2](_ => 0);
    var i, ii := 0, 0;
    ghost var g, n := 0, |px| / 2;
    while i < |px|
      invariant 0 <= i <= |px| == 2 * n && i == 2 * g && ii == 4 * g
      invariant forall k | 0 <= k < ii :: a[k] == Rgb565At(px, k)
    {
      var v := LE16(px[i..]);
      ghost var before := a[..];
      a[ii] := (v / 2048) % 32 * 8;
      a[ii + 1] := (v / 32) % 64 * 4;
      a[ii + 2] := v % 32 * 8;
      a[ii + 3] := 255;
      Rgb565Step(px, before, a[..], g);
      i, ii, g := i + 2, ii + 4, g + 1;
    }
    out := a[..];
  }

  /** Writing the four bytes of pixel `g` extends the decoded prefix. */
  lemma La88Step(px: seq<byte>, before: seq<byte>, after: seq<byte>, g: nat)
    requires |px| % 2 == 0 && 2 * g + 1 < |px| && |before| == |after| == 2 * |px|
    requires forall k | 0 <= k < 4 * g :: before[k] == La88At(px, k)
    requires var v := Word(px, g);
      after == before[4 * g := v / 256][4 * g + 1 := v / 256]
                     [4 * g + 2 := v / 256][4 * g + 3 := v % 256]
    ensures forall k | 0 <= k < 4 * g + 4 :: after[k] == La88At(px, k)
  {
    GroupOf(4 * g, g, 0); GroupOf(4 * g, g, 1); GroupOf(4 * g, g, 2); GroupOf(4 * g, g, 3);
  }

  method La88(px: seq<byte>) returns (out: seq<byte>)
    requires |px| % 2 == 0
    ensures out == La88Of(px)
  {
    var a := new byte[|px| * 2](_ => 0);
    var i, ii := 0, 0;
    ghost var g, n := 0, |px| / 2;
    while i < |px|
      invariant 0 <= i <= |px| == 2 * n && i == 2 * g && ii == 4 * g
      invariant forall k | 0 <= k < ii :: a[k] == La88At(px, k)
    {
      var v := LE16(px[i..]);
      ghost var before := a[..];
      a[ii] := v / 256;
      a[ii + 1] := v / 256;
      a[ii + 2] := v / 256;
      a[ii + 3] := v % 256;
      La88Step(px, before, a[..], g);
      i, ii, g := i + 2, ii + 4, g + 1;
    }
    out := a[..];
  }

  /** Writing the four bytes of pixel `i` extends the decoded prefix. */
  lemma Rgb233Step(px: seq<byte>, before: seq<byte>, after: seq<byte>, i: nat)
    requires i < |px| && |before| == |after| == 4 * |px|
    requires forall k | 0 <= k < 4 * i :: before[k] == Rgb233At(px, k)
    requires after == before[4 * i := px[i] % 4][4 * i + 1 := (px[i] / 4) % 8 * 4]
                            [4 * i + 2 := (px[i] / 32) % 8 * 32][4 * i + 3 := 255]
    ensures forall k | 0 <= k < 4 * i + 4 :: after[k] == Rgb233At(px, k)
  {
    GroupOf(4 * i, i, 0); GroupOf(4 * i, i, 1); GroupOf(4 * i, i, 2); GroupOf(4 * i, i, 3);
  }

  method Rgb233(px: seq<byte>) returns (out: seq<byte>)
    ensures out == Rgb233Of(px)
  {
    var a := new byte[|px| * 4](_ => 0);
    var i, ii := 0, 0;
    while i < |px|
      invariant 0 <= i <= |px| && ii == 4 * i
      invariant forall k | 0 <= k < ii :: a[k] == Rgb233At(px, k)
    {
      var b := px[i];
      ghost var before := a[..];
      a[ii] := b % 4;
      a[ii + 1] := (b / 4) % 8 * 4;
      a[ii + 2] := (b / 32) % 8 * 32;
      a[ii + 3] := 255;
      Rgb233Step(px, before, a[..], i);
      i, ii := i + 1, ii + 4;
    }
    out := a[..];
  }

  /** Writing the four bytes of pixel `i` extends the decoded prefix. */
  lemma L8Step(px: seq<byte>, before: seq<byte>, after: seq<byte>, i: nat)
    requires i < |px| && |before| == |after| == 4 * |px|
    requires forall k | 0 <= k < 4 * i :: before[k] == L8At(px, k)
    requires after == before[4 * i := px[i]][4 * i + 1 := px[i]]
                            [4 * i + 2 := px[i]][4 * i + 3 := 255]
    ensures forall k | 0 <= k < 4 * i + 4 :: after[k] == L8At(px, k)
  {
    GroupOf(4 * i, i, 0); GroupOf(4 * i, i, 1); GroupOf(4 * i, i, 2); GroupOf(4 * i, i, 3);
  }

  method L8(px: seq<byte>) returns (out: seq<byte>)
    ensures out == L8Of(px)
  {
    var a := new byte[|px| * 4](_ => 0);
    var i, ii := 0, 0;
    while i < |px|
      invariant 0 <= i <= |px| && ii == 4 * i
      invariant forall k | 0 <= k < ii :: a[k] == L8At(px, k)
    {
      var b := px[i];
      ghost var before := a[..];
      a[ii] := b;
      a[ii + 1] := b;
      a[ii + 2] := b;
      a[ii + 3] := 255;
      L8Step(px, before, a[..], i);
      i, ii := i + 1, ii + 4;
    }
    out := a[..];
  }

  // ---------------------------------------------------------------------
  // De-swizzle of 32x32-tiled textures.

  /** Byte `off` of the tiled input; `px.slice(off, off + 4)` reads past the
      end as `undefined`, which a byte store turns into 0. */
  function Src(px: seq<byte>, off: int): byte
  {
    if 0 <= off < |px| then px[off] else 0
  }

  lemma PixelCoords(w: nat, h: nat, p: nat)
    requires p < w * h
    ensures w > 0 && p % w < w && p / w < h && p == (p / w) * w + p % w
  {
    ZeroFactor(h, w);
    QuotBelow(p, w, h);
  }

  /** The stream slot that byte `i` of the image comes from. */
  function SlotOf(w: nat, h: nat, i: nat): (n: nat)
    requires i < 4 * (w * h)
    ensures n < w * h
  {
    PixelCoords(w, h, i / 4);
    TilePosOfIndex(w, h, (i / 4) % w, (i / 4) / w);
    TileIndex(w, h, (i / 4) % w, (i / 4) / w)
  }

  function DemuxedAt(px: seq<byte>, w: nat, h: nat, i: nat): byte
    requires i < 4 * (w * h)
  {
    Src(px, 4 * SlotOf(w, h, i) + i % 4)
  }

  /** The de-swizzled image: `4*w*h` bytes, pixel `(x, y)` at `4*(x + w*y)`. */
  function Demuxed(px: seq<byte>, w: nat, h: nat): (r: seq<byte>)
    ensures |r| == 4 * (w * h)
  {
    seq(4 * (w * h), i requires 0 <= i < 4 * (w * h) => DemuxedAt(px, w, h, i))
  }

  /** Pixel `(x, y)` of the de-swizzled image is the 4 bytes at its stream
      slot, so every slot's bytes land in exactly one pixel (TileOrder). */
  lemma DemuxedPixel(px: seq<byte>, w: nat, h: nat, x: nat, y: nat, c: nat)
    requires x < w && y < h && c < 4
    ensures 4 * (x + w * y) + c < 4 * (w * h)
    ensures Demuxed(px, w, h)[4 * (x + w * y) + c] == Src(px, 4 * TileIndex(w, h, x, y) + c)
  {
    var p := x + w * y;
    MulMono(w, y + 1, h);
    assert w * (y + 1) == w * y + w;
    DivModOf(4 * p + c, 4, p, c);
    DivModOf(p, w, y, x);
    assert DemuxedAt(px, w, h, 4 * p + c) == Src(px, 4 * TileIndex(w, h, x, y) + c);
  }

  /** A value read from a pixel slice; a missing byte is `undefined`, stored as 0. */
  function PixelByte(pixel: seq<byte>, c: nat): byte
  {
    if c < |pixel| then pixel[c] else 0
  }

  /** `px.slice(off, off + 4)`. */
  function Slice4(px: seq<byte>, off: nat): (r: seq<byte>)
    ensures forall c | 0 <= c < 4 :: PixelByte(r, c) == Src(px, off + c)
  {
    if off >= |px| then [] else if off + 4 <= |px| then px[off..off + 4] else px[off..]
  }

  /** `setPixel`: the four bytes of pixel `(x, y)` in a `w`-wide RGBA buffer
      get `pixel`, and nothing else changes; a typed array drops stores past
      its end. */
  method SetPixel(buf: array<byte>, w: nat, x: nat, y: nat, pixel: seq<byte>)
    modifies buf
    ensures forall k | 0 <= k < buf.Length ::
      buf[k] == if 4 * (x + w * y) <= k < 4 * (x + w * y) + 4
                then PixelByte(pixel, k - 4 * (x + w * y)) else old(buf[k])
  {
    var i := x + w * y;
    i := i * 4;
    if i < buf.Length { buf[i] := PixelByte(pixel, 0); }
    if i + 1 < buf.Length { buf[i + 1] := PixelByte(pixel, 1); }
    if i + 2 < buf.Length { buf[i + 2] := PixelByte(pixel, 2); }
    if i + 3 < buf.Length { buf[i + 3] := PixelByte(pixel, 3); }
  }

  /** The image after the first `n` slots of the stream are placed: pixels
      whose slot is below `n` hold their final bytes, the others are 0. */
  ghost predicate Progress(o: seq<byte>, px: seq<byte>, w: nat, h: nat, n: int)
  {
    |o| == 4 * (w * h) &&
    forall i | 0 <= i < |o| :: o[i] == if SlotOf(w, h, i) < n then DemuxedAt(px, w, h, i) else 0
  }

  /** The bytes of pixel `(x, y)` come from its own slot. */
  lemma SlotInside(w: nat, h: nat, x: nat, y: nat, i: nat)
    requires x < w && y < h && 4 * (x + w * y) <= i < 4 * (x + w * y) + 4
    ensures i < 4 * (w * h)
    ensures SlotOf(w, h, i) == TileIndex(w, h, x, y) && i % 4 == i - 4 * (x + w * y)
  {
    var p := x + w * y;
    MulMono(w, y + 1, h);
    assert w * (y + 1) == w * y + w;
    DivModOf(i, 4, p, i - 4 * p);
    DivModOf(p, w, y, x);
  }

  /** Byte `i` of the image belongs to pixel `(a, b)` and comes from that pixel's slot. */
  lemma SlotCoords(w: nat, h: nat, i: nat) returns (a: nat, b: nat)
    requires i < 4 * (w * h)
    ensures a < w && b < h && SlotOf(w, h, i) == TileIndex(w, h, a, b)
    ensures 4 * (a + w * b) <= i < 4 * (a + w * b) + 4
  {
    var q := i / 4;
    PixelCoords(w, h, q);
    a, b := q % w, q / w;
    assert w * b == b * w;
  }

  /** Any other byte comes from another slot. */
  lemma SlotOutside(w: nat, h: nat, x: nat, y: nat, i: nat)
    requires x < w && y < h && i < 4 * (w * h)
    ensures SlotOf(w, h, i) == TileIndex(w, h, x, y) ==> 4 * (x + w * y) <= i < 4 * (x + w * y) + 4
  {
    var a, b := SlotCoords(w, h, i);
    if SlotOf(w, h, i) == TileIndex(w, h, x, y) {
      TileIndexInjective(w, h, a, b, x, y);
    }
  }

  /** Placing the pixel of slot `n` extends the progress to `n + 1`. */
  lemma StepProgress(o: seq<byte>, o': seq<byte>, px: seq<byte>, w: nat, h: nat, n: nat, x: nat, y: nat)
    requires x < w && y < h && TileIndex(w, h, x, y) == n
    requires Progress(o, px, w, h, n) && |o'| == |o|
    requires forall k | 0 <= k < |o| ::
      o'[k] == if 4 * (x + w * y) <= k < 4 * (x + w * y) + 4
               then PixelByte(Slice4(px, 4 * n), k - 4 * (x + w * y)) else o[k]
    ensures Progress(o', px, w, h, n + 1)
  {
    forall i | 0 <= i < |o'|
      ensures o'[i] == if SlotOf(w, h, i) < n + 1 then DemuxedAt(px, w, h, i) else 0
    {
      if 4 * (x + w * y) <= i < 4 * (x + w * y) + 4 {
        SlotInside(w, h, x, y, i);
      } else {
        SlotOutside(w, h, x, y, i);
      }
    }
  }

  /** One `setPixel` of the de-swizzle: the pixel of slot `n`, read at `offset`. */
  method Place(newPx: array<byte>, px: seq<byte>, width: nat, height: nat, x: nat, y: nat, offset: nat, ghost n: nat)
    requires x < width && y < height && TileIndex(width, height, x, y) == n && offset == 4 * n
    requires Progress(newPx[..], px, width, height, n)
    modifies newPx
    ensures Progress(newPx[..], px, width, height, n + 1)
  {
    ghost var before := newPx[..];
    SetPixel(newPx, width, x, y, Slice4(px, offset));
    StepProgress(before, newPx[..], px, width, height, n, x, y);
  }

  lemma FullTileAt(w: nat, h: nat, l: nat, k: nat, j: nat, i: nat)
    requires l < h / 32 && k < w / 32 && j < 32 && i < 32
    ensures i + k * 32 < w && j + l * 32 < h
    ensures TileIndex(w, h, i + k * 32, j + l * 32) == l * (32 * w) + k * 1024 + j * 32 + i
  {
    DivModOf(i + k * 32, 32, k, i);
    DivModOf(j + l * 32, 32, l, j);
    MulMono(32, k + 1, w / 32);
    MulMono(32, l + 1, h / 32);
  }

  lemma PartialTileAt(w: nat, h: nat, l: nat, j: nat, i: nat)
    requires l < h / 32 && j < 32 && i < w % 32
    ensures i + (w - w % 32) < w && j + l * 32 < h
    ensures TileIndex(w, h, i + (w - w % 32), j + l * 32) == l * (32 * w) + (w / 32) * 1024 + j * (w % 32) + i
  {
    DivModOf(j + l * 32, 32, l, j);
    MulMono(32, l + 1, h / 32);
  }

  lemma StripTileAt(w: nat, h: nat, k: nat, j: nat, i: nat)
    requires k < w / 32 && j < h % 32 && i < 32
    ensures i + k * 32 < w && j + (h - h % 32) < h
    ensures TileIndex(w, h, i + k * 32, j + (h - h % 32)) == (h / 32) * (32 * w) + k * (32 * (h % 32)) + j * 32 + i
  {
    DivModOf(i + k * 32, 32, k, i);
    MulMono(32, k + 1, w / 32);
  }

  lemma CornerAt(w: nat, h: nat, j: nat, i: nat)
    requires j < h % 32 && i < w % 32
    ensures i + (w - w % 32) < w && j + (h - h % 32) < h
    ensures TileIndex(w, h, i + (w - w % 32), j + (h - h % 32))
         == (h / 32) * (32 * w) + (w / 32) * (32 * (h % 32)) + j * (w % 32) + i
  {
  }

  /** The full 32x32 tile `(k, l)`: 1024 slots from `l*32*w + k*1024` on. */
  method FullTile(newPx: array<byte>, px: seq<byte>, width: nat, height: nat, l: nat, k: nat, offset0: nat)
    returns (offset: nat)
    requires l < height / 32 && k < width / 32
    requires offset0 == 4 * (l * (32 * width) + k * 1024)
    requires Progress(newPx[..], px, width, height, l * (32 * width) + k * 1024)
    modifies newPx
    ensures offset == offset0 + 4 * 1024
    ensures Progress(newPx[..], px, width, height, l * (32 * width) + k * 1024 + 1024)
  {
    offset := offset0;
    ghost var n := l * (32 * width) + k * 1024;
    for j := 0 to 32
      invariant offset == 4 * n && n == l * (32 * width) + k * 1024 + j * 32
      invariant Progress(newPx[..], px, width, height, n)
    {
      for h := 0 to 32
        invariant offset == 4 * n && n == l * (32 * width) + k * 1024 + j * 32 + h
        invariant Progress(newPx[..], px, width, height, n)
      {
        FullTileAt(width, height, l, k, j, h);
        Place(newPx, px, width, height, h + (k * 32), j + (l * 32), offset, n);
        offset, n := offset + 4, n + 1;
      }
    }
  }

  /** Tile row `l`: its `w/32` full tiles, then the partial tile at the right. */
  method TileRow(newPx: array<byte>, px: seq<byte>, width: nat, height: nat, l: nat, offset0: nat)
    returns (offset: nat)
    requires l < height / 32 && offset0 == 4 * (l * (32 * width))
    requires Progress(newPx[..], px, width, height, l * (32 * width))
    modifies newPx
    ensures offset == 4 * ((l + 1) * (32 * width))
    ensures Progress(newPx[..], px, width, height, (l + 1) * (32 * width))
  {
    offset := offset0;
    for k := 0 to width / 32
      invariant offset == 4 * (l * (32 * width) + k * 1024)
      invariant Progress(newPx[..], px, width, height, l * (32 * width) + k * 1024)
    {
      offset := FullTile(newPx, px, width, height, l, k, offset);
    }
    offset := PartialTile(newPx, px, width, height, l, offset);
    Split(width);
    MulSucc(l, 32 * width);
  }

  /** The tile `w%32` wide at the right end of tile row `l`. */
  method PartialTile(newPx: array<byte>, px: seq<byte>, width: nat, height: nat, l: nat, offset0: nat)
    returns (offset: nat)
    requires l < height / 32
    requires offset0 == 4 * (l * (32 * width) + (width / 32) * 1024)
    requires Progress(newPx[..], px, width, height, l * (32 * width) + (width / 32) * 1024)
    modifies newPx
    ensures offset == offset0 + 4 * (32 * (width % 32))
    ensures Progress(newPx[..], px, width, height, l * (32 * width) + (width / 32) * 1024 + 32 * (width % 32))
  {
    var wm32 := width % 32;
    offset := offset0;
    ghost var n := l * (32 * width) + (width / 32) * 1024;
    for j := 0 to 32
      invariant offset == 4 * n && n == l * (32 * width) + (width / 32) * 1024 + j * wm32
      invariant Progress(newPx[..], px, width, height, n)
    {
      for h := 0 to wm32
        invariant offset == 4 * n && n == l * (32 * width) + (width / 32) * 1024 + j * wm32 + h
        invariant Progress(newPx[..], px, width, height, n)
      {
        PartialTileAt(width, height, l, j, h);
        Place(newPx, px, width, height, h + (width - (width % 32)), j + (l * 32), offset, n);
        offset, n := offset + 4, n + 1;
      }
      MulSucc(j, wm32);
    }
  }

  /** Tile `k` of the strip `h%32` rows high at the bottom. */
  method StripTile(newPx: array<byte>, px: seq<byte>, width: nat, height: nat, k: nat, offset0: nat)
    returns (offset: nat)
    requires k < width / 32
    requires offset0 == 4 * ((height / 32) * (32 * width) + k * (32 * (height % 32)))
    requires Progress(newPx[..], px, width, height, (height / 32) * (32 * width) + k * (32 * (height % 32)))
    modifies newPx
    ensures offset == offset0 + 4 * (32 * (height % 32))
    ensures Progress(newPx[..], px, width, height,
                     (height / 32) * (32 * width) + k * (32 * (height % 32)) + 32 * (height % 32))
  {
    var hm32 := height % 32;
    offset := offset0;
    ghost var n := (height / 32) * (32 * width) + k * (32 * hm32);
    for j := 0 to hm32
      invariant offset == 4 * n && n == (height / 32) * (32 * width) + k * (32 * hm32) + j * 32
      invariant Progress(newPx[..], px, width, height, n)
    {
      for h := 0 to 32
        invariant offset == 4 * n && n == (height / 32) * (32 * width) + k * (32 * hm32) + j * 32 + h
        invariant Progress(newPx[..], px, width, height, n)
      {
        StripTileAt(width, height, k, j, h);
        Place(newPx, px, width, height, h + (k * 32), j + (height - (height % 32)), offset, n);
        offset, n := offset + 4, n + 1;
      }
    }
  }

  /** The bottom-right corner tile, `w%32` by `h%32`. */
  method CornerTile(newPx: array<byte>, px: seq<byte>, width: nat, height: nat, offset0: nat)
    requires offset0 == 4 * ((height / 32) * (32 * width) + (width / 32) * (32 * (height % 32)))
    requires Progress(newPx[..], px, width, height, (height / 32) * (32 * width) + (width / 32) * (32 * (height % 32)))
    modifies newPx
    ensures Progress(newPx[..], px, width, height,
                     (height / 32) * (32 * width) + (width / 32) * (32 * (height % 32)) + (height % 32) * (width % 32))
  {
    var hm32, wm32 := height % 32, width % 32;
    var offset := offset0;
    ghost var n := (height / 32) * (32 * width) + (width / 32) * (32 * hm32);
    for j := 0 to hm32
      invariant offset == 4 * n && n == (height / 32) * (32 * width) + (width / 32) * (32 * hm32) + j * wm32
      invariant Progress(newPx[..], px, width, height, n)
    {
      for h := 0 to wm32
        invariant offset == 4 * n && n == (height / 32) * (32 * width) + (width / 32) * (32 * hm32) + j * wm32 + h
        invariant Progress(newPx[..], px, width, height, n)
      {
        CornerAt(width, height, j, h);
        Place(newPx, px, width, height, h + (width - (width % 32)), j + (height - (height % 32)), offset, n);
        offset, n := offset + 4, n + 1;
      }
      MulSucc(j, wm32);
    }
  }

  /** Before any slot is placed, the zero-filled buffer has no pixel yet. */
  lemma ProgressStart(o: seq<byte>, px: seq<byte>, w: nat, h: nat)
    requires |o| == 4 * (w * h) && forall i | 0 <= i < |o| :: o[i] == 0
    ensures Progress(o, px, w, h, 0)
  {
  }

  /** Once every slot is placed, the buffer is the de-swizzled image. */
  lemma ProgressDone(o: seq<byte>, px: seq<byte>, w: nat, h: nat)
    requires Progress(o, px, w, h, w * h)
    ensures o == Demuxed(px, w, h)
  {
  }

  /** The first loop of `demux`: the `h/32` bands of 32 rows. */
  method Bands(newPx: array<byte>, px: seq<byte>, width: nat, height: nat) returns (offset: nat)
    requires Progress(newPx[..], px, width, height, 0)
    modifies newPx
    ensures offset == 4 * ((height / 32) * (32 * width))
    ensures Progress(newPx[..], px, width, height, (height / 32) * (32 * width))
  {
    offset := 0;
    for l := 0 to height / 32
      invariant offset == 4 * (l * (32 * width))
      invariant Progress(newPx[..], px, width, height, l * (32 * width))
    {
      offset := TileRow(newPx, px, width, height, l, offset);
    }
  }

  /** The second loop of `demux`: the `w/32` tiles of the bottom strip. */
  method Strip(newPx: array<byte>, px: seq<byte>, width: nat, height: nat, offset0: nat) returns (offset: nat)
    requires offset0 == 4 * ((height / 32) * (32 * width))
    requires Progress(newPx[..], px, width, height, (height / 32) * (32 * width))
    modifies newPx
    ensures offset == 4 * ((height / 32) * (32 * width) + (width / 32) * (32 * (height % 32)))
    ensures Progress(newPx[..], px, width, height, (height / 32) * (32 * width) + (width / 32) * (32 * (height % 32)))
  {
    var bands, hm32 := (height / 32) * (32 * width), height % 32;
    offset := offset0;
    for k := 0 to width / 32
      invariant offset == 4 * (bands + k * (32 * hm32))
      invariant Progress(newPx[..], px, width, height, bands + k * (32 * hm32))
    {
      offset := StripTile(newPx, px, width, height, k, offset);
      MulSucc(k, 32 * hm32);
    }
  }

  /** `demux`: reads the tiled stream tile by tile, in the order of
      TileOrder, and writes each pixel at its image position. */
  method Demux(px: seq<byte>, width: nat, height: nat) returns (out: seq<byte>)
    ensures out == Demuxed(px, width, height)
  {
    var newPx := new byte[4 * (width * height)](_ => 0);
    ProgressStart(newPx[..], px, width, height);
    var offset := Bands(newPx, px, width, height);
    offset := Strip(newPx, px, width, height, offset);
    CornerTile(newPx, px, width, height, offset);
    AreaSplit(width, height);
    ProgressDone(newPx[..], px, width, height);
    out := newPx[..];
  }

  /** Only the first `4*w*h` bytes of the tiled stream are read: inputs that
      agree there give the same image. */
  lemma DemuxReadsPrefix(px: seq<byte>, px': seq<byte>, w: nat, h: nat)
    requires Take(px, 4 * (w * h)) == Take(px', 4 * (w * h))
    ensures Demuxed(px, w, h) == Demuxed(px', w, h)
  {
    forall i | 0 <= i < 4 * (w * h)
      ensures DemuxedAt(px, w, h, i) == DemuxedAt(px', w, h, i)
    {
      var off := 4 * SlotOf(w, h, i) + i % 4;
      assert off < 4 * (w * h);
      if off < |px| || off < |px'| {
        assert Take(px, 4 * (w * h))[off] == px[off];
        assert Take(px', 4 * (w * h))[off] == px'[off];
      }
    }
  }

  // ---------------------------------------------------------------------
  // Dispatch.

  /** The pixel types `decode` has a decoder for. */
  predicate Supported(pixelType: int)
  {
    pixelType == 0 || pixelType == 2 || pixelType == 4 || pixelType == 6 || pixelType == 8 || pixelType == 10
  }

  /** The formats that read one 16-bit word per pixel. */
  predicate Wide(pixelType: int)
  {
    pixelType == 2 || pixelType == 4 || pixelType == 6
  }

  /** The texture image types stored as 32x32 tiles. */
  predicate Tiled(imageType: int)
  {
    imageType == 28 || imageType == 27
  }

  /** The format decoders before tiling: `None` stands for the `false` of an
      unsupported type, `Err(RangeError)` for the `readUInt16LE` that throws
      on the last, odd byte of a 16-bit format. */
  function Unpacked(px: seq<byte>, pixelType: int): (r: Result<Option<seq<byte>>>)
    ensures r == Ok(None) <==> !Supported(pixelType)
    ensures r.Err? <==> Wide(pixelType) && |px| % 2 == 1
    ensures r.Ok? && r.value.Some? ==>
      |r.value.value| == (if pixelType == 0 then |px| else if Wide(pixelType) then 2 * |px| else 4 * |px|)
  {
    if Wide(pixelType) && |px| % 2 == 1 then Err(RangeError)
    else if pixelType == 0 then Ok(Some(Depremultiplied(px)))
    else if pixelType == 2 then Ok(Some(Rgba4444Of(px)))
    else if pixelType == 4 then Ok(Some(Rgb565Of(px)))
    else if pixelType == 6 then Ok(Some(La88Of(px)))
    else if pixelType == 8 then Ok(Some(Rgb233Of(px)))
    else if pixelType == 10 then Ok(Some(L8Of(px)))
    else Ok(None)
  }

  /** `Pixels.decode`: unpack, then de-swizzle tiled image types. The
      `pixelType === 32` arm of the tiling test is left out: type 32 has
      already returned `false`. */
  function Decoded(px: seq<byte>, pixelType: int, imageType: int, width: nat, height: nat)
    : (r: Result<Option<seq<byte>>>)
    ensures r == Ok(None) <==> !Supported(pixelType)
    ensures r.Err? <==> Wide(pixelType) && |px| % 2 == 1
    ensures r.Ok? && r.value.Some? && Tiled(imageType) ==> |r.value.value| == 4 * (width * height)
  {
    var out :- Unpacked(px, pixelType);
    match out
    case None => Ok(None)
    case Some(p) => if Tiled(imageType) then Ok(Some(Demuxed(p, width, height))) else Ok(Some(p))
  }

  /** The `pixelType === 32` test never fires: type 32 is not supported. */
  lemma Type32NotTiled(px: seq<byte>, imageType: int, width: nat, height: nat)
    ensures Decoded(px, 32, imageType, width, height) == Ok(None)
  {
  }

  /** De-swizzling happens exactly for tiled image types of supported formats. */
  lemma TiledIff(px: seq<byte>, pixelType: int, imageType: int, width: nat, height: nat)
    requires Unpacked(px, pixelType).Ok? && Unpacked(px, pixelType).value.Some?
    ensures Decoded(px, pixelType, imageType, width, height)
         == Ok(Some(if Tiled(imageType) then Demuxed(Unpacked(px, pixelType).value.value, width, height)
                    else Unpacked(px, pixelType).value.value))
  {
  }

  /** The example of a 565 decode: a white pixel, then a black one. */
  lemma Rgb565Example()
    ensures Rgb565Of([0xFF, 0xFF, 0x00, 0x00]) == [0xF8, 0xFC, 0xF8, 0xFF, 0x00, 0x00, 0x00, 0xFF]
  {
    var px: seq<byte> := [0xFF, 0xFF, 0x00, 0x00];
    assert Word(px, 0) == 65535 && Word(px, 1) == 0;
    assert Rgb565At(px, 0) == 0xF8 && Rgb565At(px, 1) == 0xFC && Rgb565At(px, 2) == 0xF8;
    assert Rgb565At(px, 4) == 0 && Rgb565At(px, 5) == 0 && Rgb565At(px, 6) == 0;
  }

  /** `Pixels.decode` on a texture's pixel buffer. Format 0 works on the
      buffer itself and hands it back. */
  method Decode(px: array<byte>, pixelType: int, imageType: int, width: nat, height: nat)
    returns (r: Result<Option<seq<byte>>>)
    modifies px
    ensures r == Decoded(old(px[..]), pixelType, imageType, width, height)
    ensures pixelType != 0 ==> px[..] == old(px[..])
  {
    var outPixels: seq<byte>;
    if pixelType == 0 {
      Depremultiply(px);
      outPixels := px[..];
    } else if Wide(pixelType) && px.Length % 2 == 1 {
      return Err(RangeError);
    } else if pixelType == 2 {
      outPixels := Rgba4444(px[..]);
    } else if pixelType == 4 {
      outPixels := Rgb565(px[..]);
    } else if pixelType == 6 {
      outPixels := La88(px[..]);
    } else if pixelType == 8 {
      outPixels := Rgb233(px[..]);
    } else if pixelType == 10 {
      outPixels := L8(px[..]);
    } else {
      return Ok(None);
    }
    if Tiled(imageType) {
      outPixels := Demux(outPixels, width, height);
    }
    r := Ok(Some(outPixels));
  }
}
