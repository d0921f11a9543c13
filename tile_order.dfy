/** The order in which a 32x32-tiled texture stores its pixels.

    A `w` x `h` image is cut into bands of 32 rows. Each band holds its full
    32x32 tiles left to right, then the partial tile at its right edge
    (`w % 32` columns wide). After the bands comes the strip of the last
    `h % 32` rows, tile by tile, then its bottom-right corner. Inside every
    block the pixels are in raster order.

    `TileIndex(w, h, x, y)` is the position in that stream of the pixel that
    belongs at `(x, y)`; `TilePos` is its inverse. Together they show that
    the de-swizzle is a bijection between stream positions `[0, w*h)` and
    image positions. */
module TileOrder {

  lemma MulMono(a: nat, b: nat, c: nat)
    requires b <= c
    ensures a * b <= a * c
  {
    assert a * c - a * b == a * (c - b);
  }

  lemma MulSucc(a: nat, b: nat)
    ensures (a + 1) * b == a * b + b
  {
  }

  /** Division by a positive constant has one quotient and one remainder. */
  lemma DivModOf(n: int, d: int, q: int, r: int)
    requires d > 0 && 0 <= r < d && n == q * d + r
    ensures n / d == q && n % d == r
  {
    var q', r' := n / d, n % d;
    assert (q - q') * d == r' - r;
    if q - q' >= 1 {
      MulMono(d, 1, q - q');
    } else if q' - q >= 1 {
      MulMono(d, 1, q' - q);
    }
  }

  /** Slot `k * size + t` of a run of `count` blocks of `size` stays inside the run. */
  lemma InRun(size: nat, count: nat, k: nat, t: nat)
    requires k < count && t < size
    ensures k * size + t < count * size
    ensures (k * size + t) / size == k && (k * size + t) % size == t
  {
    MulMono(size, k + 1, count);
    DivModOf(k * size + t, size, k, t);
  }

  /** The slot of `(x, y)` in a full tile of a band: the band's start, the
      tile's start in the band, then the raster offset in the tile. */
  function FullIndex(w: nat, x: nat, y: nat): nat
  {
    (y / 32) * (32 * w) + (x / 32) * 1024 + (y % 32) * 32 + x % 32
  }

  /** The slot of `(x, y)` in the partial tile, `w % 32` wide, that ends a band. */
  function PartialIndex(w: nat, x: nat, y: nat): nat
    requires x >= 32 * (w / 32)
  {
    (y / 32) * (32 * w) + (w / 32) * 1024 + (y % 32) * (w % 32) + (x - 32 * (w / 32))
  }

  /** The slot of `(x, y)` in a tile of the bottom strip, `h % 32` rows high. */
  function StripIndex(w: nat, h: nat, x: nat, y: nat): nat
    requires y >= 32 * (h / 32)
  {
    (h / 32) * (32 * w) + (x / 32) * (32 * (h % 32)) + (y - 32 * (h / 32)) * 32 + x % 32
  }

  /** The slot of `(x, y)` in the bottom-right corner block. */
  function CornerIndex(w: nat, h: nat, x: nat, y: nat): nat
    requires x >= 32 * (w / 32) && y >= 32 * (h / 32)
  {
    var j: nat, i: nat := y - 32 * (h / 32), x - 32 * (w / 32);
    (h / 32) * (32 * w) + (w / 32) * (32 * (h % 32)) + j * (w % 32) + i
  }

  /** Where the pixel for image position `(x, y)` sits in the tiled stream. */
  function TileIndex(w: nat, h: nat, x: nat, y: nat): nat
    requires x < w && y < h
  {
    if y < 32 * (h / 32) then
      if x < 32 * (w / 32) then FullIndex(w, x, y) else PartialIndex(w, x, y)
    else
      if x < 32 * (w / 32) then StripIndex(w, h, x, y) else CornerIndex(w, h, x, y)
  }

  /** The position of slot `n` of the bands, in a full tile. */
  function FullPos(w: nat, n: nat): (int, int)
    requires w > 0
  {
    var l, r := n / (32 * w), n % (32 * w);
    var k, t := r / 1024, r % 1024;
    (k * 32 + t % 32, l * 32 + t / 32)
  }

  /** The position of slot `n` of the bands, in a partial tile. */
  function PartialPos(w: nat, n: nat): (int, int)
    requires w % 32 > 0
  {
    var l, r := n / (32 * w), n % (32 * w);
    var t := r - (w / 32) * 1024;
    (32 * (w / 32) + t % (w % 32), l * 32 + t / (w % 32))
  }

  /** The position of slot `m` after the bands, in a tile of the strip. */
  function StripPos(w: nat, h: nat, m: nat): (int, int)
    requires h % 32 > 0
  {
    var k, t := m / (32 * (h % 32)), m % (32 * (h % 32));
    (k * 32 + t % 32, 32 * (h / 32) + t / 32)
  }

  /** The position of slot `m` after the bands, in the corner block. */
  function CornerPos(w: nat, h: nat, m: nat): (int, int)
    requires w % 32 > 0
  {
    var t := m - (w / 32) * (32 * (h % 32));
    (32 * (w / 32) + t % (w % 32), 32 * (h / 32) + t / (w % 32))
  }

  /** The image position of stream position `n`; `(0, 0)` past the last slot
      of an image whose blocks cannot hold `n`. */
  function TilePos(w: nat, h: nat, n: nat): (int, int)
  {
    var bands := (h / 32) * (32 * w);
    if n < bands then
      if w == 0 then (0, 0)
      else if n % (32 * w) < (w / 32) * 1024 then FullPos(w, n)
      else if w % 32 == 0 then (0, 0)
      else PartialPos(w, n)
    else
      var m := n - bands;
      if h % 32 > 0 && m < (w / 32) * (32 * (h % 32)) then StripPos(w, h, m)
      else if w % 32 == 0 then (0, 0)
      else CornerPos(w, h, m)
  }

  lemma Split(w: nat)
    ensures w == 32 * (w / 32) + w % 32
    ensures 32 * w == (w / 32) * 1024 + 32 * (w % 32)
  {
  }

  lemma AreaSplit(w: nat, h: nat)
    ensures w * h == (h / 32) * (32 * w) + (w / 32) * (32 * (h % 32)) + (h % 32) * (w % 32)
  {
    Split(w);
    Split(h);
    assert w * h == w * (32 * (h / 32)) + w * (h % 32);
    assert w * (h % 32) == (32 * (w / 32) + w % 32) * (h % 32);
  }

  /** The bands come first, then the strip, then the corner, and together
      they cover the image. */
  lemma RegionsBelowArea(w: nat, h: nat)
    ensures (h / 32) * (32 * w) <= (h / 32) * (32 * w) + (w / 32) * (32 * (h % 32)) <= w * h
  {
    AreaSplit(w, h);
    assert (w / 32) * (32 * (h % 32)) >= 0 && (h % 32) * (w % 32) >= 0;
  }

  lemma ZeroFactor(a: int, b: int)
    ensures b == 0 ==> a * b == 0
  {
  }

  /** A quotient is below `count` when the dividend is below `count` blocks. */
  lemma QuotBelow(n: nat, d: nat, count: nat)
    requires d > 0 && n < count * d
    ensures 0 <= n / d < count && n == (n / d) * d + n % d
  {
    DivNonneg(n, d);
    if n / d >= count {
      MulMono(d, count, n / d);
    }
  }

  /** A natural number divided by a positive one gives a natural number. */
  lemma DivNonneg(n: nat, d: nat)
    requires d > 0
    ensures n / d >= 0 && n == (n / d) * d + n % d
  {
  }

  lemma PositiveWidth(w: nat, h: nat, n: nat)
    requires n < (h / 32) * (32 * w)
    ensures w > 0
  {
    ZeroFactor(h / 32, 32 * w);
  }

  // One pair of lemmas per region of the stream: full tiles of a band, the
  // partial tile at the right of a band, the bottom strip, the corner. The
  // first shows that a position of the region gets a slot of the region and
  // that the region's inverse gives it back; the second that a slot of the
  // region gets a position of the region whose slot is that slot.

  lemma FullRoundTrip(w: nat, h: nat, x: nat, y: nat)
    requires x < 32 * (w / 32) && y < 32 * (h / 32)
    ensures w > 0 && FullIndex(w, x, y) < (h / 32) * (32 * w)
    ensures FullIndex(w, x, y) % (32 * w) < (w / 32) * 1024
    ensures FullPos(w, FullIndex(w, x, y)) == (x, y)
  {
    var W, H := w / 32, h / 32;
    var l, k, j, i := y / 32, x / 32, y % 32, x % 32;
    InRun(32, 32, j, i);
    var t := j * 32 + i;
    InRun(1024, W, k, t);
    var r := k * 1024 + t;
    Split(w);
    InRun(32 * w, H, l, r);
    assert FullIndex(w, x, y) == l * (32 * w) + r;
  }

  lemma FullSlot(w: nat, h: nat, n: nat)
    requires w > 0 && n < (h / 32) * (32 * w) && n % (32 * w) < (w / 32) * 1024
    ensures var p := FullPos(w, n);
      0 <= p.0 < 32 * (w / 32) && 0 <= p.1 < 32 * (h / 32) && FullIndex(w, p.0, p.1) == n
  {
    var W, H := w / 32, h / 32;
    var l, r := n / (32 * w), n % (32 * w);
    QuotBelow(n, 32 * w, H);
    var k, t := r / 1024, r % 1024;
    var j, i := t / 32, t % 32;
    assert 0 <= k < W && 0 <= j < 32 && 0 <= i < 32;
    var x, y := k * 32 + i, l * 32 + j;
    assert FullPos(w, n) == (x, y);
    assert x / 32 == k && x % 32 == i && y / 32 == l && y % 32 == j;
    assert FullIndex(w, x, y) == l * (32 * w) + r;
  }

  lemma PartialRoundTrip(w: nat, h: nat, x: nat, y: nat)
    requires 32 * (w / 32) <= x < w && y < 32 * (h / 32)
    ensures w % 32 > 0 && PartialIndex(w, x, y) < (h / 32) * (32 * w)
    ensures PartialIndex(w, x, y) % (32 * w) >= (w / 32) * 1024
    ensures PartialPos(w, PartialIndex(w, x, y)) == (x, y)
  {
    var W, H, wm := w / 32, h / 32, w % 32;
    var l, j, i := y / 32, y % 32, x - 32 * W;
    Split(w);
    InRun(wm, 32, j, i);
    var t := j * wm + i;
    var r := W * 1024 + t;
    InRun(32 * w, H, l, r);
    assert PartialIndex(w, x, y) == l * (32 * w) + r;
  }

  lemma PartialSlot(w: nat, h: nat, n: nat)
    requires w > 0 && n < (h / 32) * (32 * w) && n % (32 * w) >= (w / 32) * 1024
    ensures w % 32 > 0
    ensures var p := PartialPos(w, n);
      32 * (w / 32) <= p.0 < w && 0 <= p.1 < 32 * (h / 32) && PartialIndex(w, p.0, p.1) == n
  {
    var W, H, wm := w / 32, h / 32, w % 32;
    var l, r := n / (32 * w), n % (32 * w);
    QuotBelow(n, 32 * w, H);
    Split(w);
    var t := r - W * 1024;
    assert t < 32 * wm;
    QuotBelow(t, wm, 32);
    var j, i := t / wm, t % wm;
    var x, y := 32 * W + i, l * 32 + j;
    assert PartialPos(w, n) == (x, y);
    assert y / 32 == l && y % 32 == j;
  }

  lemma StripRoundTrip(w: nat, h: nat, x: nat, y: nat)
    requires x < 32 * (w / 32) && 32 * (h / 32) <= y < h
    ensures h % 32 > 0 && (h / 32) * (32 * w) <= StripIndex(w, h, x, y)
    ensures StripIndex(w, h, x, y) - (h / 32) * (32 * w) < (w / 32) * (32 * (h % 32))
    ensures StripPos(w, h, StripIndex(w, h, x, y) - (h / 32) * (32 * w)) == (x, y)
  {
    var W, H, hm := w / 32, h / 32, h % 32;
    var k, j, i := x / 32, y - 32 * H, x % 32;
    Split(h);
    InRun(32, hm, j, i);
    var t := j * 32 + i;
    InRun(32 * hm, W, k, t);
    assert StripIndex(w, h, x, y) - H * (32 * w) == k * (32 * hm) + t;
  }

  lemma StripSlot(w: nat, h: nat, m: nat)
    requires h % 32 > 0 && m < (w / 32) * (32 * (h % 32))
    ensures var p := StripPos(w, h, m);
      0 <= p.0 < 32 * (w / 32) && 32 * (h / 32) <= p.1 < h &&
      StripIndex(w, h, p.0, p.1) == (h / 32) * (32 * w) + m
  {
    var W, H, hm := w / 32, h / 32, h % 32;
    var k, t := m / (32 * hm), m % (32 * hm);
    QuotBelow(m, 32 * hm, W);
    var j, i := t / 32, t % 32;
    var x, y := k * 32 + i, 32 * H + j;
    assert StripPos(w, h, m) == (x, y);
    Split(h);
    assert x / 32 == k && x % 32 == i && y - 32 * H == j;
  }

  lemma CornerRoundTrip(w: nat, h: nat, x: nat, y: nat)
    requires 32 * (w / 32) <= x < w && 32 * (h / 32) <= y < h
    ensures w % 32 > 0
    ensures (h / 32) * (32 * w) + (w / 32) * (32 * (h % 32)) <= CornerIndex(w, h, x, y) < w * h
    ensures CornerPos(w, h, CornerIndex(w, h, x, y) - (h / 32) * (32 * w)) == (x, y)
  {
    var W, H, wm, hm := w / 32, h / 32, w % 32, h % 32;
    var j, i := y - 32 * H, x - 32 * W;
    Split(w);
    Split(h);
    InRun(wm, hm, j, i);
    AreaSplit(w, h);
  }

  lemma CornerSlot(w: nat, h: nat, m: nat)
    requires w % 32 > 0 && (w / 32) * (32 * (h % 32)) <= m && (h / 32) * (32 * w) + m < w * h
    ensures var p := CornerPos(w, h, m);
      32 * (w / 32) <= p.0 < w && 32 * (h / 32) <= p.1 < h &&
      CornerIndex(w, h, p.0, p.1) == (h / 32) * (32 * w) + m
  {
    var W, H, wm, hm := w / 32, h / 32, w % 32, h % 32;
    AreaSplit(w, h);
    var t := m - W * (32 * hm);
    assert t < hm * wm;
    QuotBelow(t, wm, hm);
    var j, i := t / wm, t % wm;
    var x, y := 32 * W + i, 32 * H + j;
    assert CornerPos(w, h, m) == (x, y);
    Split(w);
    Split(h);
  }

  /** Every image position takes a slot of the stream `[0, w*h)`, and
      `TilePos` gives the position back: no two positions share a slot. */
  lemma TilePosOfIndex(w: nat, h: nat, x: nat, y: nat)
    requires x < w && y < h
    ensures TileIndex(w, h, x, y) < w * h
    ensures TilePos(w, h, TileIndex(w, h, x, y)) == (x, y)
  {
    RegionsBelowArea(w, h);
    if y < 32 * (h / 32) {
      if x < 32 * (w / 32) { FullRoundTrip(w, h, x, y); } else { PartialRoundTrip(w, h, x, y); }
    } else {
      if x < 32 * (w / 32) { StripRoundTrip(w, h, x, y); } else { CornerRoundTrip(w, h, x, y); }
    }
  }

  /** Two image positions with the same slot are the same position. */
  lemma TileIndexInjective(w: nat, h: nat, x: nat, y: nat, x': nat, y': nat)
    requires x < w && y < h && x' < w && y' < h
    requires TileIndex(w, h, x, y) == TileIndex(w, h, x', y')
    ensures x == x' && y == y'
  {
    TilePosOfIndex(w, h, x, y);
    TilePosOfIndex(w, h, x', y');
  }

  /** Every slot of the stream `[0, w*h)` belongs to an image position:
      together with TilePosOfIndex, TileIndex is a bijection. */
  lemma TileIndexOfPos(w: nat, h: nat, n: nat)
    requires n < w * h
    ensures 0 <= TilePos(w, h, n).0 < w && 0 <= TilePos(w, h, n).1 < h
    ensures TileIndex(w, h, TilePos(w, h, n).0, TilePos(w, h, n).1) == n
  {
    var W, H, wm, hm := w / 32, h / 32, w % 32, h % 32;
    var bands := H * (32 * w);
    Split(w);
    Split(h);
    if n < bands {
      PositiveWidth(w, h, n);
      if n % (32 * w) < W * 1024 { FullSlot(w, h, n); } else { PartialSlot(w, h, n); }
    } else {
      var m := n - bands;
      AreaSplit(w, h);
      ZeroFactor(W, 32 * hm);
      ZeroFactor(hm, wm);
      if hm > 0 && m < W * (32 * hm) { StripSlot(w, h, m); } else { CornerSlot(w, h, m); }
    }
  }
}
