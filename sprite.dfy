/** Sprites of lib/file/parsers/Sprite.js: the payload layout, then the
    post-processing that `Sprite.from` runs on a parsed sprite: texture
    points are scaled to the pixels of their texture, sprite points by a
    constant, every shape gets its bounding boxes and its mirrored flag, and
    the sprite gets the union of the shape boxes. */
module Sprite {
  import opened Bytes
  import opened Polygon
  import Texture

  // ---------------------------------------------------------------------
  // Layout.

  /** A shape as read: u8 type, u32 size, u8 texture index, u8 point count,
      the sprite points (int32 pairs), then the texture points (u16 pairs). */
  datatype RawShape = RawShape(shapeType: byte, size: nat, textureIndex: byte, pointCount: byte,
                               spritePoints: seq<(int, int)>, texturePoints: seq<(nat, nat)>)

  datatype RawSprite = RawSprite(uid: nat, shapeCount: nat, pointCount: nat,
                                 shapes: seq<RawShape>, extraObjects: seq<Tlv>)

  /** `array(point32, {length: n})`: point `i` is the int32 pair at byte `8 i`. */
  function Points32(s: seq<byte>, n: nat): (r: Result<(seq<(int, int)>, seq<byte>)>)
    ensures r.Ok? <==> |s| >= 8 * n
    ensures r.Ok? ==> |r.value.0| == n && r.value.1 == s[8 * n..]
    decreases n
  {
    if n == 0 then Ok(([], s))
    else
      var (x, s1) :- I32(s);
      var (y, s2) :- I32(s1);
      var (ps, s3) :- Points32(s2, n - 1);
      Ok(([(x, y)] + ps, s3))
  }

  /** `array(point16, {length: n})`: point `i` is the u16 pair at byte `4 i`. */
  function Points16(s: seq<byte>, n: nat): (r: Result<(seq<(nat, nat)>, seq<byte>)>)
    ensures r.Ok? <==> |s| >= 4 * n
    ensures r.Ok? ==> |r.value.0| == n && r.value.1 == s[4 * n..]
    ensures r.Ok? ==> forall i | 0 <= i < n :: r.value.0[i].0 < 65536 && r.value.0[i].1 < 65536
    decreases n
  {
    if n == 0 then Ok(([], s))
    else
      var (x, s1) :- U16(s);
      var (y, s2) :- U16(s1);
      var (ps, s3) :- Points16(s2, n - 1);
      Ok(([(x, y)] + ps, s3))
  }

  /** Point `i` of a run of int32 pairs is the pair at byte `8 i`. */
  lemma {:induction false} Points32Values(s: seq<byte>, n: nat)
    requires |s| >= 8 * n
    ensures forall i | 0 <= i < n ::
      Points32(s, n).value.0[i] == (I32(s[8 * i..]).value.0, I32(s[8 * i + 4..]).value.0)
    decreases n
  {
    if n > 0 {
      var s2 := s[8..];
      Points32Values(s2, n - 1);
      assert s[4..][4..] == s2;
      var ps := Points32(s, n).value.0;
      var ps2 := Points32(s2, n - 1).value.0;
      assert ps == [(I32(s).value.0, I32(s[4..]).value.0)] + ps2;
      forall i | 1 <= i < n
        ensures ps[i] == (I32(s[8 * i..]).value.0, I32(s[8 * i + 4..]).value.0)
      {
        assert ps[i] == ps2[i - 1];
        assert s[8 * i..] == s2[8 * (i - 1)..] && s[8 * i + 4..] == s2[8 * (i - 1) + 4..];
      }
    }
  }

  /** Point `i` of a run of u16 pairs is the pair at byte `4 i`. */
  lemma {:induction false} Points16Values(s: seq<byte>, n: nat)
    requires |s| >= 4 * n
    ensures forall i | 0 <= i < n :: Points16(s, n).value.0[i] == (LE16(s[4 * i..]), LE16(s[4 * i + 2..]))
    decreases n
  {
    if n > 0 {
      var s2 := s[4..];
      Points16Values(s2, n - 1);
      assert s[2..][2..] == s2;
      var ps := Points16(s, n).value.0;
      var ps2 := Points16(s2, n - 1).value.0;
      assert ps == [(LE16(s), LE16(s[2..]))] + ps2;
      forall i | 1 <= i < n
        ensures ps[i] == (LE16(s[4 * i..]), LE16(s[4 * i + 2..]))
      {
        assert ps[i] == ps2[i - 1];
        assert s[4 * i..] == s2[4 * (i - 1)..] && s[4 * i + 2..] == s2[4 * (i - 1) + 2..];
      }
    }
  }

  /** The `shape` layout: a shape with `n` points takes `7 + 12 n` bytes. */
  function ParseShape(s: seq<byte>): (r: Result<(RawShape, seq<byte>)>)
    ensures r.Ok? <==> |s| >= 7 && |s| >= 7 + 12 * (s[6] as int)
    ensures r.Ok? ==> r.value.0.pointCount == s[6]
    ensures r.Ok? ==> |r.value.0.spritePoints| == r.value.0.pointCount == |r.value.0.texturePoints|
    ensures r.Ok? ==> r.value.0.textureIndex == s[5]
    ensures r.Ok? ==> r.value.0.shapeType == s[0] && r.value.0.size == LE32(s[1..])
    ensures r.Ok? ==> r.value.0.spritePoints == Points32(s[7..], s[6]).value.0
    ensures r.Ok? ==> r.value.0.texturePoints == Points16(s[7 + 8 * (s[6] as int)..], s[6]).value.0
  {
    var (shapeType, s1) :- U8(s);
    var (size, s2) :- U32(s1);
    var (textureIndex, s3) :- U8(s2);
    var (pointCount, s4) :- U8(s3);
    assert s1 == s[1..] && s4 == s[7..];
    var (spritePoints, s5) :- Points32(s4, pointCount);
    assert s5 == s[7 + 8 * (pointCount as int)..];
    var (texturePoints, s6) :- Points16(s5, pointCount);
    Ok((RawShape(shapeType, size, textureIndex, pointCount, spritePoints, texturePoints), s6))
  }

  /** A shape with `n` points takes `7 + 12 n` bytes. */
  lemma ShapeSize(s: seq<byte>)
    requires ParseShape(s).Ok?
    ensures ParseShape(s).value.1 == s[7 + 12 * (s[6] as int)..]
  {
    var s4 := s[7..];
    var pc := s[6];
    var (_, s5) := Points32(s4, pc).value;
    assert s5 == s[7 + 8 * (pc as int)..];
  }

  /** `array(shape, {length: n})`: each shape read where the previous one ends. */
  function ParseShapes(s: seq<byte>, n: nat): (r: Result<(seq<RawShape>, seq<byte>)>)
    ensures r.Ok? ==> |r.value.0| == n
    ensures r == ReadN(ParseShape, s, n)
    decreases n
  {
    if n == 0 then Ok(([], s))
    else
      ReadNStep(ParseShape, s, n);
      var (sh, s1) :- ParseShape(s);
      var (shs, s2) :- ParseShapes(s1, n - 1);
      Ok(([sh] + shs, s2))
  }

  /** The sprite payload: u16 uid, u16 shape count, u16 point count, the
      shapes, then records up to and including the first with tag 0. */
  function ParseSprite(s: seq<byte>): (r: Result<RawSprite>)
    ensures r.Ok? ==> |s| >= 6 && |r.value.shapes| == r.value.shapeCount
    ensures r.Ok? ==> r.value.uid == LE16(s) && r.value.shapeCount == LE16(s[2..])
    ensures r.Ok? ==> |r.value.extraObjects| >= 1
  {
    var (uid, s1) :- U16(s);
    var (shapeCount, s2) :- U16(s1);
    var (pointCount, s3) :- U16(s2);
    assert shapeCount == LE16(s[2..]) by { assert s1 == s[2..]; }
    var (shapes, s4) :- ParseShapes(s3, shapeCount);
    var (extraObjects, _) :- ParseTlvsUntilZero(s4);
    Ok(RawSprite(uid, shapeCount, pointCount, shapes, extraObjects))
  }

  /** Where each part of a parsed sprite lies: the point count at byte 4,
      the shapes read from byte 6, and the records that follow them up to
      the first with tag 0. A sprite parses exactly when these parts do. */
  lemma SpriteLayout(s: seq<byte>)
    ensures ParseSprite(s).Ok? <==>
      |s| >= 6 && ParseShapes(s[6..], LE16(s[2..])).Ok? &&
      ParseTlvsUntilZero(ParseShapes(s[6..], LE16(s[2..])).value.1).Ok?
    ensures ParseSprite(s).Ok? ==> var sp := ParseSprite(s).value;
      sp.pointCount == LE16(s[4..]) &&
      sp.shapes == ParseShapes(s[6..], sp.shapeCount).value.0 &&
      sp.extraObjects == ParseTlvsUntilZero(ParseShapes(s[6..], sp.shapeCount).value.1).value.0
  {
    if |s| >= 6 {
      assert s[2..][2..] == s[4..] && s[4..][2..] == s[6..];
    }
  }

  // ---------------------------------------------------------------------
  // Post-processing of one shape.

  /** A shape with the fields `from` adds: the boxes and the mirrored flag
      are absent until they are computed. `textureNaN` records that the
      texture points were scaled by the factors of a raw record, which has
      none: every texture coordinate is then NaN, and the list keeps the
      points as read only for their number. */
  datatype Shape = Shape(shapeType: byte, size: nat, textureIndex: byte, pointCount: byte,
                         spritePoints: seq<Point>, texturePoints: seq<Point>, textureNaN: bool,
                         bounds: Option<Bounds>, textureBounds: Option<TextureBox>,
                         textureMirrored: Option<bool>)

  /** The box of a shape's texture points: every field is NaN when the
      points are NaN. */
  datatype TextureBox = Box(box: Bounds) | NaNBox

  /** Whether the texture polygon holds NaN coordinates: a poisoned shape
      with at least one point. */
  predicate NaNTexture(sh: Shape)
  {
    sh.textureNaN && |sh.texturePoints| > 0
  }

  function ToPoint32(p: (int, int)): Point { Point(p.0 as real, p.1 as real) }
  function ToPoint16(p: (nat, nat)): Point { Point(p.0 as real, p.1 as real) }

  function FromRaw(raw: RawShape): (sh: Shape)
    ensures |sh.spritePoints| == |raw.spritePoints| && |sh.texturePoints| == |raw.texturePoints|
  {
    Shape(raw.shapeType, raw.size, raw.textureIndex, raw.pointCount,
          seq(|raw.spritePoints|, i requires 0 <= i < |raw.spritePoints| => ToPoint32(raw.spritePoints[i])),
          seq(|raw.texturePoints|, i requires 0 <= i < |raw.texturePoints| => ToPoint16(raw.texturePoints[i])),
          false, None, None, None)
  }

  /** `Math.round`: the nearest integer, halves rounded up. */
  function Round(v: real): (r: int)
    ensures v - 0.5 < r as real <= v + 0.5
  {
    (v + 0.5).Floor
  }

  /** A normalised texture coordinate `0..65535` scaled by `size / 65535`
      lands on a pixel coordinate `0..size`. */
  lemma RoundedCoordinateInTexture(x: real, size: nat)
    requires 0.0 <= x <= 65535.0
    ensures 0 <= Round(x * (size as real / 65535.0)) <= size
  {
    var f := size as real / 65535.0;
    assert 0.0 <= x * f;
    assert x * f <= 65535.0 * f;
  }

  /** The scale of sprite points: their coordinates are stored 20 times too
      large. The source is unsure whether 0.1 was meant. */
  const SpriteScale: real := 0.05

  /** One point of `_convertTexturePolygon`: each coordinate times its
      factor, rounded. */
  function TexturePoint(p: Point, widthFactor: real, heightFactor: real): (q: Point)
    ensures p.x * widthFactor - 0.5 < q.x <= p.x * widthFactor + 0.5
    ensures p.y * heightFactor - 0.5 < q.y <= p.y * heightFactor + 0.5
    ensures q.x == q.x.Floor as real && q.y == q.y.Floor as real
  {
    Point(Round(p.x * widthFactor) as real, Round(p.y * heightFactor) as real)
  }

  /** `_convertTexturePolygon` with the factors of the texture. */
  function TexturePolygon(ply: seq<Point>, widthFactor: real, heightFactor: real): (r: seq<Point>)
    ensures |r| == |ply|
    ensures forall i | 0 <= i < |ply| :: r[i] == TexturePoint(ply[i], widthFactor, heightFactor)
  {
    seq(|ply|, i requires 0 <= i < |ply| => TexturePoint(ply[i], widthFactor, heightFactor))
  }

  /** `_convertSpritePolygon`: every coordinate times the sprite scale. */
  function SpritePolygon(ply: seq<Point>): (r: seq<Point>)
    ensures |r| == |ply|
    ensures forall i | 0 <= i < |ply| :: r[i].x * 20.0 == ply[i].x && r[i].y * 20.0 == ply[i].y
  {
    seq(|ply|, i requires 0 <= i < |ply| => Point(ply[i].x * SpriteScale, ply[i].y * SpriteScale))
  }

  /** One shape of `_deNormalizeShapes`. The texture is only looked up inside
      the loop over texture points: with no points nothing is read. An index
      past the list reads `undefined`, whose factor read throws. A raw record
      has no factors: the products are NaN, `Math.round` keeps them NaN and
      nothing throws. */
  function DeNormalizeShape(sh: Shape, textures: seq<Texture.TextureSlot>): (r: Result<Shape>)
    ensures r.Ok? ==>
      r.value.(spritePoints := sh.spritePoints, texturePoints := sh.texturePoints, textureNaN := sh.textureNaN) == sh
    ensures r.Ok? ==> r.value.spritePoints == SpritePolygon(sh.spritePoints)
    ensures r.Ok? ==> |r.value.texturePoints| == |sh.texturePoints|
    ensures r.Err? <==> |sh.texturePoints| > 0 && sh.textureIndex >= |textures|
    ensures r.Ok? ==> (r.value.textureNaN <==>
      sh.textureNaN || (|sh.texturePoints| > 0 && textures[sh.textureIndex].Raw?))
    ensures r.Ok? && |sh.texturePoints| > 0 && textures[sh.textureIndex].Loaded? ==>
      var t := textures[sh.textureIndex].texture;
      r.value.texturePoints == TexturePolygon(sh.texturePoints, t.widthFactor, t.heightFactor)
  {
    if |sh.texturePoints| == 0 then Ok(sh.(spritePoints := SpritePolygon(sh.spritePoints)))
    else if sh.textureIndex >= |textures| then Err(TypeError)
    else match textures[sh.textureIndex]
      case Raw(_) =>
        Ok(sh.(textureNaN := true, spritePoints := SpritePolygon(sh.spritePoints)))
      case Loaded(t) =>
        Ok(sh.(texturePoints := TexturePolygon(sh.texturePoints, t.widthFactor, t.heightFactor),
               spritePoints := SpritePolygon(sh.spritePoints)))
  }

  /** `_deNormalizeShapes`: every shape in order; the first failure stops it. */
  function DeNormalizeAll(shapes: seq<Shape>, textures: seq<Texture.TextureSlot>): (r: Result<seq<Shape>>)
    ensures r.Ok? ==> |r.value| == |shapes|
    decreases |shapes|
  {
    if shapes == [] then Ok([])
    else
      var init := shapes[..|shapes| - 1];
      var done :- DeNormalizeAll(init, textures);
      var last :- DeNormalizeShape(shapes[|shapes| - 1], textures);
      Ok(done + [last])
  }

  /** The shapes are converted one by one and in order; the conversion
      fails exactly when one of them fails. */
  lemma {:induction false} DeNormalizeAllPointwise(shapes: seq<Shape>, textures: seq<Texture.TextureSlot>)
    ensures DeNormalizeAll(shapes, textures).Ok? ==>
      forall i | 0 <= i < |shapes| :: DeNormalizeShape(shapes[i], textures) == Ok(DeNormalizeAll(shapes, textures).value[i])
    ensures DeNormalizeAll(shapes, textures).Err? <==>
      exists i | 0 <= i < |shapes| :: DeNormalizeShape(shapes[i], textures).Err?
    decreases |shapes|
  {
    if shapes != [] {
      var init := shapes[..|shapes| - 1];
      DeNormalizeAllPointwise(init, textures);
      assert forall i | 0 <= i < |init| :: init[i] == shapes[i];
    }
  }

  /** The texture box `bounds` computes: `Math.min` and `Math.max` with a
      NaN coordinate are NaN, so a NaN polygon has a NaN box. */
  function TextureBoxOf(sh: Shape): TextureBox
  {
    if NaNTexture(sh) then NaNBox else Box(BoundsOf(sh.texturePoints))
  }

  /** The boxes of `_calculateDimensions`. */
  function Measure(sh: Shape): Shape
  {
    sh.(bounds := Some(BoundsOf(sh.spritePoints)), textureBounds := Some(TextureBoxOf(sh)))
  }

  /** One shape of `_calculateDimensions`: its two boxes, and the box of its
      sprite points for the union. */
  method MeasureShape(sh: Shape) returns (m: Shape, b: Bounds)
    ensures m == Measure(sh) && b == BoundsOf(sh.spritePoints)
  {
    b := ComputeBounds(sh.spritePoints);
    var tb := ComputeBounds(sh.texturePoints);
    m := sh.(bounds := Some(b), textureBounds := Some(if NaNTexture(sh) then NaNBox else Box(tb)));
  }

  /** The mirrored flag of `_calculateTransformations`. The edge sum of a
      NaN polygon is NaN and `sum > 0` is false, so such a texture polygon
      counts as counter-clockwise. */
  function TextureMirrored(sh: Shape): bool
  {
    if NaNTexture(sh) then Clockwise(sh.spritePoints) else Mirrored(sh.texturePoints, sh.spritePoints)
  }

  function Orient(sh: Shape): Shape
  {
    sh.(textureMirrored := Some(TextureMirrored(sh)))
  }

  function MeasureAll(shapes: seq<Shape>): (r: seq<Shape>)
    ensures |r| == |shapes| && forall i | 0 <= i < |shapes| :: r[i] == Measure(shapes[i])
  {
    seq(|shapes|, i requires 0 <= i < |shapes| => Measure(shapes[i]))
  }

  function OrientAll(shapes: seq<Shape>): (r: seq<Shape>)
    ensures |r| == |shapes| && forall i | 0 <= i < |shapes| :: r[i] == Orient(shapes[i])
  {
    seq(|shapes|, i requires 0 <= i < |shapes| => Orient(shapes[i]))
  }

  // ---------------------------------------------------------------------
  // The sprite's box.

  /** The sprite's `bounds`: the union of the shape boxes and the offset that
      moves its corner to the origin. */
  datatype SpriteBounds = SpriteBounds(width: real, height: real, minX: real, minY: real,
                                       maxX: real, maxY: real, offsetX: real, offsetY: real)

  /** One step of the union. */
  function Union(e: Extent, b: Bounds): Extent
  {
    Extent(Min(e.minX, b.minX), Min(e.minY, b.minY), Max(e.maxX, b.maxX), Max(e.maxY, b.maxY))
  }

  /** The union of the boxes of the shapes' sprite points, from the sentinels. */
  function UnionExtent(shapes: seq<Shape>): (e: Extent)
    ensures e.minX <= Sentinel && e.minY <= Sentinel && e.maxX >= -Sentinel && e.maxY >= -Sentinel
    decreases |shapes|
  {
    if shapes == [] then Start
    else Union(UnionExtent(shapes[..|shapes| - 1]), BoundsOf(shapes[|shapes| - 1].spritePoints))
  }

  lemma UnionStep(shapes: seq<Shape>, i: nat, e: Extent, b: Bounds)
    requires i < |shapes| && e == UnionExtent(shapes[..i]) && b == BoundsOf(shapes[i].spritePoints)
    ensures Union(e, b) == UnionExtent(shapes[..i + 1])
  {
    assert shapes[..i + 1][..i] == shapes[..i];
  }

  /** The union covers the box of every shape. */
  lemma {:induction false} UnionCovers(shapes: seq<Shape>, i: nat)
    requires i < |shapes|
    ensures var e := UnionExtent(shapes); var b := BoundsOf(shapes[i].spritePoints);
      e.minX <= b.minX && e.minY <= b.minY && e.maxX >= b.maxX && e.maxY >= b.maxY
    decreases |shapes|
  {
    if i < |shapes| - 1 {
      var init := shapes[..|shapes| - 1];
      assert init[i] == shapes[i];
      UnionCovers(init, i);
    }
  }

  function FinishSprite(e: Extent): SpriteBounds
  {
    SpriteBounds(e.maxX - e.minX, e.maxY - e.minY, e.minX, e.minY, e.maxX, e.maxY, -e.minX, -e.minY)
  }

  function SpriteBoundsOf(shapes: seq<Shape>): SpriteBounds
  {
    FinishSprite(UnionExtent(shapes))
  }

  /** Moved by the sprite's offset, no shape and no sprite point lies left
      of or above the origin. */
  lemma OffsetMovesShapesToOrigin(shapes: seq<Shape>)
    ensures var b := SpriteBoundsOf(shapes);
      forall i | 0 <= i < |shapes| ::
        BoundsOf(shapes[i].spritePoints).minX + b.offsetX >= 0.0 &&
        BoundsOf(shapes[i].spritePoints).minY + b.offsetY >= 0.0
    ensures var b := SpriteBoundsOf(shapes);
      forall i, j | 0 <= i < |shapes| && 0 <= j < |shapes[i].spritePoints| ::
        shapes[i].spritePoints[j].x + b.offsetX >= 0.0 && shapes[i].spritePoints[j].y + b.offsetY >= 0.0
  {
    var e := UnionExtent(shapes);
    forall i | 0 <= i < |shapes|
      ensures BoundsOf(shapes[i].spritePoints).minX - e.minX >= 0.0
      ensures BoundsOf(shapes[i].spritePoints).minY - e.minY >= 0.0
    {
      UnionCovers(shapes, i);
    }
    forall i, j | 0 <= i < |shapes| && 0 <= j < |shapes[i].spritePoints|
      ensures shapes[i].spritePoints[j].x - e.minX >= 0.0 && shapes[i].spritePoints[j].y - e.minY >= 0.0
    {
      UnionCovers(shapes, i);
      var ext := ExtentOf(shapes[i].spritePoints);
      ExtentMins(shapes[i].spritePoints);
      assert ext.minX <= shapes[i].spritePoints[j].x;
      assert ext.minY <= shapes[i].spritePoints[j].y;
    }
  }

  /** A sprite with a non-empty shape has a box of non-negative size. */
  lemma SpriteBoundsNonNegative(shapes: seq<Shape>, i: nat)
    requires i < |shapes| && |shapes[i].spritePoints| > 0
    ensures SpriteBoundsOf(shapes).width >= 0.0 && SpriteBoundsOf(shapes).height >= 0.0
  {
    BoundsContain(shapes[i].spritePoints);
    UnionCovers(shapes, i);
  }

  function FromRaws(raws: seq<RawShape>): (r: seq<Shape>)
    ensures |r| == |raws| && forall i | 0 <= i < |raws| :: r[i] == FromRaw(raws[i])
  {
    seq(|raws|, i requires 0 <= i < |raws| => FromRaw(raws[i]))
  }

  /** The parsed shapes with their points converted. */
  function Converted(raws: seq<RawShape>, textures: seq<Texture.TextureSlot>): (r: Result<seq<Shape>>)
    ensures r.Ok? ==> |r.value| == |raws|
  {
    DeNormalizeAll(FromRaws(raws), textures)
  }

  /** The whole of the post-processing of `from`, on the parsed shapes. */
  function Processed(raws: seq<RawShape>, textures: seq<Texture.TextureSlot>): (r: Result<seq<Shape>>)
    ensures r.Ok? ==> |r.value| == |raws|
  {
    var converted :- Converted(raws, textures);
    Ok(OrientAll(MeasureAll(converted)))
  }

  /** Post-processing keeps the number of shapes, each shape's type, texture
      index and point counts, and the order of its points; each shape gets
      boxes of its converted points and the mirrored flag of its polygons. */
  lemma ProcessedShapes(raws: seq<RawShape>, textures: seq<Texture.TextureSlot>, i: nat)
    requires Processed(raws, textures).Ok? && i < |raws|
    ensures var sh := Processed(raws, textures).value[i];
      sh.shapeType == raws[i].shapeType && sh.textureIndex == raws[i].textureIndex &&
      sh.pointCount == raws[i].pointCount &&
      |sh.spritePoints| == |raws[i].spritePoints| && |sh.texturePoints| == |raws[i].texturePoints| &&
      sh.bounds == Some(BoundsOf(sh.spritePoints)) &&
      (NaNTexture(sh) <==> |raws[i].texturePoints| > 0 && raws[i].textureIndex < |textures| &&
                           textures[raws[i].textureIndex].Raw?) &&
      (!NaNTexture(sh) ==> sh.textureBounds == Some(Box(BoundsOf(sh.texturePoints))) &&
                           sh.textureMirrored == Some(Mirrored(sh.texturePoints, sh.spritePoints))) &&
      (NaNTexture(sh) ==> sh.textureBounds == Some(NaNBox) && sh.textureMirrored == Some(Clockwise(sh.spritePoints)))
  {
    var shapes := FromRaws(raws);
    var converted := Converted(raws, textures).value;
    DeNormalizeAllPointwise(shapes, textures);
    assert DeNormalizeShape(shapes[i], textures) == Ok(converted[i]);
  }

  // ---------------------------------------------------------------------
  // The sprite object.

  /** The parsed header fields, the type and the texture list are set once,
      when `from` builds the sprite; the shapes and the box are rewritten by
      its passes and the name by a metadata file. */
  class Sprite {
    const uid: nat
    const shapeCount: nat
    const pointCount: nat
    var shapes: seq<Shape>
    const extraObjects: seq<Tlv>
    const spriteType: int
    const textures: seq<Texture.TextureSlot>
    var bounds: Option<SpriteBounds>
    /** Set by the export-name pass of a metadata file; unset until then. */
    var name: string
    var exported: bool

    constructor (raw: RawSprite, spriteType: int, textures: seq<Texture.TextureSlot>)
      ensures uid == raw.uid && shapeCount == raw.shapeCount && pointCount == raw.pointCount
      ensures shapes == FromRaws(raw.shapes)
      ensures extraObjects == raw.extraObjects && this.spriteType == spriteType && this.textures == textures
      ensures bounds == None && name == "" && !exported
    {
      uid := raw.uid;
      shapeCount := raw.shapeCount;
      pointCount := raw.pointCount;
      shapes := FromRaws(raw.shapes);
      extraObjects := raw.extraObjects;
      this.spriteType := spriteType;
      this.textures := textures;
      bounds := None;
      name := "";
      exported := false;
    }

    /** `isValid`: types 18 and 2 are sprites. Its log line names a
        `parentName` that is not in scope, which throws whenever the sprite
        does not have exactly one trailing record. */
    function IsValid(): (r: Result<bool>)
      reads this
      ensures r.Err? <==> |extraObjects| != 1
      ensures r.Ok? ==> (r.value <==> spriteType == 18 || spriteType == 2)
    {
      if |extraObjects| != 1 then Err(ReferenceError)
      else Ok(spriteType == 18 || spriteType == 2)
    }

    /** `_deNormalizeShapes`, converting the shapes one by one. A failure
        propagates out of `from`, so the shapes are then left unspecified. */
    method DeNormalizeShapes() returns (err: Option<Error>)
      modifies this
      ensures err.None? <==> DeNormalizeAll(old(shapes), textures).Ok?
      ensures err.None? ==> shapes == DeNormalizeAll(old(shapes), textures).value
      ensures bounds == old(bounds)
      ensures name == old(name) && exported == old(exported)
    {
      var shapes0 := shapes;
      var ss := shapes;
      var i := 0;
      while i < |ss|
        invariant 0 <= i <= |ss| == |shapes0|
        invariant DeNormalizeAll(shapes0[..i], textures) == Ok(ss[..i])
        invariant ss[i..] == shapes0[i..]
      {
        assert shapes0[..i + 1][..i] == shapes0[..i];
        var sh := DeNormalizeShape(ss[i], textures);
        if sh.Err? {
          DeNormalizeStops(shapes0, textures, i + 1);
          return Some(sh.error);
        }
        ss := ss[i := sh.value];
        assert ss[..i + 1] == ss[..i] + [sh.value];
        i := i + 1;
      }
      assert shapes0[..i] == shapes0;
      assert ss[..i] == ss;
      shapes := ss;
      return None;
    }

    /** `_calculateDimensions`: the boxes of every shape and their union. */
    method CalculateDimensions()
      modifies this
      ensures shapes == MeasureAll(old(shapes)) && bounds == Some(SpriteBoundsOf(old(shapes)))
      ensures name == old(name) && exported == old(exported)
    {
      var shapes0 := shapes;
      var ss := shapes;
      var e := Start;
      for i := 0 to |ss|
        modifies {}
        invariant |ss| == |shapes0|
        invariant forall j | 0 <= j < i :: ss[j] == Measure(shapes0[j])
        invariant forall j | i <= j < |ss| :: ss[j] == shapes0[j]
        invariant e == UnionExtent(shapes0[..i])
      {
        var m, b := MeasureShape(ss[i]);
        UnionStep(shapes0, i, e, b);
        ss := ss[i := m];
        e := Union(e, b);
      }
      assert shapes0[..|shapes0|] == shapes0;
      shapes := ss;
      bounds := Some(FinishSprite(e));
    }

    /** `_calculateTransformations`, without the rotation. */
    method CalculateTransformations()
      modifies this
      ensures shapes == OrientAll(old(shapes))
      ensures bounds == old(bounds)
      ensures name == old(name) && exported == old(exported)
    {
      var shapes0 := shapes;
      var ss := shapes;
      for i := 0 to |ss|
        modifies {}
        invariant |ss| == |shapes0|
        invariant forall j | 0 <= j < i :: ss[j] == Orient(shapes0[j])
        invariant forall j | i <= j < |ss| :: ss[j] == shapes0[j]
      {
        var m;
        if NaNTexture(ss[i]) {
          var cw := IsClockwise(ss[i].spritePoints);
          m := false != cw;
        } else {
          m := IsMirrored(ss[i].texturePoints, ss[i].spritePoints);
        }
        ss := ss[i := ss[i].(textureMirrored := Some(m))];
      }
      shapes := ss;
    }
  }

  /** A failure in the first `n` shapes is a failure of all of them. */
  lemma {:induction false} DeNormalizeStops(shapes: seq<Shape>, textures: seq<Texture.TextureSlot>, n: nat)
    requires n <= |shapes| && DeNormalizeAll(shapes[..n], textures).Err?
    ensures DeNormalizeAll(shapes, textures).Err?
    decreases |shapes| - n
  {
    if n < |shapes| {
      assert shapes[..n + 1][..n] == shapes[..n];
      DeNormalizeStops(shapes, textures, n + 1);
    } else {
      assert shapes[..n] == shapes;
    }
  }

  /** Whether `from` returns a sprite for `data` rather than throwing. */
  predicate Loads(data: seq<byte>, textures: seq<Texture.TextureSlot>)
  {
    ParseSprite(data).Ok? && |ParseSprite(data).value.extraObjects| == 1 &&
    Converted(ParseSprite(data).value.shapes, textures).Ok?
  }

  /** `Sprite.from`: parse, check the type (a wrong type is only a warning),
      then post-process. */
  method From(spriteType: int, data: seq<byte>, textures: seq<Texture.TextureSlot>)
    returns (r: Result<Sprite>, warned: bool)
    ensures r.Ok? <==> Loads(data, textures)
    ensures r.Ok? ==> fresh(r.value) && r.value.uid == ParseSprite(data).value.uid && r.value.spriteType == spriteType
    ensures r.Ok? ==> r.value.shapes == Processed(ParseSprite(data).value.shapes, textures).value
    ensures r.Ok? ==> r.value.bounds == Some(SpriteBoundsOf(Converted(ParseSprite(data).value.shapes, textures).value))
    ensures r.Ok? ==> (warned <==> !(spriteType == 18 || spriteType == 2))
    ensures r.Ok? ==> r.value.name == "" && !r.value.exported && r.value.textures == textures
  {
    warned := false;
    var parsed := ParseSprite(data);
    if parsed.Err? {
      return Err(parsed.error), false;
    }
    var sprite := new Sprite(parsed.value, spriteType, textures);
    var valid := sprite.IsValid();
    if valid.Err? {
      return Err(valid.error), false;
    }
    warned := !valid.value;
    var err := sprite.DeNormalizeShapes();
    if err.Some? {
      return Err(err.value), warned;
    }
    sprite.CalculateDimensions();
    sprite.CalculateTransformations();
    r := Ok(sprite);
  }

  /** What `From` promises of the fixed fields of a sprite it built from
      `rec`: its uid, its type and its texture list. */
  predicate Made(s: Sprite, rec: Tlv, textures: seq<Texture.TextureSlot>)
  {
    ParseSprite(rec.data).Ok? && s.uid == ParseSprite(rec.data).value.uid && s.spriteType == rec.tag &&
    s.textures == textures
  }

  /** `From` as the metadata file calls it: the type is the record's tag and
      the warning goes to the log. */
  method Load(rec: Tlv, textures: seq<Texture.TextureSlot>) returns (r: Result<Sprite>)
    ensures r.Ok? <==> Loads(rec.data, textures)
    ensures r.Ok? ==> fresh(r.value) && Made(r.value, rec, textures) && r.value.name == "" && !r.value.exported
  {
    var warned;
    r, warned := From(rec.tag, rec.data, textures);
  }
}
