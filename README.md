# SC asset decoding, modelled in Dafny

This project models the decode pipeline of a tool that extracts Supercell
game assets. It covers the path from the raw bytes of an archive entry to
typed textures, sprites and movie clips with their geometry.

- **Stream header repair** (`ScStream`, `CsvStream`). An `.sc` entry starts
  with a "SC" header. The first chunk is cut down to its LZMA data, and
  4 zero bytes are spliced in after the 9 bytes of properties, dictionary
  size and 32-bit size. This gives the first chunk the 13-byte header of
  the legacy `.lzma` format. A compressed `.csv` entry gets the same
  splice after its own 9-byte header.
- **Record parsers** (`Bytes`, `Texture`, `Sprite`, `MovieClip`,
  `Metadata`). These are little-endian, length-prefixed layouts. Each is a
  function from a byte sequence to a `Result` of a value plus the rest of
  the input.
  - Every `readUntil` run is a do-while over 5-byte-headed records.
- **Pixel codec** (`Pixels`, `TileOrder`).
  - Six pixel formats unpack to RGBA8.
  - Un-premultiplying rewrites the array in place.
  - The 32×32 tile de-swizzle is proved to write every output pixel from
    exactly one input slot. `TileOrder` gives the consumption order and its
    inverse.
- **Polygon geometry** (`Polygon`, plus the shape post-processing in
  `Sprite`).
  - Bounds folding and translation to the origin.
  - The winding (shoelace) test and the mirrored test.
- **Cross-reference passes** (`Metadata`, `MetadataFile`).
  - The export index and the sprite index, where the later duplicate wins.
  - Texture substitution by index.
  - Export names passed from movie clips to the sprites they place.
  - The header-count integrity check.
- **Path and name bookkeeping** (`File`, `ArchiveExtractor`).
  - POSIX `dirname`, `basename` and `extname`.
  - First-occurrence string removal.
  - The rule that pairs each metadata file with the last texture file named
    after it plus `_tex`.

Code that changes state in the source is modelled as such:

- `Pixels` decoders are loops over arrays.
- `File`, `Sprite`, `Metadata`, `MetadataFile`, the two stream transforms
  and `ArchiveExtractor` are classes whose methods update their fields.
- Each method is proved against a specification function. The properties
  of those functions are proved as lemmas.

JavaScript numbers are modelled as exact integers or reals. Byte stores
into typed arrays are written out as `mod 256`. A read past the end of a
buffer is written out as `undefined`, which is stored as 0.

In two places the code and its description differ; the model follows the
code in both:

- `Metadata`: an export name's length is a signed byte. A length of 128 or
  more reads as negative: the model reads an empty name and moves the
  cursor back, as the parser does. It does not reject the name.
- `Texture`: a record's pixel buffer is `size - 5` bytes long. When `size`
  is below 5, that length is negative: nothing is read and the cursor
  moves back.

## Model

| member | source | states |
|---|---|---|
| Bytes.I8 | lib/file/parsers/Texture.js:9 | a signed byte read: present iff one byte is left; value in -128..127 and congruent to the byte mod 256 |
| Bytes.U16s | lib/file/parsers/MovieClip.js:48-51 | n little-endian u16 values succeed iff 2n bytes are left; value i is the word at byte 2i; the rest starts after them |
| Bytes.I32BE | lib/extract/ScTransform.js:44-46 | a big-endian int32 read at an offset succeeds iff the 4 bytes are inside the buffer, and is a signed 32-bit value |
| Bytes.ToStringSlice | lib/extract/ScTransform.js:42 | Buffer `toString(start, end)`: the bytes start..end when in range, empty when end is not past start |
| Bytes.ParseTlv | lib/file/parsers/Sprite.js:36-40 | the `scObject` record succeeds iff the 5-byte header is present; `size` is the u32 at byte 1; the data is the first `size` bytes after the header (fewer when the input ends first); the rest is what follows the data |
| Bytes.ParseTlvsUntilZero | lib/file/parsers/Sprite.js:52-58 | the `readUntil` run ends with the first tag-0 record, and has no earlier one; it consumes at least 5 bytes per record |
| Bytes.UntilZeroIsReadN | lib/file/parsers/Sprite.js:52-58 | the `readUntil` records are the counted run of their own number read from the same input, ending where it ends |
| Pixels.Depremultiplied | lib/file/parsers/Pixels.js:43-53 | keeps the length; every alpha byte is unchanged and a pixel whose alpha is 0 is unchanged as a whole |
| Pixels.DepremultiplyNoWrap | lib/file/parsers/Pixels.js:43-53 | when colour ≤ alpha (alpha > 0), the stored byte is exactly ⌊c·255/a⌋, without wrap-around |
| Pixels.Depremultiply | lib/file/parsers/Pixels.js:43-53 | the in-place loop leaves the array equal to `Depremultiplied` of its old contents |
| Pixels.Rgba4444Of | lib/file/parsers/Pixels.js:57-67 | an even-length input gives twice as many bytes, each with low nibble 0 |
| Pixels.Rgba4444 | lib/file/parsers/Pixels.js:57-67 | the loop writes each nibble of the little-endian word, high first, into the high half of an output byte (equals `Rgba4444Of`) |
| Pixels.Rgb565Of | lib/file/parsers/Pixels.js:71-81 | twice the input length; alpha is always 255; R and B are multiples of 8 and G of 4 |
| Pixels.Rgb565 | lib/file/parsers/Pixels.js:71-81 | the loop unpacks R=((v>>11)&31)<<3, G=((v>>5)&63)<<2, B=(v&31)<<3, A=255 (equals `Rgb565Of`) |
| Pixels.Rgb565Example | lib/file/parsers/Pixels.js:71-81 | FF FF 00 00 unpacks to F8 FC F8 FF 00 00 00 FF |
| Pixels.La88Of | lib/file/parsers/Pixels.js:85-95 | twice the input length; R=G=B is the second byte of each pair and A is the first |
| Pixels.La88 | lib/file/parsers/Pixels.js:85-95 | the loop's output equals `La88Of` |
| Pixels.Rgb233Of | lib/file/parsers/Pixels.js:99-109 | four times the input length; R (the unshifted low 2 bits) is at most 3; A is 255 |
| Pixels.Rgb233 | lib/file/parsers/Pixels.js:99-109 | the loop writes R=b&3, G=((b>>2)&7)<<2, B=((b>>5)&7)<<5, A=255 (equals `Rgb233Of`) |
| Pixels.L8Of | lib/file/parsers/Pixels.js:113-123 | four times the input length; R=G=B=b and A=255 |
| Pixels.L8 | lib/file/parsers/Pixels.js:113-123 | the loop's output equals `L8Of` |
| Pixels.Demuxed | lib/file/parsers/Pixels.js:127-164 | the de-swizzled image has exactly 4·w·h bytes |
| Pixels.DemuxedPixel | lib/file/parsers/Pixels.js:127-164 | pixel (x, y) holds the 4 input bytes at its slot in the consumption order, `4·TileIndex(x, y)` |
| Pixels.DemuxReadsPrefix | lib/file/parsers/Pixels.js:135-161 | only the first 4·w·h input bytes affect the output |
| Pixels.Slice4 | lib/file/parsers/Pixels.js:139 | `px.slice(offset, offset + 4)` gives input byte offset+c, or 0 past the end |
| Pixels.SetPixel | lib/file/parsers/Pixels.js:167-174 | exactly bytes 4(x+w·y)..4(x+w·y)+3 become the pixel's bytes; every other byte is unchanged |
| Pixels.Place | lib/file/parsers/Pixels.js:139-140 | one `setPixel` at the current offset places stream slot n at its pixel, advancing the invariant from n to n+1 slots |
| Pixels.FullTile | lib/file/parsers/Pixels.js:137-141 | a full 32×32 tile places the next 1024 slots and moves the offset by 4096 |
| Pixels.TileRow | lib/file/parsers/Pixels.js:136-141 | a band's full tiles place the band's 32·32·⌊w/32⌋ slots in order |
| Pixels.PartialTile | lib/file/parsers/Pixels.js:143-148 | a band's right partial tile places the next 32·(w mod 32) slots |
| Pixels.Bands | lib/file/parsers/Pixels.js:135-148 | all full bands place the first ⌊h/32⌋·32·w slots and leave the offset 4 bytes per slot further on |
| Pixels.StripTile | lib/file/parsers/Pixels.js:151-155 | one tile of the bottom strip places the next 32·(h mod 32) slots |
| Pixels.Strip | lib/file/parsers/Pixels.js:150-155 | the bottom strip's full-width tiles place their slots in order |
| Pixels.CornerTile | lib/file/parsers/Pixels.js:157-161 | the corner places the last (h mod 32)·(w mod 32) slots |
| Pixels.ProgressStart | lib/file/parsers/Pixels.js:128 | the zero-filled buffer of 4·w·h bytes is the state with no slot placed |
| Pixels.ProgressDone | lib/file/parsers/Pixels.js:127-164 | once all w·h slots are placed, the buffer is exactly `Demuxed` |
| Pixels.Demux | lib/file/parsers/Pixels.js:127-164 | the four loop regions together produce `Demuxed(px, w, h)` |
| Pixels.Unpacked | lib/file/parsers/Pixels.js:6-27 | `false` (Ok(None)) iff the pixel type is not 0, 2, 4, 6, 8 or 10; throws iff a 16-bit format gets an odd length; output length is 1×, 2× or 4× the input |
| Pixels.Decoded | lib/file/parsers/Pixels.js:3-34 | the same error and `false` cases as `Unpacked`; a tiled result has 4·w·h bytes |
| Pixels.Type32NotTiled | lib/file/parsers/Pixels.js:25-29 | pixel type 32 returns `false`, so its tiling test never fires |
| Pixels.TiledIff | lib/file/parsers/Pixels.js:29-33 | for a supported format, the output is de-swizzled iff the image type is 27 or 28, and is the unpacked bytes otherwise |
| Pixels.Decode | lib/file/parsers/Pixels.js:3-34 | the result is `Decoded` of the input; the input array is left unchanged unless the pixel type is 0 |
| TileOrder.AreaSplit | lib/file/parsers/Pixels.js:129-132 | the full tiles, right partial tiles, bottom strip and corner together cover exactly w·h pixels |
| TileOrder.FullRoundTrip | lib/file/parsers/Pixels.js:135-141 | a pixel in a full tile gets a slot in the band region, from which `FullPos` recovers the pixel |
| TileOrder.FullSlot | lib/file/parsers/Pixels.js:135-141 | every full-tile slot names a full-tile pixel whose index is that slot |
| TileOrder.PartialRoundTrip | lib/file/parsers/Pixels.js:143-148 | a pixel in a right partial tile round-trips through its slot |
| TileOrder.PartialSlot | lib/file/parsers/Pixels.js:143-148 | every partial-tile slot names a partial-tile pixel whose index is that slot |
| TileOrder.StripRoundTrip | lib/file/parsers/Pixels.js:150-155 | a pixel in the bottom strip round-trips through its slot |
| TileOrder.StripSlot | lib/file/parsers/Pixels.js:150-155 | every strip slot names a strip pixel whose index is that slot |
| TileOrder.CornerRoundTrip | lib/file/parsers/Pixels.js:157-161 | a corner pixel round-trips through its slot, which is among the last slots |
| TileOrder.CornerSlot | lib/file/parsers/Pixels.js:157-161 | every corner slot names a corner pixel whose index is that slot |
| TileOrder.TilePosOfIndex | lib/file/parsers/Pixels.js:135-161 | every pixel's slot is below w·h, and `TilePos` maps it back to the pixel |
| TileOrder.TileIndexInjective | lib/file/parsers/Pixels.js:135-161 | two pixels never share a slot, so no pixel is written twice |
| TileOrder.TileIndexOfPos | lib/file/parsers/Pixels.js:135-161 | every slot below w·h belongs to some pixel, so every pixel is written |
| Polygon.ExtentMins | lib/geometry/Polygon.js:33-42 | the folded minima are at most every coordinate and either equal one of them or stay at the 65535 sentinel |
| Polygon.ExtentMaxes | lib/geometry/Polygon.js:33-42 | the folded maxima are at least every coordinate and either equal one of them or stay at the -65535 sentinel |
| Polygon.ComputeBounds | lib/geometry/Polygon.js:33-50 | the accumulator loop returns `BoundsOf` |
| Polygon.BoundsContain | lib/geometry/Polygon.js:33-50 | for a non-empty polygon every point lies in the box; width = maxX-minX ≥ 0, height = maxY-minY ≥ 0, x = minX, y = minY |
| Polygon.EmptyBounds | lib/geometry/Polygon.js:34-47 | the empty polygon keeps the sentinels, so width = height = -131070 |
| Polygon.ToZero | lib/geometry/Polygon.js:14-21 | keeps the length and moves every point by (-minX, -minY) |
| Polygon.ToZeroStartsAtOrigin | lib/geometry/Polygon.js:14-21 | moved by its own bounds, a polygon whose minima are attained has minimum x and y of 0 |
| Polygon.IsClockwise | lib/geometry/Polygon.js:56-66 | the loop answers whether the cyclic edge sum of (x2-x1)(y2+y1) is positive |
| Polygon.ReverseNegatesShoelace | lib/geometry/Polygon.js:56-66 | reversing the point order negates the edge sum |
| Polygon.EmptyNotClockwise | lib/geometry/Polygon.js:56-66 | the empty polygon is not clockwise |
| Polygon.IsMirrored | lib/geometry/Polygon.js:68-73 | true iff exactly one of the two polygons is clockwise |
| Polygon.MirroredIrreflexiveSymmetric | lib/geometry/Polygon.js:68-73 | no polygon is mirrored to itself, and the relation is symmetric |
| Polygon.ReversedIsMirrored | lib/geometry/Polygon.js:68-73 | a polygon with a non-zero edge sum is mirrored to its reverse |
| Polygon.GetRotation | lib/geometry/Polygon.js:3-12 | 0 when either polygon has fewer than 2 points; otherwise the second angle minus the first |
| Polygon.RotationAntisymmetric | lib/geometry/Polygon.js:3-12 | swapping the two polygons negates the rotation |
| ScStream.GetInfo | lib/extract/ScTransform.js:40-61 | succeeds iff the two big-endian reads and the final little-endian read are inside the chunk; version and length are the int32s at 2 and 6; offset = 10 + length, plus 4 after "SCLZ" |
| ScStream.SignEmptyForNonNegativeLength | lib/extract/ScTransform.js:46-52 | the signature is read with end index 4, so any length ≥ -6 gives an empty signature |
| ScStream.LzhamNeedsNegativeLength | lib/extract/ScTransform.js:24-27 | the "SCLZ" rejection can fire only for a length between -14 and -10, when bytes 0..3 read "SCLZ" |
| ScStream.Splice | lib/extract/ScTransform.js:30 | a chunk of L ≥ 35 bytes becomes L-22 bytes: bytes 26..34, four zeros, then byte 35 onwards |
| ScStream.StepFor | lib/extract/ScTransform.js:12-37 | later chunks pass unchanged; a first chunk under 10 bytes throws; a first chunk passes only with the "SC" magic, and then spliced; without the magic an error is emitted and nothing is passed on |
| ScStream.FirstChunkSpliced | lib/extract/ScTransform.js:17-31 | a first chunk with the magic, a non-negative length and enough bytes passes, spliced at the fixed offsets |
| ScStream.ScTransform.constructor | lib/extract/ScTransform.js:6-10 | the counter starts at 0 |
| ScStream.ScTransform.Transform | lib/extract/ScTransform.js:12-37 | the counter rises by exactly 1 per call, and the outcome is `StepFor` of the new count |
| CsvStream.Splice | lib/extract/CsvTransform.js:21 | 4 zero bytes after the first 9 bytes; the result is 4 bytes longer with the first 9 kept |
| CsvStream.Transformed | lib/extract/CsvTransform.js:18-27 | only a compressed first chunk changes (4 bytes longer, prefix kept); every other chunk is unchanged |
| CsvStream.CollectedLength | lib/extract/CsvTransform.js:29 | the buffer is as long as all chunks together, plus 4 when the first chunk is compressed |
| CsvStream.CsvTransform.constructor | lib/extract/CsvTransform.js:6-11 | starts with no chunks, an empty buffer and the flag cleared |
| CsvStream.CsvTransform.Transform | lib/extract/CsvTransform.js:13-32 | the buffer gains the transformed chunk; the flag can only be set by the first chunk and never changes afterwards |
| CsvStream.CsvTransform.Flush | lib/extract/CsvTransform.js:34-44 | pushes exactly once: the buffer of all chunks in order, decompressed iff the flag is set |
| Texture.ParseRecord | lib/file/parsers/Texture.js:7-16 | succeeds iff the 10-byte header is present; the image type and pixel type are the signed bytes 0 and 5; size, width and height are the little-endian fields at 1, 6 and 8; the pixels are the next size-5 bytes (clamped); the cursor moves 5+size bytes |
| Bytes.ReadN | lib/file/parsers/Metadata.js:94-117 | a counted run of any item reader holds exactly n items |
| Bytes.ReadOne | lib/file/parsers/Texture.js:18-24 | a run of one item is the item the reader returns |
| Bytes.ReadNAt | lib/file/parsers/Texture.js:18-24 | item k of a counted run is what the reader returns where the first k end, and the input after it is where the first k + 1 end |
| Bytes.ReadNAppend | lib/file/parsers/Metadata.js:94-117 | a run of m + n items is a run of m items followed by a run of n items read where the first ends; one fails exactly when the other does |
| Bytes.ReadRuns | lib/file/parsers/Metadata.js:94-117 | runs read one after another hold one run per count, each with its count of items |
| Bytes.ReadRunsFlat | lib/file/parsers/Metadata.js:94-117 | consecutive runs succeed iff the single run of all their items does, and concatenated they are that run |
| Bytes.StopsAtFirstOne | lib/file/parsers/Metadata.js:87-93 | one item after which the `readUntil` stops is a whole run |
| Bytes.StopsAtFirstCons | lib/file/parsers/Metadata.js:87-93 | an item after which the `readUntil` goes on, then a run that stops at its first chance, is a run one item longer that still stops at its first chance |
| Texture.ParseRecords | lib/file/parsers/Texture.js:18-24 | at least one record, 5 or more bytes each; the list is the counted run of its own length, a 0 byte follows it, and no shorter run is followed by 0, so reading stops at the first 0 |
| Texture.RecordsCons | lib/file/parsers/Texture.js:18-24 | a record not followed by 0, then a list, is a list one record longer that still stops at its first 0 |
| Texture.SingleRecord | lib/file/parsers/Texture.js:7-24 | one complete record followed by a 0 byte parses as one record holding all its pixel bytes, leaving the rest |
| Texture.MakeTexture | lib/file/parsers/Texture.js:28-47 | the factors are width/65535 and height/65535 for every record; type 0 has no flag and no image; otherwise premultiplied iff pixel type ≠ 0, and an image iff the format is decodable; throws iff the decode throws |
| Texture.EmptyTypeHasNoImage | lib/file/parsers/Texture.js:38-41 | an empty-type record always builds a texture without an image |
| Texture.MakeTextures | lib/file/parsers/Texture.js:60-63 | succeeds iff every record builds under its numbered name; texture i is exactly record i built by the constructor under `name_(from+i)`, in order |
| Texture.MultipleFrom | lib/file/parsers/Texture.js:60-63 | succeeds iff the record list parses and every record builds; one texture per record, at least one; texture i is record i built under `name_i` |
| Texture.MultipleFromNames | lib/file/parsers/Texture.js:62 | texture i is named `name + "_" + i` |
| Sprite.Points32 | lib/file/parsers/Sprite.js:10-13 | n int32 point pairs need exactly 8n bytes |
| Sprite.Points32Values | lib/file/parsers/Sprite.js:10-13 | point i is the pair of int32 values at bytes 8i and 8i+4 |
| Sprite.Points16 | lib/file/parsers/Sprite.js:15-18 | n u16 point pairs need exactly 4n bytes; coordinates are below 65536 |
| Sprite.Points16Values | lib/file/parsers/Sprite.js:15-18 | point i is the pair of u16 values at bytes 4i and 4i+2 |
| Sprite.ParseShape | lib/file/parsers/Sprite.js:21-34 | succeeds iff the header and 12 bytes per point are present; type, size, texture index and point count are the fields at bytes 0, 1, 5 and 6; the sprite points are the int32 pairs from byte 7 and the texture points the u16 pairs after them |
| Sprite.ShapeSize | lib/file/parsers/Sprite.js:21-34 | a shape consumes exactly 7 + 12·pointCount bytes |
| Sprite.ParseShapes | lib/file/parsers/Sprite.js:48-51 | exactly the counted run of `shapeCount` shapes, each read where the previous ends |
| Sprite.ParseSprite | lib/file/parsers/Sprite.js:42-58 | uid and shape count are the first two u16s; the shape list has `shapeCount` entries; at least one trailing record |
| Sprite.SpriteLayout | lib/file/parsers/Sprite.js:42-58 | the sprite parses iff the 6-byte header, the shapes from byte 6 and the tag-0-terminated records after them do; pointCount is the u16 at byte 4; the shapes and trailing records are those runs |
| Sprite.Round | lib/file/parsers/Sprite.js:119-120 | `Math.round`: the integer within half of the value, halves rounding up |
| Sprite.RoundedCoordinateInTexture | lib/file/parsers/Sprite.js:112-120 | a normalised coordinate 0..65535 scales to a pixel coordinate 0..size |
| Sprite.TexturePoint | lib/file/parsers/Sprite.js:117-122 | each coordinate is the integer nearest to coordinate × factor |
| Sprite.TexturePolygon | lib/file/parsers/Sprite.js:117-122 | every point converted, count and order kept |
| Sprite.SpritePolygon | lib/file/parsers/Sprite.js:131-141 | every point scaled by 0.05 (20× the result is the point), count and order kept |
| Sprite.DeNormalizeShape | lib/file/parsers/Sprite.js:104-121 | only the points and the NaN flag change; sprite points are scaled; texture points are scaled and rounded by a loaded texture's factors; fails iff the shape has texture points and its index is past the list; an unsubstituted record makes the texture points NaN and does not fail |
| Sprite.DeNormalizeAllPointwise | lib/file/parsers/Sprite.js:104-109 | the list converts shape by shape, and fails iff some shape fails |
| Sprite.DeNormalizeStops | lib/file/parsers/Sprite.js:104-109 | a failure within a prefix fails the whole list |
| Sprite.Sprite.DeNormalizeShapes | lib/file/parsers/Sprite.js:104-109 | fails iff the conversion fails (an index past the texture list); otherwise the shapes become the converted list; bounds and names are untouched |
| Sprite.MeasureShape | lib/file/parsers/Sprite.js:86-87 | a shape's box is `bounds` of its sprite points; its texture box is `bounds` of its texture points, NaN when they are |
| Sprite.UnionCovers | lib/file/parsers/Sprite.js:83-93 | the sprite box contains every shape's box |
| Sprite.OffsetMovesShapesToOrigin | lib/file/parsers/Sprite.js:95-101 | after adding the offsets, every shape's box and every sprite point is at x, y ≥ 0 |
| Sprite.SpriteBoundsNonNegative | lib/file/parsers/Sprite.js:95-96 | a sprite with a non-empty shape has width and height ≥ 0 |
| Sprite.Sprite.CalculateDimensions | lib/file/parsers/Sprite.js:82-102 | each shape gets its two boxes, and the sprite gets the union box started from the sentinels |
| Sprite.Sprite.CalculateTransformations | lib/file/parsers/Sprite.js:75-80 | each shape gets `textureMirrored` = mirrored(texture points, sprite points), where a NaN texture polygon is not clockwise; the bounds are untouched |
| Sprite.ProcessedShapes | lib/file/parsers/Sprite.js:69-87 | after processing, each shape keeps its type, texture index and point counts, and carries the boxes and mirrored flag of its converted points; its texture points are NaN iff it has some and its slot is an unsubstituted record, and then its texture box is NaN and it is mirrored iff its sprite points are clockwise |
| Sprite.Sprite.constructor | lib/file/parsers/Sprite.js:62-66 | the parsed fields, the type and the texture list; no bounds, no name and not exported yet |
| Sprite.Sprite.IsValid | lib/file/parsers/Sprite.js:218-221 | throws (the undeclared `parentName`) iff there is not exactly one trailing record; otherwise true iff the type is 18 or 2 |
| Sprite.From | lib/file/parsers/Sprite.js:62-73 | succeeds iff the payload parses, has one trailing record and no textured shape indexes past the texture list; the result holds the processed shapes and the union box; a wrong type only warns |
| Sprite.Load | lib/file/parsers/Metadata.js:167-169 | a sprite built from a record has the record's tag as its type, and fails exactly when `From` does |
| MovieClip.ParseTransforms | lib/file/parsers/MovieClip.js:4-8 | n triples of int16 need exactly 6n bytes; the rest starts after them |
| MovieClip.TransformValues | lib/file/parsers/MovieClip.js:4-8 | entry i holds the int16 values at bytes 6i, 6i+2 and 6i+4 as transform, colour-transform and sprite index |
| MovieClip.ParseU8s | lib/file/parsers/MovieClip.js:52-55 | n opacities are the next n bytes |
| MovieClip.ParseString255 | lib/file/parsers/MovieClip.js:10-17 | length byte 255 gives "" and consumes nothing more; otherwise exactly `len` bytes (clamped at the end) |
| MovieClip.String255RoundTrip | lib/file/parsers/MovieClip.js:10-17 | a length-prefixed string shorter than 255 bytes reads back as itself, leaving the rest |
| MovieClip.ParseNames | lib/file/parsers/MovieClip.js:56-60 | exactly the counted run of n `string255` names |
| MovieClip.ParseFrame | lib/file/parsers/MovieClip.js:19-27 | a frame needs 8 bytes; type, size, num1 and num2 are the fields at bytes 0, 1, 5 and 6; its name and rest are those of the `string255` at byte 7 |
| MovieClip.FrameSizeIgnored | lib/file/parsers/MovieClip.js:19-27 | changing a frame's size field changes neither its name nor how much it consumes |
| MovieClip.ParseFrames | lib/file/parsers/MovieClip.js:61-64 | exactly the counted run of n frames |
| MovieClip.ParseSpriteTable | lib/file/parsers/MovieClip.js:47-60 | succeeds iff 3n bytes and then n names are present; the ids are the n u16s at the start, the opacities the next n bytes, the names the run after them; each list has n entries |
| MovieClip.ParseHeader | lib/file/parsers/MovieClip.js:35-42 | succeeds iff 9 bytes are present; uid, fps, frame count, transform count and constant are the fields at bytes 0, 2, 3, 5 and 7; the rest starts at byte 9 |
| MovieClip.ParseRest | lib/file/parsers/MovieClip.js:47-71 | the sprite count is the first u16; the sprite table follows it, the frames follow the table and the tag-0-terminated records follow the frames |
| MovieClip.Parse | lib/file/parsers/MovieClip.js:35-71 | succeeds iff the header, the 6·transformCount bytes of transforms and the rest parse; the clip is the header fields, the transforms from byte 9 and the rest from byte 9 + 6·transformCount; the lists have their declared counts; not exported |
| MovieClip.From | lib/file/parsers/MovieClip.js:75-90 | exported iff the export index has a non-empty name for the uid, and then named by it, otherwise "no name"; warns iff the type is not 3, 10, 12 or 14 |
| Metadata.ParseCounts | lib/file/parsers/Metadata.js:74-83 | each of the six counts is the u16 at its offset 0, 2, 4, 6, 8, 10 in file order; the rest starts after 5 skipped bytes; fails iff fewer than 12 bytes |
| Metadata.NameLength | lib/file/parsers/Metadata.js:11-16 | the name length is the byte read as a signed int8 |
| Metadata.ExportNameBytes | lib/file/parsers/Metadata.js:11-16 | exactly n names; reading a length outside the input throws |
| Metadata.ExportNames | lib/file/parsers/Metadata.js:42-46 | the names as text; succeeds exactly when the byte reading does |
| Metadata.ExportNamesRoundTrip | lib/file/parsers/Metadata.js:34-46 | names shorter than 128 bytes, written as length + bytes, read back as themselves, ending after them |
| Metadata.NegativeLengthMovesBack | lib/file/parsers/Metadata.js:11-16 | a length byte ≥ 128 yields an empty name and moves the cursor back to `off + 1 + (len - 256)` |
| Metadata.ParseIgnored | lib/file/parsers/Metadata.js:87-93 | at least one record, 5 or more bytes each; a byte follows the run and is neither 26 nor 23 |
| Metadata.IgnoredRun | lib/file/parsers/Metadata.js:87-93 | the run is the counted run of its own length; the byte after every shorter run is 26 or 23 and the byte after the run is not, so it stops at the first other tag |
| Metadata.ParseBuckets | lib/file/parsers/Metadata.js:94-117 | six runs with exactly the texture, sprite, text, transform, colour-transform and movie-clip counts |
| Metadata.BucketsAreOneRun | lib/file/parsers/Metadata.js:94-117 | the buckets succeed iff the single run of all their records does, and concatenated in file order they are that run, so each bucket starts where the previous ends |
| Metadata.ParseExports | lib/file/parsers/Metadata.js:74-86 | the export ids and names each have `count` entries, the u16 at byte 17 |
| Metadata.ExportsLayout | lib/file/parsers/Metadata.js:74-86 | the counts are `ParseCounts` of the input, the ids the u16s at byte 19, the names `ExportNames` read from byte 19 + 2·count, and the cursor is where those names end |
| Metadata.ParseTables | lib/file/parsers/Metadata.js:87-117 | the ignored run is `ParseIgnored` of the input and the buckets are `ParseBuckets` of what follows it |
| Metadata.Parse | lib/file/parsers/Metadata.js:74-117 | the counts, export ids and export names are those of `ParseExports`; the ignored run and the buckets are those of `ParseTables` read at the cursor the names leave, which is not negative; `ignored` is non-empty and every bucket has its declared count |
| Metadata.LastWinsLookup | lib/file/parsers/Metadata.js:137-143 | a key is indexed iff it occurs, and maps to the value at its last occurrence |
| Metadata.IndexExports | lib/file/parsers/Metadata.js:137-143 | the loop builds the id → name index where later duplicates win |
| Metadata.Merged | lib/file/parsers/Metadata.js:153-159 | slot i becomes decoded texture i; slots past the decoded list keep their records; the list grows to the longer length |
| Metadata.Metadata.MergeTextures | lib/file/parsers/Metadata.js:153-159 | no list leaves the textures unchanged; otherwise they become `Merged`; nothing else changes |
| Metadata.LongerTextureListFailsCheck | lib/file/parsers/Metadata.js:175-184 | a decoded list longer than the texture count makes the integrity check fail |
| Metadata.Metadata.IndexSprites | lib/file/parsers/Metadata.js:145-151 | the uid → sprite index where later duplicates win; nothing else changes |
| Metadata.ClipsPointwise | lib/file/parsers/Metadata.js:167-169 | the clips build record by record, and the list fails iff one record fails |
| Metadata.LoadSprites | lib/file/parsers/Metadata.js:162 | fails iff some sprite record fails to load; otherwise one fresh sprite per record, in order, each with its record's uid and tag |
| Metadata.Metadata.ParseSprites | lib/file/parsers/Metadata.js:162-163 | the sprites are built from their records and indexed by uid |
| Metadata.Metadata.ParseClips | lib/file/parsers/Metadata.js:164 | the movie clips are built with the export index, in order |
| Metadata.Metadata.ParseObjects | lib/file/parsers/Metadata.js:161-165 | sprites, then the sprite index, then the clips; fails iff a sprite or a clip fails |
| Metadata.Metadata.constructor | lib/file/parsers/Metadata.js:74-117 | the parsed layout as fields, with the texture records as unsubstituted slots |
| Metadata.Substituted | lib/file/parsers/Metadata.js:132 | with no decoded list, the texture slots are the records themselves |
| Metadata.Prepare | lib/file/parsers/Metadata.js:128-132 | name, export index and texture substitution set before the objects are built |
| Metadata.From | lib/file/parsers/Metadata.js:128-135 | fails iff the layout does not parse or a sprite or a clip fails; on success the counts, exports, textures, sprites (one per record), clips and sprite index are as above |
| Metadata.Load | lib/file/MetadataFile.js:18 | a metadata whose layout does not parse fails; a built one has fresh, unnamed, unexported sprites |
| MetadataFile.ClipRenames | lib/file/MetadataFile.js:27-33 | an unexported clip names nothing; an exported one names one id per position of its sprite table |
| MetadataFile.ClipRenamesAt | lib/file/MetadataFile.js:29-33 | position i of an exported clip names sprite `spriteIds[i]` as `exportName + "_" + i` |
| MetadataFile.LastRename | lib/file/MetadataFile.js:27-37 | a uid gets a name iff some rename is for that uid |
| MetadataFile.LastRenameIsLast | lib/file/MetadataFile.js:27-37 | the name a uid gets is that of its last rename |
| MetadataFile.LaterClipWins | lib/file/MetadataFile.js:27-37 | a later clip's rename of a sprite overrides any earlier one |
| MetadataFile.UnexportedClipsRenameNothing | lib/file/MetadataFile.js:28 | unexported clips change no sprite's name |
| MetadataFile.NoExportsNoRenames | lib/file/MetadataFile.js:28 | with no exported clip there are no renames at all |
| MetadataFile.RenamesFromExported | lib/file/MetadataFile.js:27-33 | every rename comes from a position of an exported clip's sprite table |
| MetadataFile.ExportedNamesSomething | lib/file/MetadataFile.js:27-33 | every id placed by an exported clip gets a name |
| MetadataFile.LastWinsIndexesInto | lib/file/MetadataFile.js:21-25 | the sprite index holds only sprites of the list, each under its own uid |
| MetadataFile.SkipStep | lib/file/MetadataFile.js:31-34 | an id with no indexed sprite changes nothing |
| MetadataFile.MetadataFile.constructor | lib/file/MetadataFile.js:8-12 | the file's name, with no sprites, clips or index yet |
| MetadataFile.MetadataFile.IndexSprites | lib/file/MetadataFile.js:21-25 | uid → sprite, where the later sprite wins |
| MetadataFile.MetadataFile.NameSprite | lib/file/MetadataFile.js:30-34 | renaming one id keeps every sprite labelled by the last rename of its uid; shapes and boxes stay |
| MetadataFile.MetadataFile.NameClipSpritesAt | lib/file/MetadataFile.js:27-36 | one step of the clip loop: clip j's table is applied when it is exported and nothing changes otherwise; shapes and boxes stay |
| MetadataFile.MetadataFile.NameClipSprites | lib/file/MetadataFile.js:29-35 | an exported clip's sprite table is applied position by position; shapes and boxes stay |
| MetadataFile.MetadataFile.PropagateExports | lib/file/MetadataFile.js:27-37 | each indexed sprite whose uid some exported clip places ends named by the last such rename, and exported; every other sprite keeps its name and flag; every sprite keeps its shapes and box |
| MetadataFile.MetadataFile.IndexAndName | lib/file/MetadataFile.js:21-37 | the sprite index is the later-wins uid index; every sprite is then labelled from the exported clips; the lists, shapes and boxes stay |
| MetadataFile.MetadataFile.Link | lib/file/MetadataFile.js:19-39 | takes the sprites and clips, indexes them, passes the names on without touching shapes or boxes, and warns iff the counts do not match |
| MetadataFile.MetadataFile.Decode | lib/file/MetadataFile.js:14-43 | fails when the metadata does not parse; otherwise every sprite is labelled from the clips, starting unnamed and unexported |
| File.Includes | lib/file/File.js:59-61 | true iff the needle occurs somewhere in the string |
| File.RemoveFirst | lib/file/File.js:23 | `replace(needle, '')`: unchanged when the needle is absent, otherwise shorter by the needle's length |
| File.RemoveFirstInverse | lib/file/File.js:23 | putting the needle back at the first occurrence restores the string |
| File.RemoveFirstAddsNothing | lib/file/File.js:34 | removal introduces no character that was not there |
| File.RemoveFirstKeeps | lib/file/File.js:34 | a character absent from the needle survives removal |
| File.RemoveAllAddsNothing | lib/file/File.js:33-34 | removing a list of strings introduces no new character |
| File.RemoveAllKeeps | lib/file/File.js:33-34 | a character absent from every removed string survives |
| File.BasenameNoSep | lib/file/File.js:21 | a basename contains no separator |
| File.SplitJoined | lib/file/File.js:19-21 | for `dir/name` with a separator-free name: basename is the name, and dirname is dir ("/" for an empty dir, "//" for "/") |
| File.ExtAfterLastDot | lib/file/File.js:22 | the extension has no '.', is a suffix of the name, and follows a '.' when non-empty, so a name with an extension contains '.' |
| File.SimpleName | lib/file/File.js:22-23 | for `stem.ext` with a single '.', ext is `ext` and name is `stem` |
| File.Derive | lib/file/File.js:18-26 | the fields computed by `_init` keep the path as given |
| File.DeriveJoined | lib/file/File.js:19-21 | re-initialising from `dir/name` gives file = name and dir = dir |
| File.Stripped | lib/file/File.js:33-34 | the `forEach` removes the first occurrence of each string in list order |
| File.File.constructor | lib/file/File.js:14-16 | a new file holds the fields of its path |
| File.File.Init | lib/file/File.js:18-26 | the fields become those of the new path |
| File.File.Remove | lib/file/File.js:32-37 | re-initialises from the old full path + "/" + stripped name, so file is the stripped name and dir is the old path |
| File.File.Is | lib/file/File.js:43-45 | true iff the extension is one of those given |
| File.File.Not | lib/file/File.js:51-53 | exactly the negation of `Is` |
| File.File.Contains | lib/file/File.js:59-61 | true iff the needle occurs in the file name, extension included |
| File.File.ChangePath | lib/file/File.js:63-67 | re-initialises from the joined parts + "/" + the unchanged file name |
| ArchiveExtractor.TextureForIsLast | lib/extract/ArchiveExtractor.js:31-35 | none iff no texture has the wanted name; otherwise the last one that has it |
| ArchiveExtractor.ScNameSurvives | lib/extract/ArchiveExtractor.js:53 | an sc name keeps a '.' once the resolution suffixes are removed |
| ArchiveExtractor.Relocate | lib/extract/ArchiveExtractor.js:53 | the file is stripped of "_highres"/"_lowres" and moved to dest/tmp/sc |
| ArchiveExtractor.PlacedName | lib/extract/ArchiveExtractor.js:53 | a placed file stripped to `stem.ext` has name `stem` |
| ArchiveExtractor.StrippedNamesPair | lib/extract/ArchiveExtractor.js:30-53 | entries that strip to `stem.ext` and `stem_tex.ext` are paired, whatever resolution suffixes they carried |
| ArchiveExtractor.ArchiveExtractor.constructor | lib/extract/ArchiveExtractor.js:8-15 | the archive path and empty lists |
| ArchiveExtractor.ArchiveExtractor.OnEntry | lib/extract/ArchiveExtractor.js:20-27 | entries that are neither csv nor sc change nothing; sc entries are appended as placed texture or metadata files; other kept entries are appended as placed csv files |
| ArchiveExtractor.ArchiveExtractor.Sc | lib/extract/ArchiveExtractor.js:49-57 | a name containing "tex" goes to the texture list, any other to the metadata list; then the stored file is relocated |
| ArchiveExtractor.ArchiveExtractor.Csv | lib/extract/ArchiveExtractor.js:59-65 | the file moves to dest/csv/<its parent dir>/<file> and is appended |
| ArchiveExtractor.ArchiveExtractor.OnComplete | lib/extract/ArchiveExtractor.js:29-43 | one pair per metadata file, in order, each with the last texture named after it plus "_tex" |
| ArchiveExtractor.PairUp | lib/extract/ArchiveExtractor.js:30-42 | the `map`: pair i is metadata file i with its texture |
| ArchiveExtractor.FindTexture | lib/extract/ArchiveExtractor.js:34-36 | the `forEach` with a running match ends with `TextureFor` |

## Left out

- The archive itself is not part of this model: the zip reading, stream
  piping and completion counting of lib/extract/ZipOperation.js. Entries
  arrive as names. `zip.extract` is left out of `_sc` and `_csv`, and so
  is the `ScTransform` that `_sc` builds, names and never uses.
- LZMA decompression is a function parameter of
  `CsvStream.CsvTransform.Flush`. The `done` and `push` callbacks are
  modelled as returned values.
- Images and files are not modelled:
  - `sharp` images and their compositing (`Sprite.to`, `_getShapeImages`,
    `Texture.to`, the `sharp(...)` call in the texture constructor); a
    texture's image is its decoded RGBA bytes;
  - `MetadataFile.to` and the reading of the metadata file, whose bytes and
    decoded textures are parameters of `Decode`;
  - `File.ensurePath`;
  - logging, modelled as a returned or stored warning flag where the source
    warns.
- `Polygon.getAngleDegrees` (`atan2`) is an abstract angle function passed
  to `Polygon.GetRotation`. `textureRotation`, `asSvg` and the empty
  `getScale` are not modelled.
- Numbers are exact reals or integers, not IEEE doubles:
  - JavaScript can differ at exact half-way points of `Math.round`;
  - the sprite scale `Sprite.SpriteScale` is exactly 1/20, while the double
    0.05 is not;
  - the dead `minX`/`minY` locals of `_convertSpritePolygon` are dropped.
- Text is bytes mapped one to one onto characters (Latin-1). UTF-8 decoding
  of names is not modelled.
- `ScStream.GetInfo` keeps only the bounds check of the final little-endian
  read. The unused `str`, `lzma` and `lzmaSize` values are dropped.
- `ArchiveExtractor.Relocate`: the new path is stated only when the
  stripped name is non-empty. `ArchiveExtractor.ScNameSurvives` shows that
  it is never empty for an sc entry.
- `ArchiveExtractor.ArchiveExtractor.Sc`: the same restriction applies to
  the relocation it states.
- `ArchiveExtractor.ArchiveExtractor.constructor`: `scFiles` starts as an
  empty list where the source has an empty object; `onComplete` replaces
  it with a list. The public `csvFiles` list is never filled by the source,
  and stays empty here.
- `Sprite.Load`: of a built sprite, it states only uid, type, texture list,
  name and flag (`Sprite.Made`). `Sprite.From` states the rest.
- `Metadata.Load`: states only what the cross-reference pass needs.
  `Metadata.From` states the rest.
- A NaN texture polygon is a flag on its shape (`Sprite.Shape.textureNaN`):
  the points keep their read values only for their count. Its box is the
  all-NaN `Sprite.NaNBox`, and it counts as not clockwise. `textureRotation`
  is not modelled, so its NaN is not either.
- `Sprite.Sprite.DeNormalizeShapes`: after a failure the shapes are left
  unspecified, since the exception leaves `from`.
- `MetadataFile.MetadataFile.Decode`: the count warning is stated by
  `MetadataFile.MetadataFile.Link`, not repeated here.
- `Metadata.NegativeLengthMovesBack`: stated on the name bytes
  (`Metadata.ExportNameBytes`). The text conversion is pointwise.
- `path.sep` is fixed to '/' (`File.Sep`): paths are POSIX paths. The
  Windows separators and the `path.win32` functions are not modelled.
- The texture list file of lib/file/TextureFile.js is not part of this
  model. Its textures reach `MetadataFile.MetadataFile.Decode` as a
  parameter.
