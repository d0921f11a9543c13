/** The `.sc` stream rewriter of lib/extract/ScTransform.js. An `.sc` file
    starts with the magic "SC", a big-endian version, a big-endian string
    length and that many bytes; its LZMA data sits at byte 26. The first
    chunk is cut down to that data and 4 zero bytes are spliced in after
    the 9 bytes of LZMA properties, dictionary size and 32-bit size, so
    that the size field becomes the 8-byte field of the legacy `.lzma`
    header. Later chunks pass through unchanged. */
module ScStream {
  import opened Bytes

  const Magic: seq<byte> := [0x53, 0x43]              // "SC"
  const Lzham: seq<byte> := [0x53, 0x43, 0x4C, 0x5A]  // "SCLZ"

  /** What `_getInfo` returns (the unused `lzma`, `lzmaSize` and `str` are dropped). */
  datatype Info = Info(magic: seq<byte>, version: int, strLen: int, sign: seq<byte>, offset: int)

  /** `_getInfo`: a cursor over the header. `toString` gets end indices where
      lengths were meant, so `sign` is read from `10 + strLen` up to index 4.
      The two big-endian reads and the final little-endian read throw when
      they fall outside the chunk. */
  function GetInfo(data: seq<byte>): (r: Result<Info>)
    ensures r.Ok? ==> |data| >= 10 && r.value.strLen == I32BE(data, 6).value
    ensures r.Ok? ==> r.value.magic == ToStringSlice(data, 0, 2) && r.value.version == I32BE(data, 2).value
    ensures r.Ok? ==> r.value.offset == 10 + r.value.strLen + (if r.value.sign == Lzham then 4 else 0)
    ensures r.Ok? <==> |data| >= 10 && I32LEInRange(data, GetInfoOffset(data))
  {
    var magic := ToStringSlice(data, 0, 2);
    var version :- I32BE(data, 2);
    var strLen :- I32BE(data, 6);
    var offset := 10 + strLen;
    var sign := ToStringSlice(data, offset, 4);
    var offset' := if sign == Lzham then offset + 4 else offset;
    if !I32LEInRange(data, offset') then Err(RangeError)
    else Ok(Info(magic, version, strLen, sign, offset'))
  }

  /** The offset at which `_getInfo` ends, for a chunk of at least 10 bytes. */
  function GetInfoOffset(data: seq<byte>): int
  {
    if |data| < 10 then 0
    else
      var strLen := I32BE(data, 6).value;
      if ToStringSlice(data, 10 + strLen, 4) == Lzham then 14 + strLen else 10 + strLen
  }

  /** A non-negative string length puts the start of `sign` past its end
      index, so `sign` is empty and the LZHAM rejection cannot fire. */
  lemma SignEmptyForNonNegativeLength(data: seq<byte>)
    requires GetInfo(data).Ok? && GetInfo(data).value.strLen >= -6
    ensures GetInfo(data).value.sign == []
  {
  }

  /** The LZHAM rejection can fire only for a string length between -14 and
      -10: `sign` must be the whole of bytes 0..3, and the little-endian
      read 4 bytes further on must stay inside the chunk. */
  lemma LzhamNeedsNegativeLength(data: seq<byte>)
    requires GetInfo(data).Ok? && GetInfo(data).value.sign == Lzham
    ensures -14 <= GetInfo(data).value.strLen <= -10
    ensures data[..4] == Lzham
  {
    var strLen := GetInfo(data).value.strLen;
    var sign := ToStringSlice(data, 10 + strLen, 4);
    assert |sign| == 4;
  }

  /** `Buffer.concat([data.slice(26, 35), [0, 0, 0, 0], data.slice(35)])`. */
  function Splice(data: seq<byte>): (r: seq<byte>)
    ensures |data| >= 35 ==> |r| == |data| - 22
    ensures |data| >= 35 ==> r[..9] == data[26..35] && r[9..13] == [0, 0, 0, 0] && r[13..] == data[35..]
    ensures |data| <= 26 ==> r == [0, 0, 0, 0]
  {
    Drop(Take(data, 35), 26) + [0, 0, 0, 0] + Drop(data, 35)
  }

  /** The outcome of one `_transform` call: the bytes handed to `done`, an
      `error` event (and no `done`), or an exception. */
  datatype ScError = MissingHeader | LzhamUnsupported
  datatype Step = Passed(bytes: seq<byte>) | Emitted(error: ScError) | Thrown(exception: Error)

  /** The result of `_transform` for the `chunk`-th chunk. */
  function StepFor(chunk: nat, data: seq<byte>): (s: Step)
    ensures chunk != 1 ==> s == Passed(data)
    ensures chunk == 1 && |data| < 10 ==> s == Thrown(RangeError)
    ensures chunk == 1 && s.Passed? ==> data[..2] == Magic && s.bytes == Splice(data)
    ensures chunk == 1 && GetInfo(data).Ok? && ToStringSlice(data, 0, 2) != Magic ==> s == Emitted(MissingHeader)
  {
    if chunk != 1 then Passed(data)
    else
      match GetInfo(data)
      case Err(e) => Thrown(e)
      case Ok(info) =>
        if info.magic != Magic then Emitted(MissingHeader)
        else if info.sign == Lzham then Emitted(LzhamUnsupported)
        else Passed(Splice(data))
  }

  /** A first chunk that carries the "SC" magic, a non-negative string length
      and enough bytes loses its 26-byte header and gains 4 zero bytes. */
  lemma FirstChunkSpliced(data: seq<byte>)
    requires |data| >= 35 && data[..2] == Magic
    requires I32BE(data, 6).value >= 0 && 10 + I32BE(data, 6).value + 4 <= |data|
    ensures StepFor(1, data).Passed?
    ensures |StepFor(1, data).bytes| == |data| - 22
    ensures StepFor(1, data).bytes[..9] == data[26..35]
    ensures StepFor(1, data).bytes[9..13] == [0, 0, 0, 0]
  {
    assert ToStringSlice(data, 0, 2) == data[..2];
    assert GetInfo(data).Ok?;
    SignEmptyForNonNegativeLength(data);
  }

  /** The stream object: `_chunk` counts the calls; `_buffer` is initialised
      and never used. */
  class ScTransform {
    var chunk: nat
    var buffer: seq<byte>

    constructor ()
      ensures chunk == 0 && buffer == []
    {
      chunk := 0;
      buffer := [];
    }

    /** `_transform`: count the chunk, then rewrite the first one. */
    method Transform(data: seq<byte>) returns (s: Step)
      modifies this
      ensures chunk == old(chunk) + 1 && buffer == old(buffer)
      ensures s == StepFor(chunk, data)
    {
      chunk := chunk + 1;
      if chunk == 1 {
        var info := GetInfo(data);
        if info.Err? {
          return Thrown(info.error);
        }
        if info.value.magic != Magic {
          return Emitted(MissingHeader);
        }
        if info.value.sign == Lzham {
          return Emitted(LzhamUnsupported);
        }
        s := Passed(Splice(data));
      } else {
        s := Passed(data);
      }
    }
  }
}
