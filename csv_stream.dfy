/** The `.csv` stream rewriter of lib/extract/CsvTransform.js. A compressed
    table starts with the LZMA properties byte 0x5D or 0x5E and a dictionary
    size whose bytes 3 and 4 are 0x04 and 0x00. Such a first chunk gets 4
    zero bytes after its 9-byte header, widening the size field to the
    8 bytes of the legacy `.lzma` header. Every chunk is collected in a
    buffer, which is decompressed (or not) and pushed once at the end. */
module CsvStream {
  import opened Bytes

  /** The test on the first chunk; a missing byte reads `undefined` and fails it. */
  predicate Compressed(data: seq<byte>)
  {
    |data| >= 5 && (data[0] == 0x5D || data[0] == 0x5E) && data[3] == 0x04 && data[4] == 0x00
  }

  /** `Buffer.concat([data.slice(0, 9), [0, 0, 0, 0], data.slice(9)])`. */
  function Splice(data: seq<byte>): (r: seq<byte>)
    ensures |r| == |data| + 4
    ensures |data| >= 9 ==> r[..9] == data[..9] && r[9..13] == [0, 0, 0, 0] && r[13..] == data[9..]
    ensures |data| < 9 ==> r == data + [0, 0, 0, 0]
  {
    Take(data, 9) + [0, 0, 0, 0] + Drop(data, 9)
  }

  /** What chunk number `n` (counting from 1) contributes to the buffer. */
  function Transformed(n: nat, data: seq<byte>): (r: seq<byte>)
    ensures n == 1 && Compressed(data) ==> |r| == |data| + 4 && Take(data, 9) <= r
    ensures n != 1 || !Compressed(data) ==> r == data
  {
    if n == 1 && Compressed(data) then Splice(data) else data
  }

  /** The buffer after the chunks of `chunks`: their transformed bytes, in order. */
  function Collected(chunks: seq<seq<byte>>): (r: seq<byte>)
    decreases |chunks|
  {
    if chunks == [] then []
    else Collected(chunks[..|chunks| - 1]) + Transformed(|chunks|, chunks[|chunks| - 1])
  }

  /** Only the first chunk is changed: the buffer is the concatenation of the
      chunks with 4 bytes more when the first one is compressed. */
  lemma {:induction false} CollectedLength(chunks: seq<seq<byte>>)
    ensures |Collected(chunks)| == Total(chunks) + (if chunks != [] && Compressed(chunks[0]) then 4 else 0)
    decreases |chunks|
  {
    if chunks != [] {
      var init := chunks[..|chunks| - 1];
      CollectedLength(init);
      if init != [] {
        assert init[0] == chunks[0];
      }
    }
  }

  function Total(chunks: seq<seq<byte>>): nat
    decreases |chunks|
  {
    if chunks == [] then 0 else Total(chunks[..|chunks| - 1]) + |chunks[|chunks| - 1]|
  }

  /** The stream object: the chunk counter, the compressed flag and the
      collected bytes; `chunks` records what it was fed. */
  class CsvTransform {
    var chunk: nat
    var compressed: bool
    var buffer: seq<byte>
    ghost var chunks: seq<seq<byte>>

    ghost predicate Valid()
      reads this
    {
      chunk == |chunks| &&
      buffer == Collected(chunks) &&
      compressed == (chunks != [] && Compressed(chunks[0]))
    }

    constructor ()
      ensures Valid() && chunks == [] && buffer == [] && !compressed
    {
      chunk := 0;
      compressed := false;
      buffer := [];
      chunks := [];
    }

    /** `_transform`: nothing is emitted; the transformed chunk is appended to
        the buffer, and the flag can only be set by the first chunk. */
    method Transform(data: seq<byte>)
      requires Valid()
      modifies this
      ensures Valid() && chunks == old(chunks) + [data]
      ensures buffer == old(buffer) + Transformed(old(chunk) + 1, data)
      ensures compressed == (old(compressed) || (old(chunk) == 0 && Compressed(data)))
      ensures old(chunk) >= 1 ==> compressed == old(compressed)
    {
      chunk := chunk + 1;
      var tdata: seq<byte>;
      if chunk == 1 {
        if |data| >= 5 && (data[0] == 0x5D || data[0] == 0x5E) && data[3] == 0x04 && data[4] == 0x00 {
          compressed := true;
          tdata := Splice(data);
        } else {
          tdata := data;
        }
      } else {
        tdata := data;
      }
      buffer := buffer + tdata;
      chunks := chunks + [data];
      assert chunks[..|chunks| - 1] == old(chunks);
      if old(chunks) != [] {
        assert chunks[0] == old(chunks)[0];
      }
    }

    /** `_flush`: exactly one push, of the buffer or of its decompression
        (LZMA decoding is a parameter of the model). */
    method Flush(decompress: seq<byte> -> seq<byte>) returns (pushed: seq<seq<byte>>)
      requires Valid()
      ensures |pushed| == 1
      ensures pushed[0] == if compressed then decompress(Collected(chunks)) else Collected(chunks)
    {
      if compressed {
        pushed := [decompress(buffer)];
      } else {
        pushed := [buffer];
      }
    }
  }
}
