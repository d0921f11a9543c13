/** Texture records of lib/file/parsers/Texture.js: the record layout, the
    list of records ended by a 0 byte, and the texture built from each. */
module Texture {
  import opened Bytes
  import Pixels

  /** A parsed record: the image type (signed), the size of everything after
      the size field, the pixel type (signed), the dimensions and the pixels. */
  datatype Record = Record(imageType: int, size: nat, pixelType: int, width: nat, height: nat, pixelData: seq<byte>)

  /** The `texture` layout: int8 type, u32 size, int8 pixel type, u16 width,
      u16 height, then a buffer of `size - 5` bytes. The buffer is clamped at
      the end of the input; a negative length reads nothing and moves the
      cursor back, so in every case the cursor ends `5 + size` bytes after
      the start of the record. */
  function ParseRecord(s: seq<byte>): (r: Result<(Record, seq<byte>)>)
    ensures r.Ok? <==> |s| >= 10
    ensures r.Ok? ==> r.value.1 == Drop(s, 5 + r.value.0.size) && Consumed(s, r.value.1, 5)
    ensures r.Ok? ==> r.value.0.size == LE32(s[1..]) && r.value.0.width == LE16(s[6..]) && r.value.0.height == LE16(s[8..])
    ensures r.Ok? ==> r.value.0.pixelData == if r.value.0.size < 5 then [] else Take(s[10..], r.value.0.size - 5)
    ensures r.Ok? ==> r.value.0.imageType == I8(s).value.0 && r.value.0.pixelType == I8(s[5..]).value.0
  {
    var (imageType, s1) :- I8(s);
    var (size, s2) :- U32(s1);
    var (pixelType, s3) :- I8(s2);
    var (width, s4) :- U16(s3);
    var (height, s5) :- U16(s4);
    assert s2 == s[5..] && s5 == s[10..];
    if size >= 5 then
      Ok((Record(imageType, size, pixelType, width, height, Take(s5, size - 5)), Drop(s5, size - 5)))
    else
      Ok((Record(imageType, size, pixelType, width, height, []), s[5 + size..]))
  }

  /** Whether the remaining input starts with the 0 byte that ends the list. */
  predicate AtEnd(rest: seq<byte>)
  {
    |rest| > 0 && rest[0] == 0
  }

  /** The `readUntil` array: a record is read, then the remaining input is
      checked; reading stops when it starts with a 0 byte. An empty remainder
      does not stop it, and the next record read fails. The list is the
      shortest run of records that a 0 byte follows. */
  function ParseRecords(s: seq<byte>): (r: Result<(seq<Record>, seq<byte>)>)
    ensures r.Ok? ==> |r.value.0| >= 1 && Consumed(s, r.value.1, 5 * |r.value.0|)
    ensures r.Ok? ==> ReadN(ParseRecord, s, |r.value.0|) == Ok(r.value) && AtEnd(r.value.1)
    ensures r.Ok? ==> forall k | 1 <= k < |r.value.0| ::
      ReadN(ParseRecord, s, k).Ok? && !AtEnd(ReadN(ParseRecord, s, k).value.1)
    decreases |s|
  {
    var (t, s1) :- ParseRecord(s);
    if AtEnd(s1) then
      ReadOne(ParseRecord, s);
      Ok(([t], s1))
    else
      var (ts, s2) :- ParseRecords(s1);
      ConsumedTrans(s, s1, s2, 5, 5 * |ts|);
      RecordsCons(s, t, s1, ts, s2);
      Ok(([t] + ts, s2))
  }

  /** A record not followed by 0, then a list, is a list one longer. */
  lemma RecordsCons(s: seq<byte>, t: Record, s1: seq<byte>, ts: seq<Record>, rest: seq<byte>)
    requires ParseRecord(s) == Ok((t, s1)) && !AtEnd(s1)
    requires ReadN(ParseRecord, s1, |ts|) == Ok((ts, rest))
    requires forall k | 1 <= k < |ts| :: ReadN(ParseRecord, s1, k).Ok? && !AtEnd(ReadN(ParseRecord, s1, k).value.1)
    ensures ReadN(ParseRecord, s, |ts| + 1) == Ok(([t] + ts, rest))
    ensures forall k | 1 <= k < |ts| + 1 :: ReadN(ParseRecord, s, k).Ok? && !AtEnd(ReadN(ParseRecord, s, k).value.1)
  {
    forall k | 1 <= k < |ts| + 1
      ensures ReadN(ParseRecord, s, k).Ok? && !AtEnd(ReadN(ParseRecord, s, k).value.1)
    {
      assert ReadN(ParseRecord, s1, k - 1).Ok? && !AtEnd(ReadN(ParseRecord, s1, k - 1).value.1);
    }
  }

  /** A texture: the record's fields, the scale factors, and for a non-empty
      type the premultiplied flag and the decoded image (absent when the
      pixel type has no decoder). */
  datatype Texture = Texture(
    name: string, imageType: int, size: nat, width: nat, height: nat, pixelType: int,
    widthFactor: real, heightFactor: real,
    isPremultiplied: Option<bool>, image: Option<seq<byte>>)

  /** The `Texture` constructor; it throws when the pixel decode throws. */
  function MakeTexture(rec: Record, name: string): (r: Result<Texture>)
    ensures r.Ok? ==> r.value.name == name && r.value.width == rec.width && r.value.height == rec.height
    ensures r.Ok? ==> r.value.widthFactor * 65535.0 == rec.width as real
    ensures r.Ok? ==> r.value.heightFactor * 65535.0 == rec.height as real
    ensures rec.imageType == 0 ==> r.Ok? && r.value.isPremultiplied.None? && r.value.image.None?
    ensures rec.imageType != 0 && r.Ok? ==> r.value.isPremultiplied == Some(rec.pixelType != 0)
    ensures rec.imageType != 0 && r.Ok? ==> (r.value.image.Some? <==> Pixels.Supported(rec.pixelType))
    ensures r.Err? <==> rec.imageType != 0 && Pixels.Wide(rec.pixelType) && |rec.pixelData| % 2 == 1
  {
    var base := Texture(name, rec.imageType, rec.size, rec.width, rec.height, rec.pixelType,
                        rec.width as real / 65535.0, rec.height as real / 65535.0, None, None);
    if rec.imageType == 0 then Ok(base)
    else
      var pixels :- Pixels.Decoded(rec.pixelData, rec.pixelType, rec.imageType, rec.width, rec.height);
      Ok(base.(isPremultiplied := Some(rec.pixelType != 0), image := pixels))
  }

  /** The name of texture `i` of the file `name`. */
  function Numbered(name: string, i: nat): string
  {
    name + "_" + NatToString(i)
  }

  /** The textures built from `recs`, the first numbered `from`: texture `i`
      is record `i` built under the name numbered `from + i`, and the first
      record that does not build fails the whole. */
  function MakeTextures(recs: seq<Record>, name: string, from: nat): (r: Result<seq<Texture>>)
    ensures r.Ok? <==> forall i | 0 <= i < |recs| :: MakeTexture(recs[i], Numbered(name, from + i)).Ok?
    ensures r.Ok? ==> |r.value| == |recs|
    ensures r.Ok? ==> forall i | 0 <= i < |recs| :: MakeTexture(recs[i], Numbered(name, from + i)) == Ok(r.value[i])
    decreases |recs|
  {
    if recs == [] then Ok([])
    else
      NumberedShift(recs, name, from);
      var t :- MakeTexture(recs[0], Numbered(name, from));
      var ts :- MakeTextures(recs[1..], name, from + 1);
      Ok([t] + ts)
  }

  /** Record `i + 1` under the number `from + i + 1` is record `i` of the
      tail under the number `(from + 1) + i`. */
  lemma NumberedShift(recs: seq<Record>, name: string, from: nat)
    requires recs != []
    ensures forall i | 1 <= i < |recs| ::
      MakeTexture(recs[i], Numbered(name, from + i)) == MakeTexture(recs[1..][i - 1], Numbered(name, from + 1 + (i - 1)))
  {
    forall i | 1 <= i < |recs|
      ensures MakeTexture(recs[i], Numbered(name, from + i)) ==
        MakeTexture(recs[1..][i - 1], Numbered(name, from + 1 + (i - 1)))
    {
      assert recs[1..][i - 1] == recs[i] && from + 1 + (i - 1) == from + i;
    }
  }

  /** `Texture.multipleFrom`: the records of the file, in order, texture `i`
      built from record `i` under the name `name_i`. */
  function MultipleFrom(data: seq<byte>, name: string): (r: Result<seq<Texture>>)
    ensures r.Ok? <==> ParseRecords(data).Ok? && MakeTextures(ParseRecords(data).value.0, name, 0).Ok?
    ensures r.Ok? ==> |r.value| == |ParseRecords(data).value.0| >= 1
    ensures r.Ok? ==> forall i | 0 <= i < |r.value| ::
      MakeTexture(ParseRecords(data).value.0[i], Numbered(name, i)) == Ok(r.value[i])
  {
    var (recs, _) :- ParseRecords(data);
    MakeTextures(recs, name, 0)
  }

  /** Texture `i` is named `name_i`. */
  lemma MultipleFromNames(data: seq<byte>, name: string)
    ensures MultipleFrom(data, name).Ok? ==> var ts := MultipleFrom(data, name).value;
      forall i | 0 <= i < |ts| :: ts[i].name == name + "_" + NatToString(i)
  {
  }

  /** A record of type 0 yields a texture without image whatever its pixels. */
  lemma EmptyTypeHasNoImage(rec: Record, name: string)
    requires rec.imageType == 0
    ensures MakeTexture(rec, name).Ok? && MakeTexture(rec, name).value.image.None?
  {
  }

  /** One record followed by the terminating 0 byte parses to that record. */
  lemma SingleRecord(s: seq<byte>, tail: seq<byte>)
    requires |s| >= 10 && 5 + LE32(s[1..]) == |s|
    requires |tail| > 0 && tail[0] == 0
    ensures ParseRecords(s + tail).Ok?
    ensures |ParseRecords(s + tail).value.0| == 1 && ParseRecords(s + tail).value.1 == tail
    ensures ParseRecords(s + tail).value.0[0].pixelData == s[10..]
  {
    var st := s + tail;
    assert st[1..][..4] == s[1..][..4];
    assert LE32(st[1..]) == LE32(s[1..]);
    assert st[10..][..|s| - 10] == s[10..];
    assert Drop(st, |s|) == tail;
  }

  /** An entry of a metadata file's texture list: the raw record read from
      the metadata file itself, or a texture put in its place. */
  datatype TextureSlot = Raw(record: Tlv) | Loaded(texture: Texture)
}
