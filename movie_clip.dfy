/** Movie clips of lib/file/parsers/MovieClip.js: the payload layout, the
    export-name lookup and the type check. */
module MovieClip {
  import opened Bytes

  /** One entry of `transforms`: three signed 16-bit indexes. */
  datatype TransformRef = TransformRef(transformIndex: int, colorTransformIndex: int, spriteIndex: int)

  /** A frame: u8 type, u32 size, two u8 fields and a name. */
  datatype Frame = Frame(frameType: byte, size: nat, num1: byte, num2: byte, name: string)

  datatype MovieClip = MovieClip(
    uid: nat, fps: byte, frameCount: nat, transformCount: nat, constant: int,
    transforms: seq<TransformRef>,
    spriteCount: nat, spriteIds: seq<nat>, spriteOpacities: seq<byte>, spriteNames: seq<string>,
    frames: seq<Frame>, extraObjects: seq<Tlv>,
    clipType: int, exportName: string, exported: bool)

  function ParseTransforms(s: seq<byte>, n: nat): (r: Result<(seq<TransformRef>, seq<byte>)>)
    ensures r.Ok? <==> |s| >= 6 * n
    ensures r.Ok? ==> |r.value.0| == n && r.value.1 == s[6 * n..]
    decreases n
  {
    if n == 0 then Ok(([], s))
    else
      var (a, s1) :- I16(s);
      var (b, s2) :- I16(s1);
      var (c, s3) :- I16(s2);
      var (ts, s4) :- ParseTransforms(s3, n - 1);
      Ok(([TransformRef(a, b, c)] + ts, s4))
  }

  /** Entry `i` of the transforms holds the three int16 values at byte `6 i`. */
  lemma {:induction false} TransformValues(s: seq<byte>, n: nat)
    requires |s| >= 6 * n
    ensures forall i | 0 <= i < n ::
      (ParseTransforms(s, n).value.0[i] ==
         TransformRef(I16(s[6 * i..]).value.0, I16(s[6 * i + 2..]).value.0, I16(s[6 * i + 4..]).value.0))
    decreases n
  {
    if n > 0 {
      var s3 := s[6..];
      TransformValues(s3, n - 1);
      assert s[2..][2..] == s[4..] && s[4..][2..] == s3;
      var ts := ParseTransforms(s, n).value.0;
      var ts3 := ParseTransforms(s3, n - 1).value.0;
      assert ts == [TransformRef(I16(s).value.0, I16(s[2..]).value.0, I16(s[4..]).value.0)] + ts3;
      forall i | 1 <= i < n
        ensures ts[i] == TransformRef(I16(s[6 * i..]).value.0, I16(s[6 * i + 2..]).value.0, I16(s[6 * i + 4..]).value.0)
      {
        assert ts[i] == ts3[i - 1];
        assert s[6 * i..] == s3[6 * (i - 1)..] && s[6 * i + 2..] == s3[6 * (i - 1) + 2..];
        assert s[6 * i + 4..] == s3[6 * (i - 1) + 4..];
      }
    }
  }

  function ParseU8s(s: seq<byte>, n: nat): (r: Result<(seq<byte>, seq<byte>)>)
    ensures r.Ok? <==> |s| >= n
    ensures r.Ok? ==> r.value.0 == s[..n] && r.value.1 == s[n..]
  {
    if |s| < n then Err(RangeError) else Ok((s[..n], s[n..]))
  }

  /** `string255`: a length byte, then that many bytes of text; the length
      255 stands for the empty string and consumes nothing more. The text is
      clamped at the end of the input while the cursor still moves on, so
      that the next read fails. */
  function ParseString255(s: seq<byte>): (r: Result<(string, seq<byte>)>)
    ensures r.Ok? <==> |s| >= 1
    ensures r.Ok? && s[0] == 255 ==> r.value == ("", s[1..])
    ensures r.Ok? && s[0] != 255 && |s| >= 1 + s[0] ==>
      r.value == (Latin1(s[1..1 + s[0]]), s[1 + s[0]..])
    ensures r.Ok? && s[0] != 255 && |s| < 1 + s[0] ==> r.value.1 == []
  {
    var (len, s1) :- U8(s);
    var n := if len == 255 then 0 else len;
    assert s1 == s[1..];
    assert n <= |s1| ==> Take(s1, n) == s[1..1 + n];
    Ok((Latin1(Take(s1, n)), Drop(s1, n)))
  }

  /** `array(string255, {length: n})`. */
  function ParseNames(s: seq<byte>, n: nat): (r: Result<(seq<string>, seq<byte>)>)
    ensures r.Ok? ==> |r.value.0| == n
    ensures r == ReadN(ParseString255, s, n)
    decreases n
  {
    if n == 0 then Ok(([], s))
    else
      ReadNStep(ParseString255, s, n);
      var (x, s1) :- ParseString255(s);
      var (xs, s2) :- ParseNames(s1, n - 1);
      Ok(([x] + xs, s2))
  }

  /** A frame takes 7 bytes and its name; the `size` field is read but plays
      no part in where the frame ends. */
  function ParseFrame(s: seq<byte>): (r: Result<(Frame, seq<byte>)>)
    ensures r.Ok? <==> |s| >= 8
    ensures r.Ok? ==> var f := r.value.0;
      f.frameType == s[0] && f.size == LE32(s[1..]) && f.num1 == s[5] && f.num2 == s[6]
    ensures r.Ok? ==> r.value.1 == ParseString255(s[7..]).value.1 && r.value.0.name == ParseString255(s[7..]).value.0
  {
    var (frameType, s1) :- U8(s);
    var (size, s2) :- U32(s1);
    var (num1, s3) :- U8(s2);
    var (num2, s4) :- U8(s3);
    assert s1 == s[1..] && s2 == s[5..] && s3 == s[6..] && s4 == s[7..];
    var (name, s5) :- ParseString255(s4);
    Ok((Frame(frameType, size, num1, num2, name), s5))
  }

  /** `array(frame, {length: n})`. */
  function ParseFrames(s: seq<byte>, n: nat): (r: Result<(seq<Frame>, seq<byte>)>)
    ensures r.Ok? ==> |r.value.0| == n
    ensures r == ReadN(ParseFrame, s, n)
    decreases n
  {
    if n == 0 then Ok(([], s))
    else
      ReadNStep(ParseFrame, s, n);
      var (f, s1) :- ParseFrame(s);
      var (fs, s2) :- ParseFrames(s1, n - 1);
      Ok(([f] + fs, s2))
  }

  /** The sprite table: ids, then opacities, then names, `n` of each. */
  function ParseSpriteTable(s: seq<byte>, n: nat): (r: Result<(seq<nat>, seq<byte>, seq<string>, seq<byte>)>)
    ensures r.Ok? ==> |r.value.0| == |r.value.1| == |r.value.2| == n
    ensures r.Ok? <==> |s| >= 3 * n && ParseNames(s[3 * n..], n).Ok?
    ensures r.Ok? ==> r.value.0 == U16s(s, n).value.0 && r.value.1 == s[2 * n..3 * n]
    ensures r.Ok? ==> ParseNames(s[3 * n..], n) == Ok((r.value.2, r.value.3))
  {
    var (ids, s1) :- U16s(s, n);
    assert s1 == s[2 * n..];
    var (opacities, s2) :- ParseU8s(s1, n);
    assert s2 == s[3 * n..] && opacities == s[2 * n..3 * n];
    var (names, s3) :- ParseNames(s2, n);
    Ok((ids, opacities, names, s3))
  }

  /** The fixed header: u16 uid, u8 fps, u16 frame count, u16 transform
      count, i16 constant. */
  function ParseHeader(s: seq<byte>): (r: Result<(MovieClip, seq<byte>)>)
    ensures r.Ok? <==> |s| >= 9
    ensures r.Ok? ==> r.value.0.uid == LE16(s) && r.value.0.fps == s[2] && r.value.1 == s[9..]
    ensures r.Ok? ==> var h := r.value.0;
      h.frameCount == LE16(s[3..]) && h.transformCount == LE16(s[5..]) && h.constant == I16(s[7..]).value.0
  {
    var (uid, s1) :- U16(s);
    var (fps, s2) :- U8(s1);
    var (frameCount, s3) :- U16(s2);
    var (transformCount, s4) :- U16(s3);
    var (constant, s5) :- I16(s4);
    assert s2 == s[3..] && s3 == s[5..] && s4 == s[7..];
    Ok((MovieClip(uid, fps, frameCount, transformCount, constant, [], 0, [], [], [], [], [], 0, "", false), s5))
  }

  /** What follows the transforms: the u16 sprite count, the sprite table,
      `frameCount` frames and the extra objects. */
  function ParseRest(s: seq<byte>, frameCount: nat):
    (r: Result<(nat, seq<nat>, seq<byte>, seq<string>, seq<Frame>, seq<Tlv>)>)
    ensures r.Ok? ==> |s| >= 2 && r.value.0 == LE16(s)
    ensures r.Ok? ==> |r.value.1| == |r.value.2| == |r.value.3| == r.value.0
    ensures r.Ok? ==> |r.value.4| == frameCount && |r.value.5| >= 1
    ensures r.Ok? ==> var table := ParseSpriteTable(s[2..], LE16(s));
      table.Ok? && r.value.1 == table.value.0 && r.value.2 == table.value.1 && r.value.3 == table.value.2
    ensures r.Ok? ==> var tableEnd := ParseSpriteTable(s[2..], LE16(s)).value.3;
      ParseFrames(tableEnd, frameCount).Ok? && r.value.4 == ParseFrames(tableEnd, frameCount).value.0 &&
      ParseTlvsUntilZero(ParseFrames(tableEnd, frameCount).value.1).Ok? &&
      r.value.5 == ParseTlvsUntilZero(ParseFrames(tableEnd, frameCount).value.1).value.0
  {
    var (spriteCount, s1) :- U16(s);
    assert s1 == s[2..];
    var (ids, opacities, names, s2) :- ParseSpriteTable(s1, spriteCount);
    var (frames, s3) :- ParseFrames(s2, frameCount);
    var (extraObjects, _) :- ParseTlvsUntilZero(s3);
    Ok((spriteCount, ids, opacities, names, frames, extraObjects))
  }

  /** The payload layout: the header, the transforms, then the rest; the
      type and the export fields are filled in by `From`. */
  function Parse(s: seq<byte>): (r: Result<MovieClip>)
    ensures r.Ok? ==> |r.value.transforms| == r.value.transformCount
    ensures r.Ok? ==> |r.value.spriteIds| == |r.value.spriteOpacities| == |r.value.spriteNames| == r.value.spriteCount
    ensures r.Ok? ==> |r.value.frames| == r.value.frameCount
    ensures r.Ok? ==> |r.value.extraObjects| >= 1
    ensures r.Ok? ==> |s| >= 9 && r.value.uid == LE16(s) && r.value.fps == s[2]
    ensures r.Ok? ==> r.value.exportName == "" && !r.value.exported
    ensures r.Ok? <==>
      |s| >= 9 && |s| >= 9 + 6 * LE16(s[5..]) && ParseRest(s[9 + 6 * LE16(s[5..])..], LE16(s[3..])).Ok?
    ensures r.Ok? ==>
      var rest := ParseRest(s[9 + 6 * LE16(s[5..])..], LE16(s[3..])).value;
      r.value == MovieClip(LE16(s), s[2], LE16(s[3..]), LE16(s[5..]), I16(s[7..]).value.0,
                           ParseTransforms(s[9..], LE16(s[5..])).value.0,
                           rest.0, rest.1, rest.2, rest.3, rest.4, rest.5, 0, "", false)
  {
    var (head, s1) :- ParseHeader(s);
    var (transforms, s2) :- ParseTransforms(s1, head.transformCount);
    assert s2 == s[9 + 6 * head.transformCount..];
    var rest :- ParseRest(s2, head.frameCount);
    Ok(MovieClip(head.uid, head.fps, head.frameCount, head.transformCount, head.constant, transforms,
                 rest.0, rest.1, rest.2, rest.3, rest.4, rest.5, 0, "", false))
  }

  /** `isValid`: the movie clip types. */
  predicate IsValid(clipType: int)
  {
    clipType == 3 || clipType == 10 || clipType == 12 || clipType == 14
  }

  /** `MovieClip.from`: parse, set the type, look the uid up in the export
      table (an absent or empty name is falsy and leaves the clip unexported
      under "no name"), and warn about an unknown type. */
  function From(clipType: int, data: seq<byte>, exports: map<nat, string>): (r: Result<(MovieClip, bool)>)
    ensures r.Ok? <==> Parse(data).Ok?
    ensures r.Ok? ==> r.value.0 == Parse(data).value.(clipType := clipType, exportName := r.value.0.exportName,
                                                     exported := r.value.0.exported)
    ensures r.Ok? ==> (r.value.0.exported <==> r.value.0.uid in exports && exports[r.value.0.uid] != "")
    ensures r.Ok? && r.value.0.exported ==> r.value.0.exportName == exports[r.value.0.uid]
    ensures r.Ok? && !r.value.0.exported ==> r.value.0.exportName == "no name"
    ensures r.Ok? ==> (r.value.1 <==> !IsValid(clipType))
  {
    var mc :- Parse(data);
    var named :=
      if mc.uid in exports && exports[mc.uid] != "" then mc.(exportName := exports[mc.uid], exported := true)
      else mc.(exportName := "no name", exported := false);
    Ok((named.(clipType := clipType), !IsValid(clipType)))
  }

  /** The `string255` encoding of a name shorter than 255 bytes. */
  function EncodeString255(b: seq<byte>): (r: seq<byte>)
    requires |b| < 255
    ensures |r| == |b| + 1 && r[1..] == b
  {
    [|b|] + b
  }

  /** A name shorter than 255 bytes reads back as itself, and the input
      after it is left untouched. */
  lemma String255RoundTrip(b: seq<byte>, tail: seq<byte>)
    requires |b| < 255
    ensures ParseString255(EncodeString255(b) + tail) == Ok((Latin1(b), tail))
  {
    var s := EncodeString255(b) + tail;
    assert s[1..] == b + tail;
    assert Take(s[1..], |b|) == b;
  }

  /** Of two clips whose frames carry different `size` fields but the same
      bytes otherwise, the frame reads consume the same input. */
  lemma FrameSizeIgnored(s: seq<byte>, size: seq<byte>)
    requires |s| >= 8 && |size| == 4
    ensures var s' := s[..1] + size + s[5..];
      ParseFrame(s').Ok? && ParseFrame(s').value.1 == ParseFrame(s).value.1 &&
      ParseFrame(s').value.0.name == ParseFrame(s).value.0.name
  {
    var s' := s[..1] + size + s[5..];
    assert s'[7..] == s[7..];
  }
}
