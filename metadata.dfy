/** The metadata of an `.sc` file, lib/file/parsers/Metadata.js: six object
    counts, the export table, a run of ignored records, then the texture,
    sprite, text, transform, colour-transform and movie-clip records. `from`
    indexes the exports, substitutes decoded textures for the texture
    records and builds the sprites and movie clips. */
module Metadata {
  import opened Bytes
  import Texture
  import Sprite
  import MovieClip

  // ---------------------------------------------------------------------
  // Layout.

  /** The six u16 counts, in file order. */
  datatype Counts = Counts(spriteCount: nat, movieClipCount: nat, textureCount: nat,
                           textCount: nat, transformCount: nat, colorTransformCount: nat)

  /** The counts, then 5 skipped bytes. The skip is not checked: a short
      input fails at the next read. */
  function ParseCounts(s: seq<byte>): (r: Result<(Counts, seq<byte>)>)
    ensures r.Ok? <==> |s| >= 12
    ensures r.Ok? ==> r.value.1 == Drop(s, 17)
    ensures r.Ok? ==> r.value.0.spriteCount == LE16(s) && r.value.0.movieClipCount == LE16(s[2..])
    ensures r.Ok? ==> r.value.0.textureCount == LE16(s[4..]) && r.value.0.textCount == LE16(s[6..])
    ensures r.Ok? ==> r.value.0.transformCount == LE16(s[8..]) && r.value.0.colorTransformCount == LE16(s[10..])
  {
    var (a, s1) :- U16(s);
    var (b, s2) :- U16(s1);
    var (c, s3) :- U16(s2);
    var (d, s4) :- U16(s3);
    var (e, s5) :- U16(s4);
    var (f, s6) :- U16(s5);
    assert s1 == s[2..] && s2 == s[4..] && s3 == s[6..] && s4 == s[8..];
    assert s5 == s[10..] && s6 == s[12..];
    assert Drop(s6, 5) == Drop(s, 17);
    Ok((Counts(a, b, c, d, e, f), Drop(s6, 5)))
  }

  /** The export names: each an int8 length, then that many bytes of text,
      read as Latin-1. */
  function ExportNames(buf: seq<byte>, off: int, n: nat): (r: Result<(seq<string>, int)>)
    ensures r.Ok? <==> ExportNameBytes(buf, off, n).Ok?
    ensures r.Ok? ==> |r.value.0| == n && r.value.1 == ExportNameBytes(buf, off, n).value.1
    ensures n > 0 && (off < 0 || off >= |buf|) ==> r == Err(RangeError)
  {
    var (raw, end) :- ExportNameBytes(buf, off, n);
    Ok((Texts(raw), end))
  }

  /** The bytes of the export names. The parser works on a cursor into the
      whole input `buf`: a negative length reads the empty name and moves the
      cursor back, a length past the end reads what is left and moves the
      cursor past it. Reading a length outside the input throws. */
  function ExportNameBytes(buf: seq<byte>, off: int, n: nat): (r: Result<(seq<seq<byte>>, int)>)
    ensures r.Ok? ==> |r.value.0| == n
    ensures n > 0 && (off < 0 || off >= |buf|) ==> r == Err(RangeError)
    decreases n
  {
    if n == 0 then Ok(([], off))
    else if off < 0 || off >= |buf| then Err(RangeError)
    else
      var rest :- ExportNameBytes(buf, NameEnd(buf, off), n - 1);
      Ok(([NameAt(buf, off)] + rest.0, rest.1))
  }

  /** The int8 length at `off`. */
  function NameLength(buf: seq<byte>, off: nat): (len: int)
    requires off < |buf|
    ensures -128 <= len < 128 && len % 256 == buf[off]
  {
    if buf[off] < 128 then buf[off] as int else buf[off] as int - 256
  }

  /** The bytes of the name whose length is at `off`. */
  function NameAt(buf: seq<byte>, off: nat): seq<byte>
    requires off < |buf|
  {
    ToStringSlice(buf, off + 1, off + 1 + NameLength(buf, off))
  }

  /** Where the cursor goes after the name at `off`. */
  function NameEnd(buf: seq<byte>, off: nat): int
    requires off < |buf|
  {
    off + 1 + NameLength(buf, off)
  }

  /** The names as text. */
  function Texts(names: seq<seq<byte>>): (t: seq<string>)
    ensures |t| == |names| && forall i | 0 <= i < |names| :: t[i] == Latin1(names[i])
  {
    seq(|names|, i requires 0 <= i < |names| => Latin1(names[i]))
  }

  /** A name whose length fits a positive int8. */
  type ShortName = b: seq<byte> | |b| < 128

  /** The export-table encoding of names shorter than 128 bytes: each a
      length byte, then its bytes. */
  function EncodeNames(names: seq<ShortName>): seq<byte>
  {
    if names == [] then [] else [|names[0]|] + names[0] + EncodeNames(names[1..])
  }

  /** Encoded names lying at `off` read back as themselves, as text, and
      leave the cursor right after them. */
  lemma ExportNamesRoundTrip(buf: seq<byte>, off: nat, names: seq<ShortName>)
    requires off + |EncodeNames(names)| <= |buf| && buf[off..off + |EncodeNames(names)|] == EncodeNames(names)
    ensures ExportNames(buf, off, |names|) == Ok((Texts(names), off + |EncodeNames(names)|))
  {
    EncodedAtOf(buf, off, names);
    ReadEncodedAt(buf, off, names);
  }

  /** Reading from `off` meets `names` one after another: each name read is
      the next of `names`, and the cursor moves right past it. */
  predicate ReadsAs(buf: seq<byte>, off: nat, names: seq<ShortName>)
    decreases |names|
  {
    names == [] ||
    (off < |buf| && NameAt(buf, off) == names[0] && NameEnd(buf, off) == off + 1 + |names[0]| &&
     ReadsAs(buf, off + 1 + |names[0]|, names[1..]))
  }

  lemma {:induction false} EncodedAtOf(buf: seq<byte>, off: nat, names: seq<ShortName>)
    requires off + |EncodeNames(names)| <= |buf| && buf[off..off + |EncodeNames(names)|] == EncodeNames(names)
    ensures ReadsAs(buf, off, names)
    decreases |names|
  {
    if names != [] {
      EncodedFirst(buf, off, names);
      EncodedAtOf(buf, off + 1 + |names[0]|, names[1..]);
    }
  }

  /** The first of the encoded names reads back as itself; the others lie
      right after it. */
  lemma EncodedFirst(buf: seq<byte>, off: nat, names: seq<ShortName>)
    requires names != []
    requires off + |EncodeNames(names)| <= |buf| && buf[off..off + |EncodeNames(names)|] == EncodeNames(names)
    ensures var next := off + 1 + |names[0]|; var e' := EncodeNames(names[1..]);
      off < |buf| && NameAt(buf, off) == names[0] && NameEnd(buf, off) == next &&
      next + |e'| <= |buf| && buf[next..next + |e'|] == e'
  {
    EncodedSplit(buf, off, names);
    EncodedName(buf, off, names[0]);
  }

  lemma {:induction false} ReadEncodedAt(buf: seq<byte>, off: nat, names: seq<ShortName>)
    requires ReadsAs(buf, off, names)
    ensures ExportNameBytes(buf, off, |names|) == Ok((names, off + |EncodeNames(names)|))
    decreases |names|
  {
    if names != [] {
      var next := off + 1 + |names[0]|;
      ReadEncodedAt(buf, next, names[1..]);
      NameThenRest(buf, off, next, names, next + |EncodeNames(names[1..])|);
      assert |EncodeNames(names)| == 1 + |names[0]| + |EncodeNames(names[1..])|;
    } else {
      assert ExportNameBytes(buf, off, 0) == Ok(([], off));
    }
  }

  /** A name read at `off`, followed by the rest read where it ends. */
  lemma NameThenRest(buf: seq<byte>, off: nat, next: int, names: seq<seq<byte>>, end: int)
    requires names != [] && off < |buf| && NameAt(buf, off) == names[0] && NameEnd(buf, off) == next
    requires ExportNameBytes(buf, next, |names[1..]|) == Ok((names[1..], end))
    ensures ExportNameBytes(buf, off, |names|) == Ok((names, end))
  {
    assert |names| - 1 == |names[1..]|;
    assert [names[0]] + names[1..] == names;
  }

  /** A name shorter than 128 bytes, with its length byte at `off`, reads
      back as itself and moves the cursor past it. */
  lemma EncodedName(buf: seq<byte>, off: nat, b: seq<byte>)
    requires |b| < 128 && off + 1 + |b| <= |buf| && buf[off] == |b| && buf[off + 1..off + 1 + |b|] == b
    ensures NameEnd(buf, off) == off + 1 + |b| && NameAt(buf, off) == b
  {
    assert NameLength(buf, off) == |b|;
    if |b| == 0 {
      assert ToStringSlice(buf, off + 1, off + 1) == [];
    }
  }

  /** The encoding of the first name, and the rest, as they lie in `buf`. */
  lemma {:induction false} EncodedSplit(buf: seq<byte>, off: nat, names: seq<ShortName>)
    requires names != []
    requires off + |EncodeNames(names)| <= |buf| && buf[off..off + |EncodeNames(names)|] == EncodeNames(names)
    ensures var b := names[0]; var next := off + 1 + |b|; var e' := EncodeNames(names[1..]);
      buf[off] == |b| && buf[off + 1..next] == b &&
      next + |e'| <= |buf| && buf[next..next + |e'|] == e' &&
      off + |EncodeNames(names)| == next + |e'|
  {
    assert EncodeNames(names) == [|names[0]|] + names[0] + EncodeNames(names[1..]);
    SplitAt(buf, off, |names[0]|, names[0], EncodeNames(names[1..]));
  }

  lemma SplitAt(buf: seq<byte>, off: nat, len: byte, b: seq<byte>, e: seq<byte>)
    requires off + 1 + |b| + |e| <= |buf| && buf[off..off + 1 + |b| + |e|] == [len] + b + e
    ensures buf[off] == len && buf[off + 1..off + 1 + |b|] == b && buf[off + 1 + |b|..off + 1 + |b| + |e|] == e
  {
    var w := buf[off..off + 1 + |b| + |e|];
    assert buf[off] == w[0];
    assert forall i | 0 <= i < |b| :: buf[off + 1..off + 1 + |b|][i] == w[1 + i] == b[i];
    assert buf[off + 1 + |b|..off + 1 + |b| + |e|] == w[1 + |b|..];
  }

  /** A length byte of 128 or more is a negative length: the name is empty
      and the cursor moves back to `off + 1 + len`. */
  lemma NegativeLengthMovesBack(buf: seq<byte>, off: int, n: nat)
    requires 0 <= off < |buf| && buf[off] >= 128 && n >= 1
    ensures var back := off + 1 + (buf[off] as int - 256);
      back <= off && ExportNameBytes(buf, off, n) == (
        match ExportNameBytes(buf, back, n - 1)
        case Ok((rest, off')) => Ok(([[]] + rest, off'))
        case Err(e) => Err(e))
  {
    assert NameLength(buf, off) < 0;
  }

  /** The record runs that follow the export table. */
  datatype Layout = Layout(
    counts: Counts, exportIds: seq<nat>, exportNames: seq<string>, ignored: seq<Tlv>,
    textures: seq<Tlv>, sprites: seq<Tlv>, texts: seq<Tlv>, transforms: seq<Tlv>,
    colorTransforms: seq<Tlv>, movieClips: seq<Tlv>)

  /** Whether the byte after a record continues the ignored run. */
  predicate IgnoredTag(rest: seq<byte>)
  {
    |rest| > 0 && (rest[0] == 26 || rest[0] == 23)
  }

  /** `ignored`: records are read until the byte after one of them is
      neither 26 nor 23. The test reads that byte, so an input that ends
      right after a record throws. The run is the shortest prefix of records
      that such a byte follows: the records read one after another, each
      earlier one followed by 26 or 23. */
  function ParseIgnored(s: seq<byte>): (r: Result<(seq<Tlv>, seq<byte>)>)
    ensures r.Ok? ==> |r.value.0| >= 1 && Consumed(s, r.value.1, 5 * |r.value.0|)
    ensures r.Ok? ==> |r.value.1| >= 1 && !IgnoredTag(r.value.1)
    decreases |s|
  {
    var (t, s1) :- ParseTlv(s);
    if |s1| == 0 then Err(RangeError)
    else if !IgnoredTag(s1) then
      Ok(([t], s1))
    else
      var (ts, s2) :- ParseIgnored(s1);
      ConsumedTrans(s, s1, s2, 5, 5 * |ts|);
      Ok(([t] + ts, s2))
  }

  /** The ignored run is the counted run of its records, and it stops at the
      first record the byte after which is neither 26 nor 23: every shorter
      run is followed by 26 or 23, and the whole run is not. */
  lemma {:induction false} IgnoredRun(s: seq<byte>)
    requires ParseIgnored(s).Ok?
    ensures StopsAtFirst(ParseTlv, IgnoredTag, s, ParseIgnored(s).value.0, ParseIgnored(s).value.1)
    decreases |s|
  {
    var (t, s1) := ParseTlv(s).value;
    if !IgnoredTag(s1) {
      StopsAtFirstOne(ParseTlv, IgnoredTag, s);
      assert ParseIgnored(s).value == ([t], s1);
    } else {
      IgnoredRun(s1);
      var (ts, s2) := ParseIgnored(s1).value;
      StopsAtFirstCons(ParseTlv, IgnoredTag, s, t, s1, ts, s2);
      assert ParseIgnored(s).value == ([t] + ts, s2);
    }
  }

  /** The six record counts in the order their runs are read: textures,
      sprites, texts, transforms, colour transforms, movie clips. */
  function BucketCounts(c: Counts): (ns: seq<nat>)
    ensures |ns| == 6
  {
    [c.textureCount, c.spriteCount, c.textCount, c.transformCount, c.colorTransformCount, c.movieClipCount]
  }

  /** The six record runs, read one after another in the order of
      `BucketCounts`. */
  function ParseBuckets(s: seq<byte>, c: Counts):
    (r: Result<(seq<Tlv>, seq<Tlv>, seq<Tlv>, seq<Tlv>, seq<Tlv>, seq<Tlv>)>)
    ensures r.Ok? ==> |r.value.0| == c.textureCount && |r.value.1| == c.spriteCount && |r.value.2| == c.textCount
    ensures r.Ok? ==> |r.value.3| == c.transformCount && |r.value.4| == c.colorTransformCount
    ensures r.Ok? ==> |r.value.5| == c.movieClipCount
  {
    var (runs, _) :- ReadRuns(ParseTlv, s, BucketCounts(c));
    Ok((runs[0], runs[1], runs[2], runs[3], runs[4], runs[5]))
  }

  /** Together the six runs are the single run of all their records, cut
      at the counts: the buckets are consecutive, in `BucketCounts` order. */
  lemma BucketsAreOneRun(s: seq<byte>, c: Counts)
    ensures ParseBuckets(s, c).Ok? <==> ReadN(ParseTlv, s, Sum(BucketCounts(c))).Ok?
    ensures ParseBuckets(s, c).Ok? ==> var b := ParseBuckets(s, c).value;
      ReadN(ParseTlv, s, Sum(BucketCounts(c))).value.0 == b.0 + b.1 + b.2 + b.3 + b.4 + b.5
  {
    ReadRunsFlat(ParseTlv, s, BucketCounts(c));
    if ReadRuns(ParseTlv, s, BucketCounts(c)).Ok? {
      ConcatSix(ReadRuns(ParseTlv, s, BucketCounts(c)).value.0);
    }
  }

  /** The counts, the export ids and the export names, with the cursor
      after the last name. */
  function ParseExports(data: seq<byte>): (r: Result<(Counts, seq<nat>, seq<string>, int)>)
    ensures r.Ok? ==> |data| >= 19 && |r.value.1| == |r.value.2| == LE16(data[17..])
  {
    var (counts, s1) :- ParseCounts(data);
    var (count, s2) :- U16(s1);
    assert s1 == data[17..] && s2 == data[19..];
    var (ids, _) :- U16s(s2, count);
    var (names, off) :- ExportNames(data, 19 + 2 * count, count);
    Ok((counts, ids, names, off))
  }

  /** Where the export table lies: the counts at the start, the ids at
      byte 19 and the names from byte 19 + 2·count, where count is the u16
      at byte 17. */
  lemma ExportsLayout(data: seq<byte>)
    ensures ParseExports(data).Ok? ==> var e := ParseExports(data).value; var count := LE16(data[17..]);
      ParseCounts(data).Ok? && e.0 == ParseCounts(data).value.0 &&
      U16s(data[19..], count).Ok? && e.1 == U16s(data[19..], count).value.0 &&
      ExportNames(data, 19 + 2 * count, count) == Ok((e.2, e.3))
  {
    if ParseExports(data).Ok? {
      assert Drop(data, 17) == data[17..] && data[17..][2..] == data[19..];
    }
  }

  /** The ignored run and the six buckets, read from `s` onwards. */
  function ParseTables(s: seq<byte>, counts: Counts):
    (r: Result<(seq<Tlv>, (seq<Tlv>, seq<Tlv>, seq<Tlv>, seq<Tlv>, seq<Tlv>, seq<Tlv>))>)
    ensures r.Ok? ==> ParseIgnored(s).Ok? && r.value.0 == ParseIgnored(s).value.0
    ensures r.Ok? ==> ParseBuckets(ParseIgnored(s).value.1, counts) == Ok(r.value.1)
  {
    var (ignored, rest) :- ParseIgnored(s);
    var buckets :- ParseBuckets(rest, counts);
    Ok((ignored, buckets))
  }

  /** The whole layout: the export table, then the ignored run and the
      buckets read from the cursor the export names leave behind. */
  function Parse(data: seq<byte>): (r: Result<Layout>)
    ensures r.Ok? ==> |data| >= 19 && |r.value.exportIds| == |r.value.exportNames| == LE16(data[17..])
    ensures r.Ok? ==> |r.value.ignored| >= 1
    ensures r.Ok? ==> var c := r.value.counts;
      |r.value.textures| == c.textureCount && |r.value.sprites| == c.spriteCount &&
      |r.value.texts| == c.textCount && |r.value.transforms| == c.transformCount &&
      |r.value.colorTransforms| == c.colorTransformCount && |r.value.movieClips| == c.movieClipCount
    ensures r.Ok? ==> ParseExports(data).Ok? && ParseExports(data).value.3 >= 0
    ensures r.Ok? ==> var e := ParseExports(data).value;
      r.value.counts == e.0 && r.value.exportIds == e.1 && r.value.exportNames == e.2
    ensures r.Ok? ==> ParseTables(Drop(data, ParseExports(data).value.3), r.value.counts).Ok?
    ensures r.Ok? ==> var l := r.value; var t := ParseTables(Drop(data, ParseExports(data).value.3), l.counts).value;
      l.ignored == t.0 && (l.textures, l.sprites, l.texts, l.transforms, l.colorTransforms, l.movieClips) == t.1
  {
    var (counts, ids, names, off) :- ParseExports(data);
    var s3 :- if off < 0 then Err(RangeError) else Ok(Drop(data, off));
    var (ignored, buckets) :- ParseTables(s3, counts);
    var (textures, sprites, texts, transforms, colorTransforms, movieClips) := buckets;
    Ok(Layout(counts, ids, names, ignored, textures, sprites, texts, transforms, colorTransforms, movieClips))
  }

  // ---------------------------------------------------------------------
  // Indexes.

  /** The dictionary built by assigning `keys[i] := vals[i]` in order. */
  function LastWins<K, V>(keys: seq<K>, vals: seq<V>): map<K, V>
    requires |keys| == |vals|
    decreases |keys|
  {
    if keys == [] then map[]
    else LastWins(keys[..|keys| - 1], vals[..|vals| - 1])[keys[|keys| - 1] := vals[|vals| - 1]]
  }

  /** A key is in the dictionary exactly when it is in `keys`, and then it
      maps to the value at its last occurrence. */
  lemma {:induction false} LastWinsLookup<K, V>(keys: seq<K>, vals: seq<V>, k: K)
    requires |keys| == |vals|
    ensures k in LastWins(keys, vals) <==> k in keys
    ensures k in LastWins(keys, vals) ==>
      exists j | 0 <= j < |keys| :: keys[j] == k && LastWins(keys, vals)[k] == vals[j] &&
        forall j' | j < j' < |keys| :: keys[j'] != k
    decreases |keys|
  {
    if keys != [] {
      var n := |keys| - 1;
      var ks, vs := keys[..n], vals[..n];
      LastWinsLookup(ks, vs, k);
      assert keys == ks + [keys[n]];
      if keys[n] == k {
        assert keys[n] == k && LastWins(keys, vals)[k] == vals[n];
      } else if k in LastWins(keys, vals) {
        var j :| 0 <= j < |ks| && ks[j] == k && LastWins(ks, vs)[k] == vs[j] &&
          forall j' | j < j' < |ks| :: ks[j'] != k;
        assert keys[j] == k && LastWins(keys, vals)[k] == vals[j];
      }
    }
  }

  /** `indexExports` loops over the ids in order. */
  method IndexExports(ids: seq<nat>, names: seq<string>) returns (exports: map<nat, string>)
    requires |ids| == |names|
    ensures exports == LastWins(ids, names)
  {
    exports := map[];
    for i := 0 to |ids|
      invariant exports == LastWins(ids[..i], names[..i])
    {
      assert ids[..i + 1][..i] == ids[..i] && names[..i + 1][..i] == names[..i];
      exports := exports[ids[i] := names[i]];
    }
    assert ids[..|ids|] == ids && names[..|names|] == names;
  }

  /** The uids of the sprites, in order. */
  function Uids(sprites: seq<Sprite.Sprite>): (r: seq<nat>)
    ensures |r| == |sprites| && forall i | 0 <= i < |sprites| :: r[i] == sprites[i].uid
  {
    seq(|sprites|, i requires 0 <= i < |sprites| => sprites[i].uid)
  }

  // ---------------------------------------------------------------------
  // Texture substitution.

  /** `textures[i] = t` on a JavaScript array: past the end it appends. */
  function Put(ts: seq<Texture.TextureSlot>, i: nat, t: Texture.TextureSlot): seq<Texture.TextureSlot>
    requires i <= |ts|
  {
    if i < |ts| then ts[i := t] else ts + [t]
  }

  /** `mergeTextures`: the decoded textures overwrite the records at their
      positions, in order; records past the decoded list stay, and the list
      grows when the decoded list is longer. */
  function Merged(ts: seq<Texture.TextureSlot>, decoded: seq<Texture.Texture>): (r: seq<Texture.TextureSlot>)
    ensures |r| == if |decoded| > |ts| then |decoded| else |ts|
    ensures forall i | 0 <= i < |decoded| :: r[i] == Texture.Loaded(decoded[i])
    ensures forall i | |decoded| <= i < |ts| :: r[i] == ts[i]
    decreases |decoded|
  {
    if decoded == [] then ts
    else
      var n := |decoded| - 1;
      Put(Merged(ts, decoded[..n]), n, Texture.Loaded(decoded[n]))
  }

  /** The counts match the records: the integrity check of `isValid`. */
  predicate CountsMatch(c: Counts, textures: nat, sprites: nat, texts: nat, transforms: nat,
                        colorTransforms: nat, movieClips: nat)
  {
    c.spriteCount == sprites && c.movieClipCount == movieClips && c.textureCount == textures &&
    c.textCount == texts && c.transformCount == transforms && c.colorTransformCount == colorTransforms
  }

  /** The check runs after the substitution, so a decoded texture list
      longer than the texture records fails it even when the file itself
      is consistent. */
  lemma LongerTextureListFailsCheck(l: Layout, decoded: seq<Texture.Texture>)
    requires |l.textures| == l.counts.textureCount && |decoded| > |l.textures|
    ensures !CountsMatch(l.counts, |Merged(Raws(l.textures), decoded)|, |l.sprites|, |l.texts|,
                         |l.transforms|, |l.colorTransforms|, |l.movieClips|)
  {
  }

  function Raws(records: seq<Tlv>): (r: seq<Texture.TextureSlot>)
    ensures |r| == |records| && forall i | 0 <= i < |records| :: r[i] == Texture.Raw(records[i])
  {
    seq(|records|, i requires 0 <= i < |records| => Texture.Raw(records[i]))
  }

  // ---------------------------------------------------------------------
  // Objects.

  /** The movie clip of one record: `from` with the record's tag. */
  function Clip(rec: Tlv, exports: map<nat, string>): Result<MovieClip.MovieClip>
  {
    var (mc, _) :- MovieClip.From(rec.tag, rec.data, exports);
    Ok(mc)
  }

  /** The movie clips built from their records, in order; the first
      failure is the result. */
  function Clips(records: seq<Tlv>, exports: map<nat, string>): (r: Result<seq<MovieClip.MovieClip>>)
    ensures r.Ok? ==> |r.value| == |records|
  {
    MapAll(records, (rec: Tlv) => Clip(rec, exports))
  }

  /** The clips are built one per record and in order, and they are all
      built exactly when every record builds. */
  lemma ClipsPointwise(records: seq<Tlv>, exports: map<nat, string>)
    ensures Clips(records, exports).Ok? <==> forall i | 0 <= i < |records| :: Clip(records[i], exports).Ok?
    ensures Clips(records, exports).Ok? ==>
      forall i | 0 <= i < |records| :: Clip(records[i], exports) == Ok(Clips(records, exports).value[i])
  {
    MapAllPointwise(records, (rec: Tlv) => Clip(rec, exports));
  }

  lemma LoadsExtend(recs: seq<Tlv>, textures: seq<Texture.TextureSlot>, i: nat)
    requires i < |recs| && Sprite.Loads(recs[i].data, textures)
    requires forall j | 0 <= j < i :: Sprite.Loads(recs[j].data, textures)
    ensures forall j | 0 <= j < i + 1 :: Sprite.Loads(recs[j].data, textures)
  {
    forall j | 0 <= j < i + 1
      ensures Sprite.Loads(recs[j].data, textures)
    {
      if j == i {
        assert recs[j] == recs[i];
      } else {
        assert j < i;
      }
    }
  }

  lemma MadeExtend(built: seq<Sprite.Sprite>, s: Sprite.Sprite, recs: seq<Tlv>, textures: seq<Texture.TextureSlot>)
    requires |built| < |recs| && Sprite.Made(s, recs[|built|], textures)
    requires forall j | 0 <= j < |built| :: Sprite.Made(built[j], recs[j], textures)
    ensures forall j | 0 <= j < |built| + 1 :: Sprite.Made((built + [s])[j], recs[j], textures)
  {
    forall j | 0 <= j < |built| + 1
      ensures Sprite.Made((built + [s])[j], recs[j], textures)
    {
      if j < |built| {
        assert (built + [s])[j] == built[j];
      } else {
        assert (built + [s])[j] == s;
      }
    }
  }

  /** The sprite loop of `parseObjects`: a sprite per record, in order; the
      first record that does not load fails the whole. */
  method LoadSprites(recs: seq<Tlv>, textures: seq<Texture.TextureSlot>) returns (r: Result<seq<Sprite.Sprite>>)
    ensures r.Ok? <==> forall i | 0 <= i < |recs| :: Sprite.Loads(recs[i].data, textures)
    ensures r.Ok? ==> |r.value| == |recs|
    ensures r.Ok? ==> forall i | 0 <= i < |recs| :: fresh(r.value[i]) && Sprite.Made(r.value[i], recs[i], textures)
    ensures r.Ok? ==> forall i | 0 <= i < |recs| :: r.value[i].name == "" && !r.value[i].exported
  {
    var built: seq<Sprite.Sprite> := [];
    for i := 0 to |recs|
      invariant |built| == i
      invariant forall j | 0 <= j < i :: Sprite.Loads(recs[j].data, textures)
      invariant forall j | 0 <= j < i :: fresh(built[j])
      invariant forall j | 0 <= j < i :: Sprite.Made(built[j], recs[j], textures)
      invariant forall j | 0 <= j < i :: built[j].name == "" && !built[j].exported
    {
      var s := Sprite.Load(recs[i], textures);
      if s.Err? {
        assert !Sprite.Loads(recs[i].data, textures);
        return Err(s.error);
      }
      LoadsExtend(recs, textures, i);
      MadeExtend(built, s.value, recs, textures);
      built := built + [s.value];
    }
    return Ok(built);
  }

  class Metadata {
    var counts: Counts
    var exportIds: seq<nat>
    var exportNames: seq<string>
    var exports: map<nat, string>
    var ignored: seq<Tlv>
    var textures: seq<Texture.TextureSlot>
    var spriteRecords: seq<Tlv>
    var texts: seq<Tlv>
    var transforms: seq<Tlv>
    var colorTransforms: seq<Tlv>
    var movieClipRecords: seq<Tlv>
    var sprites: seq<Sprite.Sprite>
    var spriteIndex: map<nat, Sprite.Sprite>
    var movieClips: seq<MovieClip.MovieClip>
    var name: string

    /** The parsed layout, before `from` post-processes it. */
    constructor (l: Layout, name: string)
      requires |l.exportIds| == |l.exportNames|
      ensures counts == l.counts && exportIds == l.exportIds && exportNames == l.exportNames
      ensures exports == map[] && ignored == l.ignored && textures == Raws(l.textures)
      ensures spriteRecords == l.sprites && texts == l.texts && transforms == l.transforms
      ensures colorTransforms == l.colorTransforms && movieClipRecords == l.movieClips
      ensures sprites == [] && spriteIndex == map[] && movieClips == [] && this.name == name
    {
      counts := l.counts;
      exportIds := l.exportIds;
      exportNames := l.exportNames;
      exports := map[];
      ignored := l.ignored;
      textures := Raws(l.textures);
      spriteRecords := l.sprites;
      texts := l.texts;
      transforms := l.transforms;
      colorTransforms := l.colorTransforms;
      movieClipRecords := l.movieClips;
      sprites := [];
      spriteIndex := map[];
      movieClips := [];
      this.name := name;
    }

    /** `mergeTextures`: a missing list changes nothing. */
    method MergeTextures(decoded: Option<seq<Texture.Texture>>)
      modifies this
      ensures decoded.None? ==> textures == old(textures)
      ensures decoded.Some? ==> textures == Merged(old(textures), decoded.value)
      ensures counts == old(counts) && exports == old(exports) && spriteRecords == old(spriteRecords)
      ensures texts == old(texts) && transforms == old(transforms) && colorTransforms == old(colorTransforms)
      ensures movieClipRecords == old(movieClipRecords) && sprites == old(sprites) && movieClips == old(movieClips)
      ensures name == old(name)
    {
      if decoded.Some? {
        var ds := decoded.value;
        var ts := textures;
        for i := 0 to |ds|
          invariant ts == Merged(old(textures), ds[..i])
        {
          assert ds[..i + 1][..i] == ds[..i];
          ts := Put(ts, i, Texture.Loaded(ds[i]));
        }
        assert ds[..|ds|] == ds;
        textures := ts;
      }
    }

    /** `indexSprites`. */
    method IndexSprites()
      modifies this
      ensures spriteIndex == LastWins(Uids(sprites), sprites)
      ensures sprites == old(sprites) && textures == old(textures) && counts == old(counts)
      ensures exports == old(exports) && movieClipRecords == old(movieClipRecords)
      ensures spriteRecords == old(spriteRecords) && texts == old(texts) && transforms == old(transforms)
      ensures colorTransforms == old(colorTransforms) && movieClips == old(movieClips) && name == old(name)
    {
      var index := map[];
      var uids := Uids(sprites);
      for i := 0 to |sprites|
        invariant index == LastWins(uids[..i], sprites[..i])
      {
        assert uids[..i + 1][..i] == uids[..i] && sprites[..i + 1][..i] == sprites[..i];
        index := index[sprites[i].uid := sprites[i]];
      }
      assert uids[..|uids|] == uids && sprites[..|sprites|] == sprites;
      spriteIndex := index;
    }

    /** The sprite half of `parseObjects`: a sprite per sprite record, in
        order, each given its record's tag and the substituted textures, then
        the sprite index. A sprite that fails to load fails the whole. */
    method ParseSprites() returns (err: Option<Error>)
      modifies this
      ensures err.None? <==> forall i | 0 <= i < |spriteRecords| :: Sprite.Loads(spriteRecords[i].data, textures)
      ensures err.None? ==> |sprites| == |spriteRecords| && spriteIndex == LastWins(Uids(sprites), sprites)
      ensures err.None? ==> forall i | 0 <= i < |sprites| ::
        fresh(sprites[i]) && Sprite.Made(sprites[i], spriteRecords[i], textures) &&
        sprites[i].name == "" && !sprites[i].exported
      ensures textures == old(textures) && counts == old(counts) && exports == old(exports)
      ensures spriteRecords == old(spriteRecords) && movieClipRecords == old(movieClipRecords)
      ensures texts == old(texts) && transforms == old(transforms) && colorTransforms == old(colorTransforms)
      ensures movieClips == old(movieClips) && name == old(name)
    {
      var built := LoadSprites(spriteRecords, textures);
      if built.Err? {
        return Some(built.error);
      }
      sprites := built.value;
      IndexSprites();
      return None;
    }

    /** `parseObjects`: the sprites and their index, then a movie clip per
        movie-clip record. A failing object fails the whole. */
    method ParseObjects() returns (err: Option<Error>)
      modifies this
      ensures err.None? <==>
        (forall i | 0 <= i < |spriteRecords| :: Sprite.Loads(spriteRecords[i].data, textures)) &&
        Clips(movieClipRecords, exports).Ok?
      ensures err.None? ==> |sprites| == |spriteRecords| && movieClips == Clips(movieClipRecords, exports).value
      ensures err.None? ==> forall i | 0 <= i < |sprites| ::
        fresh(sprites[i]) && Sprite.Made(sprites[i], spriteRecords[i], textures) &&
        sprites[i].name == "" && !sprites[i].exported
      ensures err.None? ==> spriteIndex == LastWins(Uids(sprites), sprites)
      ensures textures == old(textures) && counts == old(counts) && exports == old(exports)
      ensures spriteRecords == old(spriteRecords) && movieClipRecords == old(movieClipRecords)
      ensures texts == old(texts) && transforms == old(transforms) && colorTransforms == old(colorTransforms)
      ensures name == old(name)
    {
      err := ParseSprites();
      if err.Some? {
        return;
      }
      err := ParseClips();
    }

    /** The movie-clip half of `parseObjects`: a movie clip per movie-clip
        record, each looked up in the export index. */
    method ParseClips() returns (err: Option<Error>)
      modifies this
      ensures err.None? <==> Clips(movieClipRecords, exports).Ok?
      ensures err.None? ==> movieClips == Clips(movieClipRecords, exports).value
      ensures sprites == old(sprites) && spriteIndex == old(spriteIndex)
      ensures textures == old(textures) && counts == old(counts) && exports == old(exports)
      ensures spriteRecords == old(spriteRecords) && movieClipRecords == old(movieClipRecords)
      ensures texts == old(texts) && transforms == old(transforms) && colorTransforms == old(colorTransforms)
      ensures name == old(name)
    {
      var clips := Clips(movieClipRecords, exports);
      if clips.Err? {
        return Some(clips.error);
      }
      movieClips := clips.value;
      return None;
    }

    /** `isValid`. */
    predicate IsValid()
      reads this
    {
      CountsMatch(counts, |textures|, |sprites|, |texts|, |transforms|, |colorTransforms|, |movieClips|)
    }
  }

  /** The texture list after `mergeTextures`: the file's records, with the
      decoded textures in their places when there are any. */
  function Substituted(records: seq<Tlv>, decoded: Option<seq<Texture.Texture>>): (r: seq<Texture.TextureSlot>)
    ensures decoded.None? ==> |r| == |records| && forall i | 0 <= i < |records| :: r[i] == Texture.Raw(records[i])
  {
    if decoded.Some? then Merged(Raws(records), decoded.value) else Raws(records)
  }

  /** The steps of `from` before the objects are built: the parsed layout,
      the name, the export index and the texture substitution. */
  method Prepare(l: Layout, name: string, decoded: Option<seq<Texture.Texture>>) returns (m: Metadata)
    requires |l.exportIds| == |l.exportNames|
    ensures fresh(m) && m.name == name && m.counts == l.counts
    ensures m.exports == LastWins(l.exportIds, l.exportNames) && m.textures == Substituted(l.textures, decoded)
    ensures m.spriteRecords == l.sprites && m.movieClipRecords == l.movieClips
    ensures m.texts == l.texts && m.transforms == l.transforms && m.colorTransforms == l.colorTransforms
  {
    m := new Metadata(l, name);
    var exports := IndexExports(m.exportIds, m.exportNames);
    m.exports := exports;
    m.MergeTextures(decoded);
  }

  /** `Metadata.from`: parse, index the exports, substitute the textures,
      build the objects. It fails exactly when the layout does not parse or
      one of the objects fails to build. */
  method From(data: seq<byte>, name: string, decoded: Option<seq<Texture.Texture>>) returns (r: Result<Metadata>)
    ensures Parse(data).Err? ==> r.Err?
    ensures Parse(data).Ok? ==> var l := Parse(data).value;
      var exports := LastWins(l.exportIds, l.exportNames); var textures := Substituted(l.textures, decoded);
      (r.Ok? <==> (forall i | 0 <= i < |l.sprites| :: Sprite.Loads(l.sprites[i].data, textures)) &&
                  Clips(l.movieClips, exports).Ok?)
    ensures r.Ok? ==> Parse(data).Ok? && fresh(r.value)
    ensures r.Ok? ==> var l := Parse(data).value; var m := r.value;
      m.name == name && m.counts == l.counts &&
      m.exports == LastWins(l.exportIds, l.exportNames) && m.textures == Substituted(l.textures, decoded) &&
      m.texts == l.texts && m.transforms == l.transforms && m.colorTransforms == l.colorTransforms &&
      |m.sprites| == |l.sprites| && Clips(l.movieClips, m.exports).Ok? &&
      m.movieClips == Clips(l.movieClips, m.exports).value &&
      m.spriteIndex == LastWins(Uids(m.sprites), m.sprites)
    ensures r.Ok? ==> forall i | 0 <= i < |r.value.sprites| ::
      fresh(r.value.sprites[i]) && Sprite.Made(r.value.sprites[i], Parse(data).value.sprites[i], r.value.textures) &&
      r.value.sprites[i].name == "" && !r.value.sprites[i].exported
  {
    var l := Parse(data);
    if l.Err? {
      return Err(l.error);
    }
    var m := Prepare(l.value, name, decoded);
    var err := m.ParseObjects();
    if err.Some? {
      return Err(err.value);
    }
    r := Ok(m);
  }

  /** `from` as a metadata file calls it: what the cross-reference pass
      relies on. */
  method Load(data: seq<byte>, name: string, decoded: Option<seq<Texture.Texture>>) returns (r: Result<Metadata>)
    ensures Parse(data).Err? ==> r.Err?
    ensures r.Ok? ==> forall i | 0 <= i < |r.value.sprites| ::
      fresh(r.value.sprites[i]) && r.value.sprites[i].name == "" && !r.value.sprites[i].exported
  {
    r := From(data, name, decoded);
  }
}
