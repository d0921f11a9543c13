/** Shared primitives: bytes, the failure-compatible Result, little- and
    big-endian field readers and the `scObject` tagged-length-value record
    that the sprite, movie-clip and metadata layouts all declare.

    Every reader takes the remaining input and returns the value together
    with what is left after it, the way a binary-parser layout walks its
    cursor forward. */
module Bytes {

  type byte = x: int | 0 <= x < 256

  /** The exceptions the decoders can raise. */
  datatype Error =
    | RangeError        // a fixed-width read past the end of the buffer
    | TypeError         // a property read of `undefined`
    | ReferenceError    // an identifier that is not declared

  datatype Result<+T> = Ok(value: T) | Err(error: Error) {
    predicate IsFailure() { Err? }

    function PropagateFailure<U>(): Result<U>
      requires Err?
    {
      Err(error)
    }

    function Extract(): T
      requires Ok?
    {
      value
    }
  }

  datatype Option<+T> = None | Some(value: T)

  /** True when `rest` is what is left of `s` after a prefix of at least `n` bytes. */
  predicate Consumed(s: seq<byte>, rest: seq<byte>, n: nat)
  {
    |rest| + n <= |s| && rest == s[|s| - |rest|..]
  }

  lemma ConsumedTrans(s: seq<byte>, t: seq<byte>, u: seq<byte>, m: nat, n: nat)
    requires Consumed(s, t, m) && Consumed(t, u, n)
    ensures Consumed(s, u, m + n)
  {
    assert t[|t| - |u|..] == s[|s| - |t|..][|t| - |u|..];
  }

  /** `Buffer.slice(0, n)`: the first `n` bytes, or all of them when fewer remain. */
  function Take(s: seq<byte>, n: nat): (r: seq<byte>)
    ensures |r| == if n <= |s| then n else |s|
    ensures r <= s
  {
    if n <= |s| then s[..n] else s
  }

  /** The cursor after a clamped buffer field of `n` bytes. */
  function Drop(s: seq<byte>, n: nat): (r: seq<byte>)
    ensures Consumed(s, r, if n <= |s| then n else |s|)
    ensures Take(s, n) + r == s
  {
    if n <= |s| then s[n..] else []
  }

  function U8(s: seq<byte>): (r: Result<(byte, seq<byte>)>)
    ensures r.Ok? <==> |s| >= 1
    ensures r.Ok? ==> r.value.1 == s[1..] && r.value.0 == s[0]
  {
    if |s| < 1 then Err(RangeError) else Ok((s[0], s[1..]))
  }

  /** Two's-complement reading of an 8-bit value. */
  function I8(s: seq<byte>): (r: Result<(int, seq<byte>)>)
    ensures r.Ok? <==> |s| >= 1
    ensures r.Ok? ==> r.value.1 == s[1..] && -128 <= r.value.0 < 128
    ensures r.Ok? ==> r.value.0 % 256 == s[0]
  {
    if |s| < 1 then Err(RangeError)
    else Ok((if s[0] < 128 then s[0] as int else s[0] as int - 256, s[1..]))
  }

  function LE16(s: seq<byte>): (v: nat)
    requires |s| >= 2
    ensures v < 65536
  {
    s[0] as int + 256 * s[1] as int
  }

  function LE32(s: seq<byte>): (v: nat)
    requires |s| >= 4
    ensures v < 0x1_0000_0000
  {
    LE16(s) + 65536 * LE16(s[2..])
  }

  function U16(s: seq<byte>): (r: Result<(nat, seq<byte>)>)
    ensures r.Ok? <==> |s| >= 2
    ensures r.Ok? ==> r.value.1 == s[2..] && r.value.0 < 65536
  {
    if |s| < 2 then Err(RangeError) else Ok((LE16(s), s[2..]))
  }

  function I16(s: seq<byte>): (r: Result<(int, seq<byte>)>)
    ensures r.Ok? <==> |s| >= 2
    ensures r.Ok? ==> r.value.1 == s[2..] && -32768 <= r.value.0 < 32768
  {
    if |s| < 2 then Err(RangeError)
    else
      var v := LE16(s);
      Ok((if v < 32768 then v else v - 65536, s[2..]))
  }

  /** `array(uint16, {length: n})`. */
  function U16s(s: seq<byte>, n: nat): (r: Result<(seq<nat>, seq<byte>)>)
    ensures r.Ok? <==> |s| >= 2 * n
    ensures r.Ok? ==> |r.value.0| == n && r.value.1 == s[2 * n..]
    ensures r.Ok? ==> forall i | 0 <= i < n :: r.value.0[i] == LE16(s[2 * i..])
    decreases n
  {
    if n == 0 then Ok(([], s))
    else
      var (x, s1) :- U16(s);
      var (xs, s2) :- U16s(s1, n - 1);
      assert forall i | 1 <= i < n :: s[2 * i..] == s1[2 * (i - 1)..];
      Ok(([x] + xs, s2))
  }

  function U32(s: seq<byte>): (r: Result<(nat, seq<byte>)>)
    ensures r.Ok? <==> |s| >= 4
    ensures r.Ok? ==> r.value.1 == s[4..] && r.value.0 < 0x1_0000_0000
  {
    if |s| < 4 then Err(RangeError) else Ok((LE32(s), s[4..]))
  }

  function I32(s: seq<byte>): (r: Result<(int, seq<byte>)>)
    ensures r.Ok? <==> |s| >= 4
    ensures r.Ok? ==> r.value.1 == s[4..] && -0x8000_0000 <= r.value.0 < 0x8000_0000
  {
    if |s| < 4 then Err(RangeError)
    else
      var v := LE32(s);
      Ok((if v < 0x8000_0000 then v else v - 0x1_0000_0000, s[4..]))
  }

  /** `Buffer.readInt32BE` at byte `off` of the whole buffer. */
  function I32BE(s: seq<byte>, off: int): (r: Result<int>)
    ensures r.Ok? <==> 0 <= off && off + 4 <= |s|
    ensures r.Ok? ==> -0x8000_0000 <= r.value < 0x8000_0000
  {
    if off < 0 || off + 4 > |s| then Err(RangeError)
    else
      var v := ((s[off] as int * 256 + s[off + 1]) * 256 + s[off + 2]) * 256 + s[off + 3];
      Ok(if v < 0x8000_0000 then v else v - 0x1_0000_0000)
  }

  /** `Buffer.readInt32LE` at byte `off`: only whether it throws matters here. */
  predicate I32LEInRange(s: seq<byte>, off: int)
  {
    0 <= off && off + 4 <= |s|
  }

  /** `buffer.toString(enc, start, end)`: Node clamps `start` at 0, answers ""
      when `start` is at or past the end, clamps `end` at the length and
      answers "" when `end <= start`. Bytes stand for the decoded text: a
      slice decodes to a given ASCII text exactly when its bytes are that text. */
  function ToStringSlice(s: seq<byte>, start: int, end: int): (r: seq<byte>)
    ensures |r| <= |s|
    ensures 0 <= start && end <= |s| && start < end ==> r == s[start..end]
    ensures end <= start || end <= 0 ==> r == []
  {
    var st := if start <= 0 then 0 else start;
    if st >= |s| then []
    else
      var en := if end > |s| then |s| else end;
      if en <= st then [] else s[st..en]
  }

  /** ASCII text as bytes. */
  function Ascii(t: string): (r: seq<byte>)
    requires forall i | 0 <= i < |t| :: t[i] as int < 128
    ensures |r| == |t|
  {
    if t == [] then [] else [t[0] as int] + Ascii(t[1..])
  }

  /** Bytes read as text, one character per byte (UTF-8 decoding is not modelled). */
  function Latin1(b: seq<byte>): (t: string)
    ensures |t| == |b|
    ensures forall i | 0 <= i < |b| :: t[i] as int == b[i]
  {
    seq(|b|, i requires 0 <= i < |b| => b[i] as char)
  }

  /** The decimal text of a natural number, as JavaScript prints it. */
  function NatToString(n: nat): (t: string)
    ensures |t| >= 1
    ensures forall i | 0 <= i < |t| :: '0' <= t[i] <= '9'
    decreases n
  {
    var d := ['0', '1', '2', '3', '4', '5', '6', '7', '8', '9'][n % 10];
    if n < 10 then [d] else NatToString(n / 10) + [d]
  }

  /** `f` applied to every element in order; the first failure is the
      result, as when `f` throws inside `Array.prototype.map`. */
  function MapAll<A, B>(xs: seq<A>, f: A -> Result<B>): (r: Result<seq<B>>)
    ensures r.Ok? ==> |r.value| == |xs|
    decreases |xs|
  {
    if xs == [] then Ok([])
    else
      var n := |xs| - 1;
      var done :- MapAll(xs[..n], f);
      var y :- f(xs[n]);
      Ok(done + [y])
  }

  /** `MapAll` succeeds exactly when `f` succeeds on every element, and then
      its elements are the results of `f`, in order. */
  lemma {:induction false} MapAllPointwise<A, B>(xs: seq<A>, f: A -> Result<B>)
    ensures MapAll(xs, f).Ok? <==> forall i | 0 <= i < |xs| :: f(xs[i]).Ok?
    ensures MapAll(xs, f).Ok? ==> forall i | 0 <= i < |xs| :: f(xs[i]) == Ok(MapAll(xs, f).value[i])
    decreases |xs|
  {
    if xs != [] {
      var n := |xs| - 1;
      var init := xs[..n];
      MapAllPointwise(init, f);
      assert forall i | 0 <= i < n :: init[i] == xs[i];
    }
  }

  /** `array(item, {length: n})` for any item reader: exactly `n` items
      read one after another, each from where the previous one ended. */
  function ReadN<T>(read: seq<byte> -> Result<(T, seq<byte>)>, s: seq<byte>, n: nat): (r: Result<(seq<T>, seq<byte>)>)
    ensures r.Ok? ==> |r.value.0| == n
    decreases n
  {
    if n == 0 then Ok(([], s))
    else
      var (t, s1) :- read(s);
      var (ts, s2) :- ReadN(read, s1, n - 1);
      Ok(([t] + ts, s2))
  }

  /** A run of one item is the item `read` returns. */
  lemma ReadOne<T>(read: seq<byte> -> Result<(T, seq<byte>)>, s: seq<byte>)
    requires read(s).Ok?
    ensures ReadN(read, s, 1) == Ok(([read(s).value.0], read(s).value.1))
  {
    var (t, s1) := read(s).value;
    assert ReadN(read, s1, 0) == Ok(([], s1));
    assert [t] + [] == [t];
  }

  /** Item `k` of a run is what `read` returns where the first `k` items
      end, and the input after it is where the first `k + 1` end. */
  lemma {:induction false} ReadNAt<T>(read: seq<byte> -> Result<(T, seq<byte>)>, s: seq<byte>, n: nat, k: nat)
    requires ReadN(read, s, n).Ok? && k < n
    ensures ReadN(read, s, k).Ok? && ReadN(read, s, k + 1).Ok?
    ensures read(ReadN(read, s, k).value.1) == Ok((ReadN(read, s, n).value.0[k], ReadN(read, s, k + 1).value.1))
    decreases k
  {
    var (t, s1) := read(s).value;
    assert ReadN(read, s1, 0) == Ok(([], s1));
    if k > 0 {
      ReadNAt(read, s1, n - 1, k - 1);
      assert ReadN(read, s, n).value.0[k] == ReadN(read, s1, n - 1).value.0[k - 1];
    }
  }

  /** One step of a run: the first item, then a run one shorter from where
      it ends; the first failure is the result. */
  lemma ReadNStep<T>(read: seq<byte> -> Result<(T, seq<byte>)>, s: seq<byte>, n: nat)
    requires n > 0
    ensures read(s).Err? ==> ReadN(read, s, n) == Err(read(s).error)
    ensures read(s).Ok? && ReadN(read, read(s).value.1, n - 1).Err? ==>
      ReadN(read, s, n) == Err(ReadN(read, read(s).value.1, n - 1).error)
    ensures read(s).Ok? && ReadN(read, read(s).value.1, n - 1).Ok? ==>
      ReadN(read, s, n) == Ok(([read(s).value.0] + ReadN(read, read(s).value.1, n - 1).value.0,
                               ReadN(read, read(s).value.1, n - 1).value.1))
  {
  }

  /** An item followed by a run of items read where it ends. */
  lemma ReadNPrepend<T>(read: seq<byte> -> Result<(T, seq<byte>)>, s: seq<byte>, t: T, s1: seq<byte>, ts: seq<T>, s2: seq<byte>)
    requires read(s) == Ok((t, s1)) && ReadN(read, s1, |ts|) == Ok((ts, s2))
    ensures ReadN(read, s, |[t] + ts|) == Ok(([t] + ts, s2))
  {
  }

  /** `ts` is the run read from `s`, with `rest` after it, of a `readUntil`
      that goes on while `more` holds of the input left: `more` holds after
      every shorter non-empty prefix and not after the whole run. */
  ghost predicate StopsAtFirst<T>(read: seq<byte> -> Result<(T, seq<byte>)>, more: seq<byte> -> bool,
                                  s: seq<byte>, ts: seq<T>, rest: seq<byte>)
  {
    ReadN(read, s, |ts|) == Ok((ts, rest)) && !more(rest) &&
    forall k | 1 <= k < |ts| :: ReadN(read, s, k).Ok? && more(ReadN(read, s, k).value.1)
  }

  /** One item after which `more` fails is a whole run. */
  lemma StopsAtFirstOne<T>(read: seq<byte> -> Result<(T, seq<byte>)>, more: seq<byte> -> bool, s: seq<byte>)
    requires read(s).Ok? && !more(read(s).value.1)
    ensures StopsAtFirst(read, more, s, [read(s).value.0], read(s).value.1)
  {
    ReadOne(read, s);
  }

  /** An item after which `more` holds, then a run, is a run one longer. */
  lemma StopsAtFirstCons<T>(read: seq<byte> -> Result<(T, seq<byte>)>, more: seq<byte> -> bool,
                            s: seq<byte>, t: T, s1: seq<byte>, ts: seq<T>, rest: seq<byte>)
    requires read(s) == Ok((t, s1)) && more(s1) && StopsAtFirst(read, more, s1, ts, rest)
    ensures StopsAtFirst(read, more, s, [t] + ts, rest)
  {
    ReadNPrepend(read, s, t, s1, ts, rest);
    forall k | 1 <= k < |[t] + ts|
      ensures ReadN(read, s, k).Ok? && more(ReadN(read, s, k).value.1)
    {
      if k == 1 {
        ReadOne(read, s);
      } else {
        assert ReadN(read, s1, k - 1).Ok? && more(ReadN(read, s1, k - 1).value.1);
      }
    }
  }

  /** A run of `m + n` items is a run of `m` items followed by a run of `n`
      items read where the first ends; one fails exactly when the other does. */
  lemma {:induction false} ReadNAppend<T>(read: seq<byte> -> Result<(T, seq<byte>)>, s: seq<byte>, m: nat, n: nat)
    ensures ReadN(read, s, m + n).Ok? <==>
      ReadN(read, s, m).Ok? && ReadN(read, ReadN(read, s, m).value.1, n).Ok?
    ensures ReadN(read, s, m + n).Ok? ==>
      var (xs, s1) := ReadN(read, s, m).value;
      var (ys, s2) := ReadN(read, s1, n).value;
      ReadN(read, s, m + n).value == (xs + ys, s2)
    decreases m
  {
    if m == 0 {
      assert ReadN(read, s, 0) == Ok(([], s));
      if ReadN(read, s, n).Ok? {
        assert [] + ReadN(read, s, n).value.0 == ReadN(read, s, n).value.0;
      }
    } else if read(s).Ok? {
      var (t, s1) := read(s).value;
      ReadNAppend(read, s1, m - 1, n);
      assert m + n - 1 == (m - 1) + n;
      if ReadN(read, s, m + n).Ok? {
        var (xs, r1) := ReadN(read, s1, m - 1).value;
        var (ys, r2) := ReadN(read, r1, n).value;
        assert [t] + (xs + ys) == ([t] + xs) + ys;
      }
    }
  }

  function Sum(ns: seq<nat>): nat
    decreases |ns|
  {
    if ns == [] then 0 else ns[0] + Sum(ns[1..])
  }

  function Concat<T>(xss: seq<seq<T>>): seq<T>
    decreases |xss|
  {
    if xss == [] then [] else xss[0] + Concat(xss[1..])
  }

  /** Runs of `ns[0]`, `ns[1]`, … items read one after another, each run
      from where the previous one ends. */
  function ReadRuns<T>(read: seq<byte> -> Result<(T, seq<byte>)>, s: seq<byte>, ns: seq<nat>):
    (r: Result<(seq<seq<T>>, seq<byte>)>)
    ensures r.Ok? ==> |r.value.0| == |ns| && forall i | 0 <= i < |ns| :: |r.value.0[i]| == ns[i]
    decreases |ns|
  {
    if ns == [] then Ok(([], s))
    else
      var (xs, s1) :- ReadN(read, s, ns[0]);
      var (xss, s2) :- ReadRuns(read, s1, ns[1..]);
      Ok(([xs] + xss, s2))
  }

  /** Runs read one after another are the single run of all their items,
      cut at the counts; one fails exactly when the other does. */
  lemma {:induction false} ReadRunsFlat<T>(read: seq<byte> -> Result<(T, seq<byte>)>, s: seq<byte>, ns: seq<nat>)
    ensures ReadRuns(read, s, ns).Ok? <==> ReadN(read, s, Sum(ns)).Ok?
    ensures ReadRuns(read, s, ns).Ok? ==>
      ReadN(read, s, Sum(ns)) == Ok((Concat(ReadRuns(read, s, ns).value.0), ReadRuns(read, s, ns).value.1))
    decreases |ns|
  {
    if ns == [] {
      assert ReadN(read, s, 0) == Ok(([], s));
    } else {
      ReadNAppend(read, s, ns[0], Sum(ns[1..]));
      if ReadN(read, s, ns[0]).Ok? {
        var (xs, s1) := ReadN(read, s, ns[0]).value;
        ReadRunsFlat(read, s1, ns[1..]);
        if ReadRuns(read, s1, ns[1..]).Ok? {
          var (xss, s2) := ReadRuns(read, s1, ns[1..]).value;
          assert ReadRuns(read, s, ns) == Ok(([xs] + xss, s2));
          assert ([xs] + xss)[1..] == xss;
        }
      }
    }
  }

  /** The concatenation of six runs. */
  lemma ConcatSix<T>(xss: seq<seq<T>>)
    requires |xss| == 6
    ensures Concat(xss) == xss[0] + xss[1] + xss[2] + xss[3] + xss[4] + xss[5]
  {
    var t := xss[1..];
    assert Concat(xss[5..]) == xss[5] + Concat(xss[6..]);
    assert Concat(xss[4..]) == xss[4] + Concat(xss[5..]) by { assert xss[4..][1..] == xss[5..]; }
    assert Concat(xss[3..]) == xss[3] + Concat(xss[4..]) by { assert xss[3..][1..] == xss[4..]; }
    assert Concat(xss[2..]) == xss[2] + Concat(xss[3..]) by { assert xss[2..][1..] == xss[3..]; }
    assert Concat(xss[1..]) == xss[1] + Concat(xss[2..]) by { assert xss[1..][1..] == xss[2..]; }
  }

  /** The `scObject` layout: u8 tag, u32 LE size, then `size` bytes
      (clamped at the end of the input, as `Buffer.slice` does). */
  datatype Tlv = Tlv(tag: byte, size: nat, data: seq<byte>)

  function ParseTlv(s: seq<byte>): (r: Result<(Tlv, seq<byte>)>)
    ensures r.Ok? <==> |s| >= 5
    ensures r.Ok? ==> Consumed(s, r.value.1, 5)
    ensures r.Ok? ==> r.value.0.tag == s[0] && |r.value.0.data| <= r.value.0.size
    ensures r.Ok? ==> r.value.0.size == LE32(s[1..]) && r.value.0.data == Take(s[5..], r.value.0.size)
    ensures r.Ok? ==> r.value.1 == Drop(s[5..], r.value.0.size)
    ensures r.Ok? ==> s == s[..5] + r.value.0.data + r.value.1
  {
    var (tag, s1) :- U8(s);
    var (size, s2) :- U32(s1);
    assert s1 == s[1..] && s2 == s[5..];
    Ok((Tlv(tag, size, Take(s2, size)), Drop(s2, size)))
  }

  /** A run of one record is that record. */
  lemma OneTlv(s: seq<byte>)
    requires ParseTlv(s).Ok?
    ensures ReadN(ParseTlv, s, 1) == Ok(([ParseTlv(s).value.0], ParseTlv(s).value.1))
  {
    ReadOne(ParseTlv, s);
  }

  /** At least one record, the last one's tag is 0 and no other's is. */
  predicate EndsAtZero(ts: seq<Tlv>)
  {
    |ts| >= 1 && ts[|ts| - 1].tag == 0 && forall i | 0 <= i < |ts| - 1 :: ts[i].tag != 0
  }

  lemma EndsAtZeroCons(t: Tlv, ts: seq<Tlv>)
    requires t.tag != 0 && EndsAtZero(ts)
    ensures EndsAtZero([t] + ts)
  {
    assert ([t] + ts)[|ts|] == ts[|ts| - 1];
  }

  /** `readUntil: item.type === 0`: at least one record is read, and reading
      stops right after the first record whose tag is 0. */
  function ParseTlvsUntilZero(s: seq<byte>): (r: Result<(seq<Tlv>, seq<byte>)>)
    ensures r.Ok? ==> EndsAtZero(r.value.0) && Consumed(s, r.value.1, 5 * |r.value.0|)
    decreases |s|
  {
    var (t, s1) :- ParseTlv(s);
    if t.tag == 0 then
      Ok(([t], s1))
    else
      var (ts, s2) :- ParseTlvsUntilZero(s1);
      ConsumedTrans(s, s1, s2, 5, 5 * |ts|);
      EndsAtZeroCons(t, ts);
      Ok(([t] + ts, s2))
  }

  /** The records `ParseTlvsUntilZero` reads are the counted run of their
      number, so record `k` is the one that starts where the first `k` end
      (`ReadNAt`). */
  lemma {:induction false} UntilZeroIsReadN(s: seq<byte>)
    ensures ParseTlvsUntilZero(s).Ok? ==>
      ReadN(ParseTlv, s, |ParseTlvsUntilZero(s).value.0|) == ParseTlvsUntilZero(s)
    decreases |s|
  {
    if ParseTlvsUntilZero(s).Ok? {
      if ParseTlv(s).value.0.tag == 0 {
        UntilZeroLast(s);
      } else {
        UntilZeroIsReadN(ParseTlv(s).value.1);
        UntilZeroNext(s);
      }
    }
  }

  lemma UntilZeroLast(s: seq<byte>)
    requires ParseTlv(s).Ok? && ParseTlv(s).value.0.tag == 0
    ensures ReadN(ParseTlv, s, |ParseTlvsUntilZero(s).value.0|) == ParseTlvsUntilZero(s)
  {
    assert ParseTlvsUntilZero(s) == Ok(([ParseTlv(s).value.0], ParseTlv(s).value.1));
    OneTlv(s);
  }

  lemma UntilZeroNext(s: seq<byte>)
    requires ParseTlv(s).Ok? && ParseTlv(s).value.0.tag != 0
    requires ParseTlvsUntilZero(ParseTlv(s).value.1).Ok?
    requires var s1 := ParseTlv(s).value.1;
      ReadN(ParseTlv, s1, |ParseTlvsUntilZero(s1).value.0|) == ParseTlvsUntilZero(s1)
    ensures ReadN(ParseTlv, s, |ParseTlvsUntilZero(s).value.0|) == ParseTlvsUntilZero(s)
  {
    var (t, s1) := ParseTlv(s).value;
    var (ts, s2) := ParseTlvsUntilZero(s1).value;
    assert ParseTlvsUntilZero(s) == Ok(([t] + ts, s2));
    ReadNPrepend(ParseTlv, s, t, s1, ts, s2);
  }
}
