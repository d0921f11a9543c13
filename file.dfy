/** Paths and names of lib/file/File.js. Paths are POSIX paths, '/'
    separating segments, split the way Node's `path` module splits them. */
module File {
  import opened Bytes

  const Sep: char := '/'

  // ---------------------------------------------------------------------
  // String searching, as `String.prototype` does it.

  /** `needle` occurs in `s` starting at `i`. */
  predicate OccursAt(s: string, needle: string, i: nat)
  {
    i + |needle| <= |s| && s[i..i + |needle|] == needle
  }

  /** The first position at or after `from` where `needle` occurs. */
  function IndexOfFrom(s: string, needle: string, from: nat): (r: Option<nat>)
    ensures r.Some? ==> from <= r.value && r.value + |needle| <= |s|
    decreases |s| - from
  {
    if from + |needle| > |s| then None
    else if s[from..from + |needle|] == needle then Some(from)
    else IndexOfFrom(s, needle, from + 1)
  }

  /** The search finds the first occurrence at or after `from`, and finds
      nothing only when there is none. */
  lemma {:induction false} IndexOfFromFirst(s: string, needle: string, from: nat)
    ensures var r := IndexOfFrom(s, needle, from);
      r.Some? ==> OccursAt(s, needle, r.value) && forall i | from <= i < r.value :: !OccursAt(s, needle, i)
    ensures IndexOfFrom(s, needle, from).None? ==> forall i | from <= i :: !OccursAt(s, needle, i)
    decreases |s| - from
  {
    if from + |needle| <= |s| && s[from..from + |needle|] != needle {
      IndexOfFromFirst(s, needle, from + 1);
    }
  }

  /** `s.indexOf(needle)`: the first occurrence. */
  function IndexOf(s: string, needle: string): Option<nat>
  {
    IndexOfFrom(s, needle, 0)
  }

  /** `s.includes(needle)`. */
  function Includes(s: string, needle: string): (r: bool)
    ensures r <==> exists i :: OccursAt(s, needle, i)
  {
    IndexOfFromFirst(s, needle, 0);
    IndexOf(s, needle).Some?
  }

  /** `s.replace(needle, '')`: a string pattern replaces its first
      occurrence only. */
  function RemoveFirst(s: string, needle: string): (r: string)
    ensures IndexOf(s, needle).None? ==> r == s
    ensures IndexOf(s, needle).Some? ==> |r| == |s| - |needle|
  {
    match IndexOf(s, needle)
    case None => s
    case Some(i) => s[..i] + s[i + |needle|..]
  }

  /** Putting the needle back where it was first found gives the string
      back. */
  lemma RemoveFirstInverse(s: string, needle: string)
    requires IndexOf(s, needle).Some?
    ensures var i := IndexOf(s, needle).value; var r := RemoveFirst(s, needle);
      i <= |r| && r[..i] + needle + r[i..] == s
  {
    IndexOfFromFirst(s, needle, 0);
    var i := IndexOf(s, needle).value;
    var r := s[..i] + s[i + |needle|..];
    assert r[..i] == s[..i] && r[i..] == s[i + |needle|..];
    SplitThree(s, i, i + |needle|);
  }

  lemma SplitThree(s: string, i: nat, j: nat)
    requires i <= j <= |s|
    ensures s[..i] + s[i..j] + s[j..] == s
  {
  }

  /** Removal adds no character. */
  lemma RemoveFirstAddsNothing(s: string, needle: string, c: char)
    requires c !in s
    ensures c !in RemoveFirst(s, needle)
  {
  }

  /** Removal keeps every character that the needle does not contain. */
  lemma RemoveFirstKeeps(s: string, needle: string, c: char)
    requires c in s && c !in needle
    ensures c in RemoveFirst(s, needle)
  {
    if IndexOf(s, needle).Some? {
      IndexOfFromFirst(s, needle, 0);
      var i := IndexOf(s, needle).value;
      var k :| 0 <= k < |s| && s[k] == c;
      var r := s[..i] + s[i + |needle|..];
      assert RemoveFirst(s, needle) == r;
      if k < i {
        assert r[k] == c;
      } else if k >= i + |needle| {
        assert r[k - |needle|] == c;
      } else {
        assert false;
      }
    }
  }

  /** The strings removed one after the other, in list order. */
  function RemoveAll(s: string, needles: seq<string>): string
    decreases |needles|
  {
    if needles == [] then s else RemoveFirst(RemoveAll(s, needles[..|needles| - 1]), needles[|needles| - 1])
  }

  lemma {:induction false} RemoveAllAddsNothing(s: string, needles: seq<string>, c: char)
    requires c !in s
    ensures c !in RemoveAll(s, needles)
    decreases |needles|
  {
    if needles != [] {
      RemoveAllAddsNothing(s, needles[..|needles| - 1], c);
      RemoveFirstAddsNothing(RemoveAll(s, needles[..|needles| - 1]), needles[|needles| - 1], c);
    }
  }

  lemma {:induction false} RemoveAllKeeps(s: string, needles: seq<string>, c: char)
    requires c in s && forall k | 0 <= k < |needles| :: c !in needles[k]
    ensures c in RemoveAll(s, needles)
    decreases |needles|
  {
    if needles != [] {
      RemoveAllKeeps(s, needles[..|needles| - 1], c);
      RemoveFirstKeeps(RemoveAll(s, needles[..|needles| - 1]), needles[|needles| - 1], c);
    }
  }

  // ---------------------------------------------------------------------
  // `path`.

  /** The position of the last `c` in `s`. */
  function LastIndex(s: string, c: char): (r: Option<nat>)
    ensures r.Some? ==> r.value < |s|
    decreases |s|
  {
    if s == [] then None
    else if s[|s| - 1] == c then Some(|s| - 1)
    else LastIndex(s[..|s| - 1], c)
  }

  /** The search finds a `c` exactly when there is one, and no `c` follows
      the one it finds. */
  lemma {:induction false} LastIndexIsLast(s: string, c: char)
    ensures LastIndex(s, c).None? <==> c !in s
    ensures var r := LastIndex(s, c); r.Some? ==> s[r.value] == c && c !in s[r.value + 1..]
    decreases |s|
  {
    if s != [] && s[|s| - 1] != c {
      var front := s[..|s| - 1];
      LastIndexIsLast(front, c);
      var r := LastIndex(front, c);
      if r.Some? {
        assert s[r.value + 1..] == front[r.value + 1..] + [s[|s| - 1]];
      } else {
        assert s == front + [s[|s| - 1]];
      }
    }
  }

  /** The length of `p` without its trailing separators. */
  function TrimmedEnd(p: string): (e: nat)
    ensures e <= |p|
    decreases |p|
  {
    if p != [] && p[|p| - 1] == Sep then TrimmedEnd(p[..|p| - 1]) else |p|
  }

  /** `path.basename`: the last segment, trailing separators ignored. */
  function Basename(p: string): string
  {
    var e := TrimmedEnd(p);
    match LastIndex(p[..e], Sep)
    case None => p[..e]
    case Some(j) => p[..e][j + 1..]
  }

  /** A basename holds no separator. */
  lemma BasenameNoSep(p: string)
    ensures Sep !in Basename(p)
  {
    var e := TrimmedEnd(p);
    LastIndexIsLast(p[..e], Sep);
  }

  /** `path.dirname`: everything before the separator that precedes the
      last segment. A path with no such separator has "." (or "/" when it
      starts at the root); a separator run before the last segment is cut
      at its last separator only, and a root followed by one segment
      separator gives "//". */
  function Dirname(p: string): string
  {
    if p == [] then "."
    else
      var e := TrimmedEnd(p);
      var j := LastIndex(p[..e], Sep);
      if e < 2 || j.None? || j.value == 0 then (if p[0] == Sep then "/" else ".")
      else if p[0] == Sep && j.value == 1 then "//"
      else p[..j.value]
  }

  /** `path.extname` of a name without separators (`_init` applies it to
      a basename only): from its last '.' on; nothing when there is no '.',
      when the only '.' starts the name, or for "..". */
  function Extname(file: string): string
  {
    match LastIndex(file, '.')
    case None => ""
    case Some(d) => if d == 0 || file == ".." then "" else file[d..]
  }

  /** `dir.split(sep).pop()`: the text after the last separator. */
  function LastSegment(s: string): string
  {
    match LastIndex(s, Sep)
    case None => s
    case Some(j) => s[j + 1..]
  }

  /** `parts.join(sep)`. */
  function Join(parts: seq<string>): string
    decreases |parts|
  {
    if parts == [] then ""
    else if |parts| == 1 then parts[0]
    else Join(parts[..|parts| - 1]) + [Sep] + parts[|parts| - 1]
  }

  /** A path made of a directory, a separator and a name without
      separators splits back into that directory and that name, except that
      the empty directory reads as the root and the root as "//". */
  lemma SplitJoined(dir: string, name: string)
    requires name != [] && Sep !in name
    ensures Basename(dir + [Sep] + name) == name
    ensures Dirname(dir + [Sep] + name) == if dir == [] then "/" else if dir == "/" then "//" else dir
  {
    var p := dir + [Sep] + name;
    assert p[|p| - 1] == name[|name| - 1];
    assert TrimmedEnd(p) == |p|;
    assert p[..|p|] == p;
    assert p[|dir| + 1..] == name;
    LastSeparatorAt(p, |dir|);
    assert p[..|dir|] == dir;
  }

  lemma LastSeparatorAt(p: string, j: nat)
    requires j < |p| && p[j] == Sep && Sep !in p[j + 1..]
    ensures LastIndex(p, Sep) == Some(j)
    decreases |p|
  {
    if j < |p| - 1 {
      assert p[|p| - 1] == p[j + 1..][|p| - 2 - j];
      assert p[..|p| - 1][j + 1..] == p[j + 1..|p| - 1];
      LastSeparatorAt(p[..|p| - 1], j);
    }
  }

  /** `ext`: the extension without its '.'. */
  function Ext(file: string): string
  {
    RemoveFirst(Extname(file), ".")
  }

  /** The extension is the text after the last '.', preceded by that '.',
      and holds no '.' itself. */
  lemma ExtAfterLastDot(file: string)
    ensures var x := Ext(file); '.' !in x && |x| <= |file| && file[|file| - |x|..] == x
    ensures Ext(file) != [] ==> |Ext(file)| < |file| && file[|file| - |Ext(file)| - 1] == '.'
  {
    var x := Extname(file);
    LastIndexIsLast(file, '.');
    if x == [] {
      assert IndexOf(x, ".").None?;
    } else {
      var d := LastIndex(file, '.').value;
      assert x == file[d..];
      assert x[..1] == ".";
      RemoveLeading(x, ".");
      var e := Ext(file);
      assert e == file[d + 1..];
      assert |file| - |e| == d + 1;
    }
  }

  /** A needle at the very start is the occurrence `replace` removes. */
  lemma RemoveLeading(s: string, needle: string)
    requires OccursAt(s, needle, 0)
    ensures RemoveFirst(s, needle) == s[|needle|..]
  {
    assert IndexOf(s, needle) == Some(0);
    assert s[..0] + s[|needle|..] == s[|needle|..];
  }

  /** A name with one '.', not at its start, has the text after it as its
      extension and the text before it as its name. */
  lemma SimpleName(stem: string, ext: string)
    requires stem != [] && Sep !in stem && '.' !in stem && Sep !in ext && '.' !in ext
    ensures var file := stem + "." + ext;
      Sep !in file && Ext(file) == ext && RemoveFirst(file, "." + Ext(file)) == stem
  {
    var file := stem + "." + ext;
    SimpleExtname(stem, ext);
    assert OccursAt("." + ext, ".", 0);
    assert ("." + ext)[..0] + ("." + ext)[1..] == ext;
    FirstDotExt(stem, ext);
  }

  lemma SimpleExtname(stem: string, ext: string)
    requires stem != [] && Sep !in stem && '.' !in stem && Sep !in ext && '.' !in ext
    ensures Extname(stem + "." + ext) == "." + ext
  {
    var file := stem + "." + ext;
    var d := |stem|;
    assert file[d] == '.' && file[d + 1..] == ext;
    LastDotAt(file, d);
    assert file[d..] == "." + ext;
    assert file[0] == stem[0] != '.';
  }

  lemma FirstDotExt(stem: string, ext: string)
    requires '.' !in stem
    ensures var file := stem + "." + ext; RemoveFirst(file, "." + ext) == stem
  {
    var file := stem + "." + ext;
    var d := |stem|;
    assert OccursAt(file, "." + ext, d);
    forall i | 0 <= i < d
      ensures !OccursAt(file, "." + ext, i)
    {
      assert file[i] == stem[i];
    }
    IndexOfFromFirst(file, "." + ext, 0);
    assert IndexOf(file, "." + ext) == Some(d);
    assert file[..d] == stem;
    assert file[d + |ext| + 1..] == [];
  }

  lemma LastDotAt(file: string, d: nat)
    requires d < |file| && file[d] == '.' && '.' !in file[d + 1..]
    ensures LastIndex(file, '.') == Some(d)
    decreases |file|
  {
    if d < |file| - 1 {
      assert file[|file| - 1] == file[d + 1..][|file| - 2 - d];
      assert file[..|file| - 1][d + 1..] == file[d + 1..|file| - 1];
      LastDotAt(file[..|file| - 1], d);
    }
  }

  // ---------------------------------------------------------------------
  // The file object.

  /** The names `_init` derives from a path. */
  datatype Parts = Parts(path: string, dir: string, file: string, ext: string,
                         name: string, parent: string, title: string)

  /** `_init`'s derivation: the directory and the last segment, the
      extension, the last segment without its first ".ext", the directory's
      own last segment, and the name without its first '_'. */
  function Derive(p: string): (r: Parts)
    ensures r.path == p
  {
    var d := Dirname(p);
    var f := Basename(p);
    var x := Ext(f);
    var n := RemoveFirst(f, "." + x);
    Parts(p, d, f, x, n, LastSegment(d), RemoveFirst(n, "_"))
  }

  /** Re-deriving from a directory joined with a name without separators
      gives that name back, and the directory too unless it is empty or the
      root. */
  lemma DeriveJoined(dir: string, name: string)
    requires Sep !in name
    ensures name != [] ==> Derive(dir + [Sep] + name).file == name
    ensures name != [] && dir != [] && dir != "/" ==> Derive(dir + [Sep] + name).dir == dir
  {
    if name != [] {
      SplitJoined(dir, name);
    }
  }

  /** The loop of `remove`: each string in turn is taken out of the name. */
  method Stripped(file: string, strings: seq<string>) returns (newFileName: string)
    ensures newFileName == RemoveAll(file, strings)
  {
    newFileName := file;
    for i := 0 to |strings|
      invariant newFileName == RemoveAll(file, strings[..i])
    {
      assert strings[..i + 1][..i] == strings[..i];
      newFileName := RemoveFirst(newFileName, strings[i]);
    }
    assert strings[..|strings|] == strings;
  }

  class File {
    /** The path and the names `_init` derived from it. */
    var parts: Parts

    /** The names are those `_init` derives from `p`. */
    predicate InitFrom(p: string)
      reads this
    {
      parts == Derive(p)
    }

    /** Every name follows from the path. */
    predicate Valid()
      reads this
    {
      InitFrom(parts.path)
    }

    constructor (filePath: string)
      ensures InitFrom(filePath)
    {
      parts := Derive(filePath);
    }

    /** `_init`. */
    method Init(filePath: string)
      modifies this
      ensures InitFrom(filePath)
    {
      parts := Derive(filePath);
    }

    /** `remove`: the strings are taken out of the file name one after the
        other, then the fields are derived again from the old path joined
        with the new name, so that the old path becomes the directory. */
    method Remove(strings: seq<string>)
      requires Valid()
      modifies this
      ensures InitFrom(old(parts.path) + [Sep] + RemoveAll(old(parts.file), strings))
      ensures RemoveAll(old(parts.file), strings) != [] ==> parts.file == RemoveAll(old(parts.file), strings)
      ensures RemoveAll(old(parts.file), strings) != [] && old(parts.path) != [] && old(parts.path) != "/" ==> parts.dir == old(parts.path)
    {
      var path, file := parts.path, parts.file;
      BasenameNoSep(path);
      var newFileName := Stripped(file, strings);
      RemoveAllAddsNothing(file, strings, Sep);
      DeriveJoined(path, newFileName);
      Init(path + [Sep] + newFileName);
    }

    /** `is`: the extension is one of `extensions`. */
    function Is(extensions: seq<string>): (r: bool)
      reads this
      ensures r <==> exists i | 0 <= i < |extensions| :: extensions[i] == parts.ext
    {
      parts.ext in extensions
    }

    /** `not`: the complement of `is`. */
    function Not(extensions: seq<string>): (r: bool)
      reads this
      ensures r <==> !Is(extensions)
    {
      parts.ext !in extensions
    }

    /** `contains`: the needle occurs in the file name, extension
        included. */
    function Contains(needle: string): (r: bool)
      reads this
      ensures r <==> exists i :: OccursAt(parts.file, needle, i)
    {
      Includes(parts.file, needle)
    }

    /** `changePath`: the file name stays and the directory becomes the
        joined segments. */
    method ChangePath(segments: seq<string>)
      requires Valid()
      modifies this
      ensures InitFrom(Join(segments) + [Sep] + old(parts.file))
      ensures old(parts.file) != [] ==> parts.file == old(parts.file)
      ensures old(parts.file) != [] && Join(segments) != [] && Join(segments) != "/" ==> parts.dir == Join(segments)
    {
      var newPath, file := Join(segments), parts.file;
      BasenameNoSep(parts.path);
      DeriveJoined(newPath, file);
      Init(newPath + [Sep] + file);
    }
  }
}
