/** The bookkeeping of lib/extract/ArchiveExtractor.js: which archive
    entries are kept, where their files are moved, and how every metadata
    file is paired with its texture file once the archive is read. */
module ArchiveExtractor {
  import opened Bytes
  import File

  /** The resolution suffixes `_sc` takes out of every sc file name. */
  const Resolutions: seq<string> := ["_highres", "_lowres"]

  /** The directory segments sc files are moved under. */
  function ScDir(dest: string): seq<string>
  {
    [dest, "tmp", "sc"]
  }

  /** The directory segments a csv file is moved under: its own parent
      directory is kept below dest/csv. */
  function CsvDir(dest: string, parent: string): seq<string>
  {
    [dest, "csv", parent]
  }

  /** A metadata file and the texture file found for it, if any. */
  datatype Pair = Pair(metadata: File.File, texture: Option<File.File>)

  /** The last of `textures` named `want`, the one the `forEach` of
      `onComplete` leaves behind. */
  function TextureFor(textures: seq<File.File>, want: string): Option<File.File>
    reads textures
    decreases |textures|
  {
    if textures == [] then None
    else if textures[|textures| - 1].parts.name == want then Some(textures[|textures| - 1])
    else TextureFor(textures[..|textures| - 1], want)
  }

  /** A texture is found exactly when one is named `want`, and it is the
      last one so named. */
  lemma {:induction false} TextureForIsLast(textures: seq<File.File>, want: string)
    ensures TextureFor(textures, want).None? <==> forall i | 0 <= i < |textures| :: textures[i].parts.name != want
    ensures TextureFor(textures, want).Some? ==>
      exists i | 0 <= i < |textures| :: textures[i] == TextureFor(textures, want).value &&
        textures[i].parts.name == want && forall j | i < j < |textures| :: textures[j].parts.name != want
    decreases |textures|
  {
    if textures != [] {
      var n := |textures| - 1;
      var front := textures[..n];
      TextureForIsLast(front, want);
      assert forall i | 0 <= i < n :: front[i] == textures[i];
      if textures[n].parts.name != want && TextureFor(front, want).Some? {
        var i :| 0 <= i < n && front[i] == TextureFor(front, want).value &&
          front[i].parts.name == want && forall j | i < j < n :: front[j].parts.name != want;
        assert textures[i] == TextureFor(textures, want).value;
      }
    }
  }

  /** Where `_sc` leaves a file whose entry was named `file`: the
      resolution suffixes are taken out of the name and the file is moved
      under dest/tmp/sc. */
  predicate ScPlaced(f: File.File, file: string, dest: string)
    reads f
  {
    f.InitFrom(File.Join(ScDir(dest)) + [File.Sep] + File.RemoveAll(file, Resolutions))
  }

  /** Where `_csv` leaves a file whose entry was named by `entry`. */
  predicate CsvPlaced(f: File.File, entry: File.Parts, dest: string)
    reads f
  {
    f.InitFrom(File.Join(CsvDir(dest, entry.parent)) + [File.Sep] + entry.file)
  }

  /** A sc entry keeps a '.' in its name once the suffixes are out, so the
      name `_sc` moves is never empty. */
  lemma ScNameSurvives(file: string)
    requires File.Ext(file) == "sc"
    ensures '.' in File.RemoveAll(file, Resolutions)
  {
    File.ExtAfterLastDot(file);
    assert file[|file| - |File.Ext(file)| - 1] == '.';
    assert '.' !in Resolutions[0] && '.' !in Resolutions[1];
    File.RemoveAllKeeps(file, Resolutions, '.');
  }

  /** `source.remove(['_highres','_lowres']).changePath(dest,'tmp','sc')`. */
  method Relocate(source: File.File, dest: string)
    requires source.Valid()
    modifies source
    ensures File.RemoveAll(old(source.parts.file), Resolutions) != [] ==> ScPlaced(source, old(source.parts.file), dest)
  {
    source.Remove(Resolutions);
    source.ChangePath(ScDir(dest));
  }

  /** A placed sc file whose name, once stripped, is `stem.ext` with a
      single '.', has `stem` as its name. */
  lemma PlacedName(f: File.File, file: string, dest: string, stem: string, ext: string)
    requires ScPlaced(f, file, dest)
    requires File.RemoveAll(file, Resolutions) == stem + "." + ext
    requires stem != [] && File.Sep !in stem && '.' !in stem && File.Sep !in ext && '.' !in ext
    ensures f.parts.name == stem
  {
    var stripped := stem + "." + ext;
    File.SimpleName(stem, ext);
    File.SplitJoined(File.Join(ScDir(dest)), stripped);
  }

  /** The pairing sees the stripped names: a metadata entry and a texture
      entry that strip to `stem.ext` and `stem_tex.ext` are paired, whatever
      resolution suffixes their entry names carried. */
  lemma StrippedNamesPair(m: File.File, t: File.File, mFile: string, tFile: string, dest: string, stem: string, ext: string)
    requires ScPlaced(m, mFile, dest) && ScPlaced(t, tFile, dest)
    requires File.RemoveAll(mFile, Resolutions) == stem + "." + ext
    requires File.RemoveAll(tFile, Resolutions) == stem + "_tex" + "." + ext
    requires stem != [] && File.Sep !in stem && '.' !in stem && File.Sep !in ext && '.' !in ext
    ensures t.parts.name == m.parts.name + "_tex"
    ensures TextureFor([t], m.parts.name + "_tex") == Some(t)
  {
    PlacedName(m, mFile, dest, stem, ext);
    TexStem(stem);
    PlacedName(t, tFile, dest, stem + "_tex", ext);
  }

  lemma TexStem(stem: string)
    requires File.Sep !in stem && '.' !in stem
    ensures File.Sep !in stem + "_tex" && '.' !in stem + "_tex"
  {
  }

  class ArchiveExtractor {
    const archivePath: string
    /** Public and never filled: the csv files are collected in
        `csvEntries`. */
    var csvFiles: seq<File.File>
    /** The pairs `onComplete` builds. */
    var scFiles: seq<Pair>
    var csvEntries: seq<File.File>
    var scEntries: seq<File.File>
    var scTexEntries: seq<File.File>

    constructor (archivePath: string)
      ensures this.archivePath == archivePath
      ensures csvFiles == [] && scFiles == [] && csvEntries == [] && scEntries == [] && scTexEntries == []
    {
      this.archivePath := archivePath;
      csvFiles, scFiles := [], [];
      csvEntries, scEntries, scTexEntries := [], [], [];
    }

    /** `onEntry`: entries that are neither csv nor sc are skipped, sc
        entries go to `_sc` and the others to `_csv`. */
    method OnEntry(entryName: string, dest: string)
      modifies this
      ensures csvFiles == old(csvFiles) && scFiles == old(scFiles)
      ensures var p := File.Derive(entryName); p.ext != "csv" && p.ext != "sc" ==>
        scEntries == old(scEntries) && scTexEntries == old(scTexEntries) && csvEntries == old(csvEntries)
      ensures var p := File.Derive(entryName); var n := |old(scTexEntries)|;
        p.ext == "sc" && File.Includes(p.file, "tex") ==>
          |scTexEntries| == n + 1 && scTexEntries[..n] == old(scTexEntries) &&
          fresh(scTexEntries[n]) && ScPlaced(scTexEntries[n], p.file, dest) &&
          scEntries == old(scEntries) && csvEntries == old(csvEntries)
      ensures var p := File.Derive(entryName); var n := |old(scEntries)|;
        p.ext == "sc" && !File.Includes(p.file, "tex") ==>
          |scEntries| == n + 1 && scEntries[..n] == old(scEntries) &&
          fresh(scEntries[n]) && ScPlaced(scEntries[n], p.file, dest) &&
          scTexEntries == old(scTexEntries) && csvEntries == old(csvEntries)
      ensures var p := File.Derive(entryName); var n := |old(csvEntries)|;
        p.ext == "csv" ==>
          |csvEntries| == n + 1 && csvEntries[..n] == old(csvEntries) &&
          fresh(csvEntries[n]) && CsvPlaced(csvEntries[n], p, dest) &&
          scEntries == old(scEntries) && scTexEntries == old(scTexEntries)
    {
      var file := new File.File(entryName);
      if file.Not(["csv", "sc"]) {
        return;
      }
      if file.parts.ext == "sc" {
        ScNameSurvives(file.parts.file);
        Sc(file, dest);
      } else {
        Csv(file, dest);
      }
    }

    /** `_sc`: a file whose name contains "tex" is a texture file, any
        other a metadata file; the stored file is then renamed and moved,
        so that the pairing sees the new names. */
    method Sc(source: File.File, dest: string)
      requires source.Valid()
      modifies this, source
      ensures File.Includes(old(source.parts.file), "tex") ==>
        scTexEntries == old(scTexEntries) + [source] && scEntries == old(scEntries)
      ensures !File.Includes(old(source.parts.file), "tex") ==>
        scEntries == old(scEntries) + [source] && scTexEntries == old(scTexEntries)
      ensures csvEntries == old(csvEntries) && csvFiles == old(csvFiles) && scFiles == old(scFiles)
      ensures File.RemoveAll(old(source.parts.file), Resolutions) != [] ==> ScPlaced(source, old(source.parts.file), dest)
    {
      if source.Contains("tex") {
        scTexEntries := scTexEntries + [source];
      } else {
        scEntries := scEntries + [source];
      }
      Relocate(source, dest);
    }

    /** `_csv`: the file is moved under dest/csv/<its parent directory>. */
    method Csv(source: File.File, dest: string)
      requires source.Valid()
      modifies this, source
      ensures csvEntries == old(csvEntries) + [source]
      ensures scEntries == old(scEntries) && scTexEntries == old(scTexEntries)
      ensures csvFiles == old(csvFiles) && scFiles == old(scFiles)
      ensures source.InitFrom(File.Join(CsvDir(dest, old(source.parts.parent))) + [File.Sep] + old(source.parts.file))
    {
      source.ChangePath(CsvDir(dest, source.parts.parent));
      csvEntries := csvEntries + [source];
    }

    /** `onComplete`: one pair per metadata file, in order, each with the
        last texture file named after it with "_tex" appended. */
    method OnComplete()
      modifies this
      ensures |scFiles| == |scEntries|
      ensures forall i | 0 <= i < |scFiles| ::
        scFiles[i] == Pair(scEntries[i], TextureFor(scTexEntries, scEntries[i].parts.name + "_tex"))
      ensures scEntries == old(scEntries) && scTexEntries == old(scTexEntries)
      ensures csvEntries == old(csvEntries) && csvFiles == old(csvFiles)
    {
      scFiles := PairUp(scEntries, scTexEntries);
    }
  }

  /** The `map` of `onComplete`: a pair for every metadata file, in
      order. */
  method PairUp(metadata: seq<File.File>, textures: seq<File.File>) returns (pairs: seq<Pair>)
    ensures |pairs| == |metadata|
    ensures forall i | 0 <= i < |metadata| ::
      pairs[i] == Pair(metadata[i], TextureFor(textures, metadata[i].parts.name + "_tex"))
  {
    pairs := [];
    for k := 0 to |metadata|
      invariant |pairs| == k
      invariant forall i | 0 <= i < k ::
        pairs[i] == Pair(metadata[i], TextureFor(textures, metadata[i].parts.name + "_tex"))
    {
      var textureFile := FindTexture(textures, metadata[k].parts.name + "_tex");
      pairs := pairs + [Pair(metadata[k], textureFile)];
    }
  }

  /** The `forEach` of `onComplete`: every texture file named `want`
      replaces the one found before it. */
  method FindTexture(textures: seq<File.File>, want: string) returns (textureFile: Option<File.File>)
    ensures textureFile == TextureFor(textures, want)
  {
    textureFile := None;
    for t := 0 to |textures|
      invariant textureFile == TextureFor(textures[..t], want)
    {
      assert textures[..t + 1][..t] == textures[..t];
      if textures[t].parts.name == want {
        textureFile := Some(textures[t]);
      }
    }
    assert textures[..|textures|] == textures;
  }
}
