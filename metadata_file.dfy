/** The cross-reference pass of lib/file/MetadataFile.js: the sprite index,
    the names that exported movie clips give to the sprites they place, and
    the integrity warning. */
module MetadataFile {
  import opened Bytes
  import Texture
  import Sprite
  import MovieClip
  import Metadata

  /** One assignment of the pass: the sprite indexed under `uid` is given
      `name` and marked exported. */
  datatype Rename = Rename(uid: nat, name: string)

  /** The assignments one clip makes: position `i` of its sprite table is
      named after the clip's export name and `i`. A clip that is not
      exported makes none. */
  function ClipRenames(mc: MovieClip.MovieClip): (r: seq<Rename>)
    ensures !mc.exported ==> r == []
    ensures mc.exported ==> |r| == |mc.spriteIds|
  {
    if mc.exported then
      seq(|mc.spriteIds|, i requires 0 <= i < |mc.spriteIds| => Rename(mc.spriteIds[i], mc.exportName + "_" + NatToString(i)))
    else []
  }

  lemma ClipRenamesAt(mc: MovieClip.MovieClip, i: nat)
    requires mc.exported && i < |mc.spriteIds|
    ensures i < |ClipRenames(mc)| && ClipRenames(mc)[i] == Rename(mc.spriteIds[i], mc.exportName + "_" + NatToString(i))
  {
  }

  /** Every assignment of the pass, clip by clip in list order. */
  function Renames(clips: seq<MovieClip.MovieClip>): seq<Rename>
    decreases |clips|
  {
    if clips == [] then [] else Renames(clips[..|clips| - 1]) + ClipRenames(clips[|clips| - 1])
  }

  /** The name last assigned to `uid`, if any assignment names it. */
  function LastRename(rs: seq<Rename>, uid: nat): (r: Option<string>)
    ensures r.Some? <==> exists j | 0 <= j < |rs| :: rs[j].uid == uid
    decreases |rs|
  {
    if rs == [] then None
    else if rs[|rs| - 1].uid == uid then Some(rs[|rs| - 1].name)
    else LastRename(rs[..|rs| - 1], uid)
  }

  /** The last name is the name of the last assignment to `uid`. */
  lemma {:induction false} LastRenameIsLast(rs: seq<Rename>, uid: nat)
    ensures LastRename(rs, uid).Some? ==>
      exists j | 0 <= j < |rs| :: rs[j] == Rename(uid, LastRename(rs, uid).value) &&
        forall j' | j < j' < |rs| :: rs[j'].uid != uid
    decreases |rs|
  {
    if rs != [] && rs[|rs| - 1].uid != uid {
      var init := rs[..|rs| - 1];
      LastRenameIsLast(init, uid);
      if LastRename(init, uid).Some? {
        var j :| 0 <= j < |init| && init[j] == Rename(uid, LastRename(init, uid).value) &&
          forall j' | j < j' < |init| :: init[j'].uid != uid;
        assert rs[j] == init[j];
      }
    }
  }

  lemma LastRenameSnoc(rs: seq<Rename>, r: Rename, uid: nat)
    ensures LastRename(rs + [r], uid) == if r.uid == uid then Some(r.name) else LastRename(rs, uid)
  {
    assert (rs + [r])[..|rs|] == rs;
  }

  /** Of two runs of assignments, the later one decides a uid it names. */
  lemma {:induction false} LastRenameConcat(rs1: seq<Rename>, rs2: seq<Rename>, uid: nat)
    ensures LastRename(rs1 + rs2, uid) ==
      if LastRename(rs2, uid).Some? then LastRename(rs2, uid) else LastRename(rs1, uid)
    decreases |rs2|
  {
    if rs2 == [] {
      assert rs1 + rs2 == rs1;
    } else {
      var init := rs2[..|rs2| - 1];
      var r := rs2[|rs2| - 1];
      assert rs1 + rs2 == (rs1 + init) + [r];
      LastRenameSnoc(rs1 + init, r, uid);
      LastRenameSnoc(init, r, uid);
      assert init + [r] == rs2;
      LastRenameConcat(rs1, init, uid);
    }
  }

  /** The assignments of the first `j + 1` clips: those of the first `j`,
      then those of clip `j`. */
  lemma RenamesPrefixStep(clips: seq<MovieClip.MovieClip>, j: nat)
    requires j < |clips|
    ensures Renames(clips[..j + 1]) == Renames(clips[..j]) + ClipRenames(clips[j])
    ensures !clips[j].exported ==> Renames(clips[..j + 1]) == Renames(clips[..j])
  {
    assert clips[..j + 1] == clips[..j] + [clips[j]];
    RenamesSnoc(clips[..j], clips[j]);
    if !clips[j].exported {
      assert Renames(clips[..j]) + [] == Renames(clips[..j]);
    }
  }

  lemma RenamesSnoc(clips: seq<MovieClip.MovieClip>, mc: MovieClip.MovieClip)
    ensures Renames(clips + [mc]) == Renames(clips) + ClipRenames(mc)
  {
    assert (clips + [mc])[..|clips|] == clips;
  }

  /** The assignments of consecutive clip lists follow one another. */
  lemma {:induction false} RenamesConcat(clips1: seq<MovieClip.MovieClip>, clips2: seq<MovieClip.MovieClip>)
    ensures Renames(clips1 + clips2) == Renames(clips1) + Renames(clips2)
    decreases |clips2|
  {
    if clips2 == [] {
      assert clips1 + clips2 == clips1;
    } else {
      var init, last := clips2[..|clips2| - 1], clips2[|clips2| - 1];
      assert clips1 + clips2 == (clips1 + init) + [last] && clips2 == init + [last];
      RenamesSnoc(clips1 + init, last);
      RenamesSnoc(init, last);
      RenamesConcat(clips1, init);
    }
  }

  /** A later clip's name for a sprite replaces an earlier clip's. */
  lemma LaterClipWins(earlier: seq<MovieClip.MovieClip>, later: seq<MovieClip.MovieClip>, uid: nat)
    requires LastRename(Renames(later), uid).Some?
    ensures LastRename(Renames(earlier + later), uid) == LastRename(Renames(later), uid)
  {
    RenamesConcat(earlier, later);
    LastRenameConcat(Renames(earlier), Renames(later), uid);
  }

  /** Clips that are not exported leave every name as it was. */
  lemma UnexportedClipsRenameNothing(clips: seq<MovieClip.MovieClip>, others: seq<MovieClip.MovieClip>, uid: nat)
    requires forall j | 0 <= j < |others| :: !others[j].exported
    ensures LastRename(Renames(clips + others), uid) == LastRename(Renames(clips), uid)
  {
    RenamesConcat(clips, others);
    NoExportsNoRenames(others);
    assert Renames(clips) + Renames(others) == Renames(clips);
  }

  lemma {:induction false} NoExportsNoRenames(clips: seq<MovieClip.MovieClip>)
    requires forall j | 0 <= j < |clips| :: !clips[j].exported
    ensures Renames(clips) == []
    decreases |clips|
  {
    if clips != [] {
      NoExportsNoRenames(clips[..|clips| - 1]);
    }
  }

  /** Every assignment comes from an exported clip: the sprite at position
      `i` of its table is named after its export name and `i`. */
  lemma {:induction false} RenamesFromExported(clips: seq<MovieClip.MovieClip>, k: nat)
    requires k < |Renames(clips)|
    ensures exists j, i | 0 <= j < |clips| && 0 <= i < |clips[j].spriteIds| ::
      clips[j].exported &&
      Renames(clips)[k] == Rename(clips[j].spriteIds[i], clips[j].exportName + "_" + NatToString(i))
    decreases |clips|
  {
    var n := |clips| - 1;
    var init := clips[..n];
    if k < |Renames(init)| {
      RenamesFromExported(init, k);
      var j, i :| 0 <= j < |init| && 0 <= i < |init[j].spriteIds| && init[j].exported &&
        Renames(init)[k] == Rename(init[j].spriteIds[i], init[j].exportName + "_" + NatToString(i));
      assert clips[j] == init[j];
    } else {
      var i := k - |Renames(init)|;
      assert Renames(clips)[k] == ClipRenames(clips[n])[i];
    }
  }

  /** Each position of an exported clip's table takes part: its sprite's uid
      gets some name. */
  lemma ExportedNamesSomething(clips: seq<MovieClip.MovieClip>, j: nat, i: nat)
    requires j < |clips| && clips[j].exported && i < |clips[j].spriteIds|
    ensures LastRename(Renames(clips), clips[j].spriteIds[i]).Some?
  {
    var u := clips[j].spriteIds[i];
    var pre, post := clips[..j + 1], clips[j + 1..];
    assert clips[..j] + [clips[j]] == pre;
    LastClipNames(clips[..j], clips[j], i);
    assert pre + post == clips;
    NamedStaysNamed(pre, post, u);
  }

  /** The last clip of a list names the uids its table places. */
  lemma LastClipNames(clips: seq<MovieClip.MovieClip>, mc: MovieClip.MovieClip, i: nat)
    requires mc.exported && i < |mc.spriteIds|
    ensures LastRename(Renames(clips + [mc]), mc.spriteIds[i]).Some?
  {
    var u := mc.spriteIds[i];
    ClipRenamesAt(mc, i);
    assert LastRename(ClipRenames(mc), u).Some?;
    RenamesSnoc(clips, mc);
    LastRenameConcat(Renames(clips), ClipRenames(mc), u);
  }

  /** A uid named by some clips stays named when more clips follow. */
  lemma NamedStaysNamed(clips: seq<MovieClip.MovieClip>, more: seq<MovieClip.MovieClip>, uid: nat)
    requires LastRename(Renames(clips), uid).Some?
    ensures LastRename(Renames(clips + more), uid).Some?
  {
    RenamesConcat(clips, more);
    LastRenameConcat(Renames(clips), Renames(more), uid);
  }

  /** The index holds sprites of the list, each under its own uid. */
  predicate IndexesInto(sprites: seq<Sprite.Sprite>, index: map<nat, Sprite.Sprite>)
  {
    forall u | u in index :: index[u] in sprites && index[u].uid == u
  }

  lemma LastWinsIndexesInto(sprites: seq<Sprite.Sprite>)
    ensures IndexesInto(sprites, Metadata.LastWins(Metadata.Uids(sprites), sprites))
  {
    var uids := Metadata.Uids(sprites);
    forall u | u in Metadata.LastWins(uids, sprites)
      ensures Metadata.LastWins(uids, sprites)[u] in sprites && Metadata.LastWins(uids, sprites)[u].uid == u
    {
      Metadata.LastWinsLookup(uids, sprites, u);
    }
  }

  /** The state the pass leaves a sprite in: the last name assigned to its
      uid, and exported, when the index holds this very sprite under its
      uid; otherwise the name and flag it had before. */
  predicate Labelled(s: Sprite.Sprite, index: map<nat, Sprite.Sprite>, rs: seq<Rename>, name0: string, exported0: bool)
    reads s
  {
    if s.uid in index && index[s.uid] == s && LastRename(rs, s.uid).Some? then
      s.name == LastRename(rs, s.uid).value && s.exported
    else
      s.name == name0 && s.exported == exported0
  }

  class MetadataFile {
    const name: string
    var sprites: seq<Sprite.Sprite>
    var movieClips: seq<MovieClip.MovieClip>
    var spriteIndex: map<nat, Sprite.Sprite>
    /** Whether the count mismatch warning was logged. */
    var warned: bool

    /** The file's name; reading the file itself is not part of this model. */
    constructor (name: string)
      ensures this.name == name && sprites == [] && movieClips == [] && spriteIndex == map[] && !warned
    {
      this.name := name;
      sprites := [];
      movieClips := [];
      spriteIndex := map[];
      warned := false;
    }

    /** `decode` on the file's bytes and its texture file's textures: build
        the metadata, then cross-reference. A metadata file that does not
        decode fails. */
    method Decode(data: seq<byte>, textures: Option<seq<Texture.Texture>>) returns (err: Option<Error>)
      modifies this
      ensures Metadata.Parse(data).Err? ==> err.Some?
      ensures err.None? ==> spriteIndex == Metadata.LastWins(Metadata.Uids(sprites), sprites)
      ensures err.None? ==> forall k | 0 <= k < |sprites| ::
        Labelled(sprites[k], spriteIndex, Renames(movieClips), "", false)
    {
      var m := Metadata.Load(data, name, textures);
      if m.Err? {
        return Some(m.error);
      }
      Link(m.value);
      return None;
    }

    /** The steps of `decode` after `Metadata.from`: take the sprites and
        movie clips, index the sprites by uid, let every exported clip name
        the sprites it places, and warn when the counts do not match. */
    method Link(m: Metadata.Metadata)
      modifies this, m.sprites
      ensures sprites == m.sprites && movieClips == m.movieClips
      ensures spriteIndex == Metadata.LastWins(Metadata.Uids(sprites), sprites)
      ensures AllLabelled(sprites, spriteIndex, Renames(movieClips), old(Names(m.sprites)), old(Flags(m.sprites)))
      ensures Geometry(sprites) == old(Geometry(m.sprites))
      ensures warned <==> !m.IsValid()
    {
      sprites := m.sprites;
      movieClips := m.movieClips;
      IndexAndName();
      warned := !m.IsValid();
    }

    /** The sprite index, then the export pass over it. */
    method IndexAndName()
      modifies this, sprites
      ensures sprites == old(sprites) && movieClips == old(movieClips) && warned == old(warned)
      ensures spriteIndex == Metadata.LastWins(Metadata.Uids(sprites), sprites)
      ensures AllLabelled(sprites, spriteIndex, Renames(movieClips), old(Names(sprites)), old(Flags(sprites)))
      ensures Geometry(sprites) == old(Geometry(sprites))
    {
      ghost var names0, exported0, geometry0 := Names(sprites), Flags(sprites), Geometry(sprites);
      IndexSprites();
      assert Names(sprites) == names0 && Flags(sprites) == exported0 && Geometry(sprites) == geometry0;
      LastWinsIndexesInto(sprites);
      PropagateExports();
    }

    /** The `spriteIndex` loop: a later sprite with the same uid wins. */
    method IndexSprites()
      modifies this
      ensures spriteIndex == Metadata.LastWins(Metadata.Uids(sprites), sprites)
      ensures sprites == old(sprites) && movieClips == old(movieClips) && warned == old(warned)
    {
      var index := map[];
      var uids := Metadata.Uids(sprites);
      for i := 0 to |sprites|
        invariant index == Metadata.LastWins(uids[..i], sprites[..i])
      {
        assert uids[..i + 1][..i] == uids[..i] && sprites[..i + 1][..i] == sprites[..i];
        index := index[sprites[i].uid := sprites[i]];
      }
      assert uids[..|uids|] == uids && sprites[..|sprites|] == sprites;
      spriteIndex := index;
    }

    /** The nested export loop: for every exported clip in order, every
        position of its sprite table whose uid is indexed names that
        sprite; uids without a sprite are skipped. */
    method PropagateExports()
      requires IndexesInto(sprites, spriteIndex)
      modifies sprites
      ensures AllLabelled(sprites, spriteIndex, Renames(movieClips), old(Names(sprites)), old(Flags(sprites)))
      ensures Geometry(sprites) == old(Geometry(sprites))
    {
      ghost var names0, exported0, geometry0 := Names(sprites), Flags(sprites), Geometry(sprites);
      for j := 0 to |movieClips|
        invariant AllLabelled(sprites, spriteIndex, Renames(movieClips[..j]), names0, exported0)
        invariant Geometry(sprites) == geometry0
      {
        NameClipSpritesAt(j, names0, exported0);
      }
      assert movieClips[..|movieClips|] == movieClips;
    }

    /** One step of the outer loop: clip `j` names its sprites if exported. */
    method NameClipSpritesAt(j: nat, ghost names0: seq<string>, ghost exported0: seq<bool>)
      requires j < |movieClips| && IndexesInto(sprites, spriteIndex)
      requires AllLabelled(sprites, spriteIndex, Renames(movieClips[..j]), names0, exported0)
      modifies sprites
      ensures AllLabelled(sprites, spriteIndex, Renames(movieClips[..j + 1]), names0, exported0)
      ensures Geometry(sprites) == old(Geometry(sprites))
    {
      var mc := movieClips[j];
      RenamesPrefixStep(movieClips, j);
      if mc.exported {
        NameClipSprites(mc, Renames(movieClips[..j]), names0, exported0);
      }
    }

    /** The inner loop over one exported clip's sprite table. */
    method NameClipSprites(mc: MovieClip.MovieClip, ghost done: seq<Rename>,
                           ghost names0: seq<string>, ghost exported0: seq<bool>)
      requires mc.exported && IndexesInto(sprites, spriteIndex)
      requires AllLabelled(sprites, spriteIndex, done, names0, exported0)
      modifies sprites
      ensures AllLabelled(sprites, spriteIndex, done + ClipRenames(mc), names0, exported0)
      ensures Geometry(sprites) == old(Geometry(sprites))
    {
      assert done + ClipRenames(mc)[..0] == done;
      for i := 0 to |mc.spriteIds|
        invariant AllLabelled(sprites, spriteIndex, done + ClipRenames(mc)[..i], names0, exported0)
        invariant Geometry(sprites) == old(Geometry(sprites))
      {
        ClipRenamesAt(mc, i);
        assert done + ClipRenames(mc)[..i + 1] ==
          (done + ClipRenames(mc)[..i]) + [Rename(mc.spriteIds[i], mc.exportName + "_" + NatToString(i))];
        NameSprite(mc.spriteIds[i], mc.exportName + "_" + NatToString(i), done + ClipRenames(mc)[..i], names0, exported0);
      }
      assert ClipRenames(mc)[..|mc.spriteIds|] == ClipRenames(mc);
    }

    /** One step of the inner loop: the sprite indexed under `id`, if any,
        takes the name and is marked exported. */
    method NameSprite(id: nat, given: string, ghost rs: seq<Rename>, ghost names0: seq<string>, ghost exported0: seq<bool>)
      requires IndexesInto(sprites, spriteIndex)
      requires AllLabelled(sprites, spriteIndex, rs, names0, exported0)
      modifies sprites
      ensures AllLabelled(sprites, spriteIndex, rs + [Rename(id, given)], names0, exported0)
      ensures Geometry(sprites) == old(Geometry(sprites))
    {
      if id in spriteIndex {
        var sprite := spriteIndex[id];
        label before:
        sprite.name := given;
        sprite.exported := true;
        forall k | 0 <= k < |sprites|
          ensures Labelled(sprites[k], spriteIndex, rs + [Rename(id, given)], names0[k], exported0[k])
        {
          LastRenameSnoc(rs, Rename(id, given), sprites[k].uid);
          if sprites[k] != sprite {
            assert old@before(Labelled(sprites[k], spriteIndex, rs, names0[k], exported0[k]));
          }
        }
      } else {
        SkipStep(sprites, spriteIndex, rs, Rename(id, given), names0, exported0);
      }
    }
  }

  /** The sprites' names, in order. */
  function Names(sprites: seq<Sprite.Sprite>): (r: seq<string>)
    reads sprites
    ensures |r| == |sprites| && forall k | 0 <= k < |sprites| :: r[k] == sprites[k].name
  {
    seq(|sprites|, k requires 0 <= k < |sprites| reads sprites => sprites[k].name)
  }

  /** The sprites' shapes and boxes, in order: what naming leaves alone. */
  function Geometry(sprites: seq<Sprite.Sprite>): (r: seq<(seq<Sprite.Shape>, Option<Sprite.SpriteBounds>)>)
    reads sprites
    ensures |r| == |sprites| && forall k | 0 <= k < |sprites| :: r[k] == (sprites[k].shapes, sprites[k].bounds)
  {
    seq(|sprites|, k requires 0 <= k < |sprites| reads sprites => (sprites[k].shapes, sprites[k].bounds))
  }

  /** The sprites' exported flags, in order. */
  function Flags(sprites: seq<Sprite.Sprite>): (r: seq<bool>)
    reads sprites
    ensures |r| == |sprites| && forall k | 0 <= k < |sprites| :: r[k] == sprites[k].exported
  {
    seq(|sprites|, k requires 0 <= k < |sprites| reads sprites => sprites[k].exported)
  }

  /** Every sprite of the list is in the state `Labelled` describes. */
  predicate AllLabelled(sprites: seq<Sprite.Sprite>, index: map<nat, Sprite.Sprite>, rs: seq<Rename>,
                        names0: seq<string>, exported0: seq<bool>)
    reads sprites
  {
    |names0| == |exported0| == |sprites| &&
    forall k | 0 <= k < |sprites| :: Labelled(sprites[k], index, rs, names0[k], exported0[k])
  }

  /** A step of the export loop whose uid has no sprite changes nothing. */
  lemma SkipStep(sprites: seq<Sprite.Sprite>, index: map<nat, Sprite.Sprite>, rs: seq<Rename>, r: Rename,
                 names0: seq<string>, exported0: seq<bool>)
    requires r.uid !in index && AllLabelled(sprites, index, rs, names0, exported0)
    ensures AllLabelled(sprites, index, rs + [r], names0, exported0)
  {
    forall k | 0 <= k < |sprites|
      ensures Labelled(sprites[k], index, rs + [r], names0[k], exported0[k])
    {
      LastRenameSnoc(rs, r, sprites[k].uid);
    }
  }
}
