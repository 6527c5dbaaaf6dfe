/** Tile files on disk: what they hold, how they are written, relinked and read back. */
module TileStore {
  import opened Merkle
  import opened CompactRange
  import opened Layout

  /** `nodes` lists the nodes of the tile in order; a node that was never set is None. */
  datatype Tile = Tile(numLeaves: nat, nodes: seq<Option<Digest>>)

  /** A tile file; `partial` is 0 in the name of a full tile. */
  datatype TileFile = TileFile(key: TileKey, partial: nat)

  /** A partial tile file may have become a symbolic link to the full tile. */
  datatype File = Regular(tile: Tile) | Link

  type Files = map<TileFile, File>

  /** What reading back gives: unset nodes come back as empty hashes. */
  function Persisted(t: Tile): Tile {
    Tile(t.numLeaves, seq(|t.nodes|, i requires 0 <= i < |t.nodes| =>
      if t.nodes[i].None? then Some(NIL_DIGEST) else t.nodes[i]))
  }

  /** A tile as integration builds it: at most 256 leaves, and the last node is set. */
  predicate Built(t: Tile) {
    t.numLeaves <= 256
    && (t.nodes == [] || (t.nodes[|t.nodes| - 1].Some? && t.nodes[|t.nodes| - 1].value != NIL_DIGEST))
  }

  /** A link holds the path of the full tile as the storage directory was given.  If that is
      not absolute, it is resolved from the directory of the link, where there is no such file. */
  function ReadFile(files: Files, absolute: bool, f: TileFile): Option<Tile> {
    if f !in files then None
    else if files[f].Regular? then Some(files[f].tile)
    else if !absolute then None
    else
      var full := TileFile(f.key, 0);
      if full in files && files[full].Regular? then Some(files[full].tile) else None
  }

  /** The file that holds a tile of a log of the given size. */
  function FileFor(k: TileKey, logSize: nat): TileFile {
    TileFile(k, PartialTileSize(k.level, k.index, logSize))
  }

  /** The tile as it is looked up for a log of the given size. */
  function GetTile(files: Files, absolute: bool, k: TileKey, logSize: nat): Option<Tile> {
    ReadFile(files, absolute, FileFor(k, logSize))
  }

  function Put(files: Files, k: TileKey, t: Tile): Files {
    files[TileFile(k, t.numLeaves % 256) := Regular(Persisted(t))]
  }

  function Relink(files: Files, f: TileFile): Files {
    files[f := Link]
  }

  /** The partial versions of a tile that there are files for. */
  function PartialsOf(files: Files, k: TileKey): set<nat> {
    set f | f in files && f.key == k && f.partial != 0 :: f.partial
  }

  /** `absolute` says whether the storage directory was given as an absolute path; `links` are
      the tiles for which a temporary link was made and not renamed. */
  class Storage {
    const absolute: bool
    var files: Files
    var links: set<TileKey>

    constructor (absolute: bool)
      ensures this.absolute == absolute && files == map[] && links == {}
    {
      this.absolute, files, links := absolute, map[], {};
    }

    /** Write a tile; once it is full, partial versions of it become links to it.  A temporary
        link left behind by a crash makes this fail, after the tile has been written. */
    method StoreTile(k: TileKey, tile: Tile) returns (ok: bool)
      modifies this
      ensures links == old(links)
      ensures ok <==> 0 < tile.numLeaves <= 256 && !(tile.numLeaves == 256 && k in links)
      ensures !ok ==> files == if 0 < tile.numLeaves <= 256 then Put(old(files), k, tile) else old(files)
      ensures ok ==> files.Keys == old(files).Keys + {TileFile(k, tile.numLeaves % 256)}
      ensures ok ==> forall f :: f in files ==>
                files[f] == if tile.numLeaves == 256 && f.key == k && f.partial != 0 then Link
                            else Put(old(files), k, tile)[f]
    {
      var tileSize := tile.numLeaves;
      if tileSize == 0 || tileSize > 256 { return false; }
      files := Put(files, k, tile);
      if tileSize == 256 {
        if k in links { return false; }
        RelinkPartials(k);
      }
      return true;
    }

    /** Make and rename a temporary link for every partial version. */
    method RelinkPartials(k: TileKey)
      requires k !in links
      modifies this
      ensures links == old(links) && files.Keys == old(files).Keys
      ensures forall f :: f in files ==> files[f] == if f.key == k && f.partial != 0 then Link else old(files)[f]
    {
      var partials := PartialsOf(files, k);
      while partials != {}
        invariant links == old(links) && files.Keys == old(files).Keys && partials <= PartialsOf(old(files), k)
        invariant forall f :: f in files ==>
                    files[f] == if f.key == k && f.partial != 0 && f.partial !in partials then Link else old(files)[f]
        decreases partials
      {
        var p :| p in partials;
        links := links + {k};
        files := Relink(files, TileFile(k, p));
        links := links - {k};
        partials := partials - {p};
      }
    }
  }

  // ----- what the files hold -----

  /** The tile has the hash of this node. */
  ghost predicate HoldsNode(row: seq<Digest>, t: Tile, id: NodeId)
    requires id.index < Shr(|row|, id.level)
  {
    KeyOf(id) < |t.nodes| && t.nodes[KeyOf(id)] == Some(NodeAt(row, id.level, id.index))
  }

  /** The tile has every node it should have in a tree of the first n leaves. */
  ghost predicate Complete(row: seq<Digest>, n: nat, k: TileKey, t: Tile)
    requires n <= |row|
  {
    forall id: NodeId :: TileOf(id) == k && id.index < Shr(n, id.level) ==>
      (ShrMonotone(n, |row|, id.level); HoldsNode(row, t, id))
  }

  /** A file that was written for a tree of the first n leaves. */
  ghost predicate WrittenFor(row: seq<Digest>, n: nat, f: TileFile, t: Tile)
    requires n <= |row|
  {
    t.numLeaves == LeavesOf(f.key, n) > 0 && f.partial == t.numLeaves % 256 && Complete(row, n, f.key, t)
  }

  /** Every tile file is right for some tree of at most `high` leaves, and every link is a
      partial version of a full tile that is there. */
  ghost predicate FilesOK(files: Files, row: seq<Digest>, high: nat)
    requires high <= |row|
  {
    forall f :: f in files ==>
      if files[f].Regular? then Written(row, high, f, files[f].tile)
      else f.partial != 0 && TileFile(f.key, 0) in files && files[TileFile(f.key, 0)].Regular?
  }

  ghost predicate Written(row: seq<Digest>, high: nat, f: TileFile, t: Tile)
    requires high <= |row|
  {
    exists n: nat :: n <= high && WrittenFor(row, n, f, t)
  }

  /** Every tile of a tree of s leaves has its file. */
  ghost predicate Covers(files: Files, s: nat) {
    forall k :: LeavesOf(k, s) > 0 ==> FileFor(k, s) in files
  }

  /** None of them is a link that does not resolve. */
  ghost predicate Readable(files: Files, absolute: bool, s: nat) {
    forall k :: LeavesOf(k, s) > 0 ==> FileFor(k, s) in files && (absolute || files[FileFor(k, s)].Regular?)
  }

  /** A tile that is complete for more leaves is complete for fewer. */
  lemma CompleteForFewer(row: seq<Digest>, n: nat, s: nat, k: TileKey, t: Tile)
    requires n <= |row| && s <= |row| && Complete(row, n, k, t) && LeavesOf(k, s) <= LeavesOf(k, n)
    ensures Complete(row, s, k, t)
  {
    forall id: NodeId | TileOf(id) == k && id.index < Shr(s, id.level)
      ensures id.index < Shr(|row|, id.level) && HoldsNode(row, t, id)
    {
      PerfectByLeaves(id, s, n);
      ShrMonotone(n, |row|, id.level);
    }
  }

  /** Whatever file answers for a tile of a tree of s leaves, partial or relinked, has all
      the nodes of that tree. */
  lemma {:induction false} ReadIsComplete(files: Files, absolute: bool, row: seq<Digest>, high: nat, s: nat, k: TileKey)
    requires high <= |row| && s <= |row| && FilesOK(files, row, high) && Readable(files, absolute, s)
    requires LeavesOf(k, s) > 0
    ensures GetTile(files, absolute, k, s).Some? && Complete(row, s, k, GetTile(files, absolute, k, s).value)
  {
    var f, full := FileFor(k, s), TileFile(k, 0);
    PartialIsLeafCount(k.level, k.index, s);
    var g := if files[f].Regular? then f else full;
    var n: nat :| n <= high && WrittenFor(row, n, g, files[g].tile);
    CompleteForFewer(row, n, s, k, files[g].tile);
  }

  /** A tile that cannot be read is a partial one that has become a link. */
  lemma UnreadableTile(files: Files, absolute: bool, row: seq<Digest>, high: nat, s: nat) returns (k: TileKey)
    requires high <= |row| && FilesOK(files, row, high) && Covers(files, s) && !Readable(files, absolute, s)
    ensures 0 < LeavesOf(k, s) < 256 && GetTile(files, absolute, k, s).None? && files[FileFor(k, s)].Link?
  {
    k :| LeavesOf(k, s) > 0 && !(FileFor(k, s) in files && (absolute || files[FileFor(k, s)].Regular?));
    FileForLeaves(k, s);
  }

  lemma CoversMore(files: Files, files': Files, s: nat)
    requires Covers(files, s) && files.Keys <= files'.Keys
    ensures Covers(files', s)
  {
  }

  lemma FileForLeaves(k: TileKey, n: nat)
    requires LeavesOf(k, n) > 0
    ensures FileFor(k, n) == TileFile(k, LeavesOf(k, n) % 256)
  {
    PartialIsLeafCount(k.level, k.index, n);
  }
}
