/** The SumDB feeder: it builds the compact-range proof a witness asks for from the tiles
    the SumDB serves. */
module Feeder {
  import opened Merkle
  import opened CompactRange
  import opened Layout
  import opened Witness

  /** The location of a SumDB tile. */
  datatype TileIndex = TileIndex(level: nat, offset: nat)

  /** The tile that holds a node, and the node's coordinates inside it.  The shift that
      computes the number of leaves under a tile overflows from level 56 on. */
  function ConvertToSumDBTiles(n: NodeId): Option<(TileIndex, NodeId)> {
    var sdbLevel := n.level / 8;
    if sdbLevel >= 7 then None else
    var (offset, rIndex) := LastLeafSplit(Pow2(n.level), Pow2((1 + sdbLevel) * 8), n.index);
    Some((TileIndex(sdbLevel, offset), NodeId(n.level % 8, rIndex)))
  }

  /** Locate a node of `nodeLeaves` leaves by the last leaf it commits to. */
  function LastLeafSplit(nodeLeaves: nat, tileLeaves: nat, index: nat): (nat, nat)
    requires nodeLeaves > 0 && tileLeaves > 0
  {
    PositiveProduct(nodeLeaves, index + 1);
    var lastLeaf := nodeLeaves * (index + 1) - 1;
    ModBelow(lastLeaf, tileLeaves);
    ModBelow(lastLeaf % tileLeaves, nodeLeaves);
    (lastLeaf / tileLeaves, lastLeaf % tileLeaves / nodeLeaves)
  }

  lemma LastLeafSplitIsDivision(p: nat, w: nat, q: nat, r: nat)
    requires p > 0 && r < w
    ensures p * w > 0 && LastLeafSplit(p, p * w, q * w + r) == (q, r)
  {
    PositiveProduct(p, w);
    calc {
      p * (q * w + r + 1) - 1;
      p * (q * w) + p * (r + 1) - 1;
      q * (p * w) + (p * (r + 1) - 1);
    }
    assert 0 < p * (r + 1) <= p * w;
    DivModUnique(q, p * (r + 1) - 1, p * w);
    assert p * (r + 1) - 1 == r * p + (p - 1);
    DivModUnique(r, p - 1, p);
  }

  /** Below level 56 the SumDB coordinates are those of the serverless tile layout. */
  lemma ConvertAgreesWithLayout(a: TileAddress)
    requires a.Valid()
    ensures ConvertToSumDBTiles(NodeOfAddress(a)) ==
            if NodeOfAddress(a).level >= 56 then None
            else Some((TileIndex(a.tileLevel, a.tileIndex), NodeId(a.nodeLevel, a.nodeIndex)))
  {
    var n, t := NodeOfAddress(a), a.tileLevel;
    assert n.level / 8 == t && n.level % 8 == a.nodeLevel && (n.level >= 56 <==> t >= 7);
    assert LastLeafSplit(Pow2(n.level), Pow2((1 + t) * 8), n.index) == (a.tileIndex, a.nodeIndex) by {
      TileLeaves(t, a.nodeLevel);
      LastLeafSplitIsDivision(Pow2(n.level), Pow2(8 - a.nodeLevel), a.tileIndex, a.nodeIndex);
    }
  }

  /** The leaves below a tile are the leaves below a node times the nodes of its row. */
  lemma TileLeaves(tileLevel: nat, nodeLevel: nat)
    requires nodeLevel < 8
    ensures Pow2((1 + tileLevel) * 8) == Pow2(tileLevel * 8 + nodeLevel) * Pow2(8 - nodeLevel)
  {
    assert (1 + tileLevel) * 8 == tileLevel * 8 + nodeLevel + (8 - nodeLevel);
    Pow2Add(tileLevel * 8 + nodeLevel, 8 - nodeLevel);
  }

  // ----- the hash of a subtree of a tile -----

  /** The hash of the subtree of the tile at the given coordinates. */
  method TileHash(leaves: seq<Digest>, n: NodeId) returns (root: Digest)
    requires (n.index + 1) * Pow2(n.level) <= |leaves|
    ensures n.index < Shr(|leaves|, n.level) && root == NodeAt(leaves, n.level, n.index)
  {
    BlockRoot(leaves, n.level, n.index);
    root := BlockHash(leaves, n.index * Pow2(n.level), (n.index + 1) * Pow2(n.level));
  }

  /** The hash of the tree over a part of the leaves. */
  method BlockHash(leaves: seq<Digest>, left: nat, right: nat) returns (root: Digest)
    requires left < right <= |leaves|
    ensures root == Root(leaves[left..right])
  {
    ghost var block := leaves[left..right];
    var r := NewEmptyRange(0);
    for i := left to right
      invariant r == Honest(block, 0, i - left)
    {
      AppendHonest(block, 0, i - left);
      r := Append(r, leaves[i]);
    }
    root := GetRootHash(r);
    GetRootHashHonest(block, |block|);
    assert block[..|block|] == block;
    RootIsTreeHash(block);
  }

  // ----- tiles from the SumDB -----

  type Lookup = (nat, nat, nat) -> Option<seq<Digest>>

  /** The client checks the length of what it is served: `partial` hashes, or 256. */
  ghost predicate ChecksLength(lookup: Lookup) {
    forall level: nat, offset: nat, partial: nat :: lookup(level, offset, partial).Some? ==>
      |lookup(level, offset, partial).value| == if partial > 0 then partial else 256
  }

  /** The bottom row of the part of a tile that exists in the tree over `row`. */
  function TileContent(row: seq<Digest>, level: nat, offset: nat): (t: seq<Digest>)
    requires TileLeafCount(level, offset, |row|) > 0
    ensures |t| == TileLeafCount(level, offset, |row|)
  {
    var base := LiftN(row, level * 8);
    base[offset * 256..offset * 256 + LeavesInTile(|base|, offset)]
  }

  /** The SumDB serves every tile of the tree, whole or partial as the tree size says. */
  ghost predicate Serves(lookup: Lookup, row: seq<Digest>) {
    forall level: nat, offset: nat :: TileLeafCount(level, offset, |row|) > 0 ==>
      lookup(level, offset, PartialTileSize(level, offset, |row|)) == Some(TileContent(row, level, offset))
  }

  /** The partial tile sizes recorded for levels below `levels`: one per level, at the edge. */
  ghost predicate EdgesRecorded(size: nat, levels: nat, pts: map<TileIndex, nat>) {
    (forall i :: i in pts ==> i.level < levels && i.offset == Shr(size, i.level * 8) / 256
                              && pts[i] == Shr(size, i.level * 8) % 256)
    && forall k :: 0 <= k < levels ==> TileIndex(k, Shr(size, k * 8) / 256) in pts
  }

  function PartialOf(pts: map<TileIndex, nat>, i: TileIndex): nat { if i in pts then pts[i] else 0 }

  /** Every existing tile is recorded with the number of leaves it has in the tree, 0 (by
      absence) if it is full. */
  method PartialTiles(size: nat) returns (pts: map<TileIndex, nat>)
    ensures forall level: nat, offset: nat :: TileLeafCount(level, offset, size) > 0 ==>
              PartialOf(pts, TileIndex(level, offset)) == PartialTileSize(level, offset, size)
  {
    pts := map[];
    var l, t, o := 0, size / 256, size % 256;
    while true
      invariant t == Shr(size, l * 8) / 256 && o == Shr(size, l * 8) % 256
      invariant EdgesRecorded(size, l, pts)
      decreases t
    {
      pts := pts[TileIndex(l, t) := o];
      if t == 0 { break; }
      ShrByTile(size, l);
      o, t := t % 256, t / 256;
      l := l + 1;
    }
    forall level: nat, offset: nat | TileLeafCount(level, offset, size) > 0
      ensures PartialOf(pts, TileIndex(level, offset)) == PartialTileSize(level, offset, size)
    {
      if level > l { NothingAbove(size, l, level); }
    }
  }

  lemma ShrByTile(size: nat, l: nat)
    ensures Shr(size, (l + 1) * 8) == Shr(size, l * 8) / 256
  {
    var w := Shr(size, l * 8);
    ShrAdd(size, l * 8, 8);
    assert Shr(w, 8) == Shr(w / 16, 4);
    assert Shr(w / 16, 4) == w / 16 / 16;
  }

  lemma {:induction false} NothingAbove(size: nat, l: nat, level: nat)
    requires Shr(size, l * 8) < 256 && l < level
    ensures Shr(size, level * 8) == 0
    decreases level
  {
    ShrByTile(size, level - 1);
    if l < level - 1 { NothingAbove(size, l, level - 1); }
  }

  /** Requests tiles of a tree of a fixed size, and remembers the ones it has seen. */
  class TileBroker {
    const pts: map<TileIndex, nat>
    var ts: map<TileIndex, seq<Digest>>
    const lookup: Lookup

    ghost predicate Valid()
      reads this
    {
      forall i :: i in ts ==> lookup(i.level, i.offset, PartialOf(pts, i)) == Some(ts[i])
    }

    /** Existing tiles are requested with the number of leaves they have in the tree. */
    ghost predicate RequestsTrueSizes(size: nat) {
      forall level: nat, offset: nat :: TileLeafCount(level, offset, size) > 0 ==>
        PartialOf(pts, TileIndex(level, offset)) == PartialTileSize(level, offset, size)
    }

    constructor (size: nat, lookup: Lookup)
      ensures Valid() && this.lookup == lookup && RequestsTrueSizes(size)
    {
      var p := PartialTiles(size);
      this.pts, this.lookup, ts := p, lookup, map[];
    }

    /** The tile the SumDB serves at this place, or None if the request failed. */
    method Tile(i: TileIndex) returns (t: Option<seq<Digest>>)
      requires Valid()
      modifies this
      ensures Valid() && t == lookup(i.level, i.offset, PartialOf(pts, i))
    {
      if i in ts { return Some(ts[i]); }
      t := lookup(i.level, i.offset, PartialOf(pts, i));
      if t.Some? { ts := ts[i := t.value]; }
    }
  }

  // ----- the proof -----

  /** Reading a node from its tile gives its hash. */
  lemma TileNode(row: seq<Digest>, level: nat, t: nat, k: nat, i: nat, q: nat)
    requires t * 256 == q * Pow2(k) && TileLeafCount(level, t, |row|) > 0 && i < Shr(TileLeafCount(level, t, |row|), k)
    ensures q + i < Shr(|row|, level * 8 + k)
    ensures NodeAt(TileContent(row, level, t), k, i) == NodeAt(row, level * 8 + k, q + i)
  {
    var base, tile := LiftN(row, level * 8), TileContent(row, level, t);
    ShrAdd(|row|, level * 8, k);
    NodeAtSlice(base, q, t * 256, |tile|, k, i);
    NodeAtVia(row, level * 8, k, q + i);
  }

  /** Where a node of the tree is: its tile, its place in the tile, and the node q of its
      row at which the tile starts. */
  ghost predicate Located(n: NodeId, i: TileIndex, r: NodeId, q: nat) {
    ConvertToSumDBTiles(n) == Some((i, r)) && Placed(n, i, r, q)
  }

  ghost predicate Placed(n: NodeId, i: TileIndex, r: NodeId, q: nat) {
    n.level == i.level * 8 + r.level && n.index == q + r.index && i.offset * 256 == q * Pow2(r.level)
  }

  lemma Locate(n: NodeId, size: nat) returns (i: TileIndex, r: NodeId, q: nat)
    requires n.index < Shr(size, n.level) && size < Pow2(56)
    ensures Located(n, i, r, q) && TileReaches(i, r, size)
  {
    var a := NodeCoordsToTileAddress(n.level, n.index);
    AddressBijection(n, a);
    LevelBelow56(n, size);
    i, r, q := LocateAddress(a, size);
  }

  /** The tile, at the size at which it is requested, includes the node. */
  predicate TileReaches(i: TileIndex, r: NodeId, size: nat) {
    var c, p := TileLeafCount(i.level, i.offset, size), PartialTileSize(i.level, i.offset, size);
    0 < (r.index + 1) * Pow2(r.level) <= c && c == if p > 0 then p else 256
  }

  lemma LocateAddress(a: TileAddress, size: nat) returns (i: TileIndex, r: NodeId, q: nat)
    requires a.Valid() && NodeOfAddress(a).index < Shr(size, NodeOfAddress(a).level) && NodeOfAddress(a).level < 56
    ensures Located(NodeOfAddress(a), i, r, q) && TileReaches(i, r, size)
  {
    i, r := TileIndex(a.tileLevel, a.tileIndex), NodeId(a.nodeLevel, a.nodeIndex);
    q := a.tileIndex * Pow2(8 - a.nodeLevel);
    AddressIsLocated(a, q);
    TileOfNode(a, size);
  }

  lemma AddressIsLocated(a: TileAddress, q: nat)
    requires a.Valid() && NodeOfAddress(a).level < 56 && q == a.tileIndex * Pow2(8 - a.nodeLevel)
    ensures Located(NodeOfAddress(a), TileIndex(a.tileLevel, a.tileIndex), NodeId(a.nodeLevel, a.nodeIndex), q)
  {
    ConvertAgreesWithLayout(a);
    TileStart(a.tileIndex, a.nodeLevel);
  }

  lemma TileStart(t: nat, k: nat)
    requires k < 8
    ensures t * 256 == t * Pow2(8 - k) * Pow2(k)
  {
    Pow2Add(8 - k, k);
    Pow2Values();
    ProductAssociates(t, Pow2(8 - k), Pow2(k));
  }

  lemma LevelBelow56(n: NodeId, size: nat)
    requires n.index < Shr(size, n.level) && size < Pow2(56)
    ensures n.level < 56
  {
    BelowShr(0, size, n.level);
    if n.level >= 56 { Pow2Grows(56, n.level); }
  }

  lemma TileOfNode(a: TileAddress, size: nat)
    requires a.Valid() && NodeOfAddress(a).index < Shr(size, NodeOfAddress(a).level)
    ensures TileReaches(TileIndex(a.tileLevel, a.tileIndex), NodeId(a.nodeLevel, a.nodeIndex), size)
  {
    NodeInTile(a, size);
    PositiveProduct(a.nodeIndex + 1, Pow2(a.nodeLevel));
    PartialIsLeafCount(a.tileLevel, a.tileIndex, size);
  }

  lemma ServedHash(lookup: Lookup, row: seq<Digest>, n: NodeId, i: TileIndex, r: NodeId, q: nat, t: seq<Digest>)
    requires Placed(n, i, r, q)
    requires Serves(lookup, row) && TileLeafCount(i.level, i.offset, |row|) > 0
    requires lookup(i.level, i.offset, PartialTileSize(i.level, i.offset, |row|)) == Some(t)
             && r.index < Shr(|t|, r.level)
    ensures HonestVisit(0, row, Visit(n, NodeAt(t, r.level, r.index)))
  {
    assert t == TileContent(row, i.level, i.offset);
    TileNode(row, i.level, i.offset, r.level, r.index, q);
  }

  lemma MatchesMore(row: seq<Digest>, ids: seq<NodeId>, k: nat, hashes: seq<Digest>, h: Digest)
    requires k < |ids| && Matches(0, row, ids[..k], hashes) && HonestVisit(0, row, Visit(ids[k], h))
    ensures Matches(0, row, ids[..k + 1], hashes + [h])
  {
    MatchesConcat(0, row, ids[..k], hashes, [ids[k]], [h]);
    assert ids[..k + 1] == ids[..k] + [ids[k]];
  }

  /** Read one node of the tree from its tile; no tile is too short for the node. */
  method FetchNode(broker: TileBroker, n: NodeId, ghost row: seq<Digest>) returns (h: Option<Digest>)
    requires broker.Valid() && broker.RequestsTrueSizes(|row|) && ChecksLength(broker.lookup)
    requires n.index < Shr(|row|, n.level) && |row| < Pow2(56)
    modifies broker
    ensures broker.Valid()
    ensures Serves(broker.lookup, row) ==> h == Some(NodeAt(row, n.level, n.index))
  {
    ghost var i', r', q := Locate(n, |row|);
    var (i, r) := ConvertToSumDBTiles(n).value;
    var t := broker.Tile(i);
    if t.None? { return None; }
    var d := TileHash(t.value, r);
    if Serves(broker.lookup, row) { ServedHash(broker.lookup, row, n, i, r, q, t.value); }
    return Some(d);
  }

  /** The hashes of the range [from, to), read from tiles: if the SumDB serves the tree over
      `row`, the compact range of that tree. */
  method FetchProof(lookup: Lookup, from: nat, to: nat, ghost row: seq<Digest>) returns (proof: Option<seq<Digest>>)
    requires from <= to == |row| && to < Pow2(56) && ChecksLength(lookup)
    ensures Serves(lookup, row) ==> proof == Some(RangeHashes(row, from, to))
  {
    var broker := new TileBroker(to, lookup);
    var required := RangeNodes(from, to);
    RangeMatchesNodes(0, row, from, to);
    var hashes: seq<Digest> := [];
    for k := 0 to |required|
      invariant broker.Valid() && |hashes| == k
      invariant Serves(lookup, row) ==> Matches(0, row, required[..k], hashes)
    {
      assert HonestVisit(0, row, Visit(required[k], RangeHashes(row, from, to)[k]));
      var h := FetchNode(broker, required[k], row);
      if h.None? { return None; }
      if Serves(lookup, row) { MatchesMore(row, required, k, hashes, h.value); }
      hashes := hashes + [h.value];
    }
    assert required[..|required|] == required;
    if Serves(lookup, row) { MatchesUnique(0, row, required, hashes, RangeHashes(row, from, to)); }
    return Some(hashes);
  }

  /** A witness that keeps compact ranges and holds the checkpoint of the first `from` entries
      accepts the feeder's proof, and stores the compact range of all `to` entries. */
  lemma FeederProofAccepted(cfg: Config, id: LogId, log: seq<Bytes>, from: nat, to: nat, raw: Note,
                            held: Option<Stored>)
    requires id in cfg.logs && cfg.logs[id].useCompact
    requires from < to <= |log| && Parse(cfg.logs[id], raw) == Some(Checkpoint(to, Mth(log[..to])))
    requires held.None? ==> from == 0
    requires held.Some? ==> from > 0 && Sane(cfg, cfg.logs[id], held.value)
                            && held.value.chkpt.cp == Checkpoint(from, Mth(log[..from]))
    ensures var row := LeafDigests(log);
            Decide(cfg, id, raw, RangeHashes(row, from, to), held)
            == Store(Stored(Cosign(cfg, raw), RangeHashes(row, 0, to)))
  {
    if held.None? {
      FirstProofAccepted(log, to);
    } else {
      HeldRangeIsHonest(log, from, held.value);
      VerifyRangeComplete(log, from, to);
    }
  }

  lemma FirstProofAccepted(log: seq<Bytes>, to: nat)
    requires 0 < to <= |log|
    ensures var rng := NewRange(0, to, RangeHashes(LeafDigests(log), 0, to));
            rng.Some? && VerifyRangeHash(Mth(log[..to]), rng.value)
  {
    NewRangeHonest(LeafDigests(log), 0, to);
    HonestRootIsMth(log, to);
  }

  /** A stored range that matches a stored root is the range of the log with that root. */
  lemma HeldRangeIsHonest(log: seq<Bytes>, from: nat, held: Stored)
    requires 0 < from <= |log| && held.chkpt.Note? && held.chkpt.cp == Checkpoint(from, Mth(log[..from]))
    requires RangeFor(held.chkpt.cp, held.range)
    ensures held.range == RangeHashes(LeafDigests(log), 0, from) && held.range != []
  {
    var row := LeafDigests(log);
    RootFixesRange(log, from, NewRange(0, from, held.range).value);
    ToSeqFromSeq(0, from, held.range);
    if held.range == [] { CountPositive(from); }
  }

  lemma {:induction false} CountPositive(n: nat)
    requires n > 0
    ensures Count(0, n) > 0
    decreases n
  {
    if n > 1 { CountPositive(n / 2); }
  }
}
