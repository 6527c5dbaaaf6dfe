/** The serverless client: single tree nodes are read out of tiles, and the imperfect nodes
    on the right border of the tree, which no tile stores, are recomputed and remembered. */
module Client {
  import opened Merkle
  import opened CompactRange
  import opened Layout
  import opened TileStore
  import opened Witness

  type GetTileFunc = TileKey -> Option<Tile>

  /** The hash a tile gives for a node, if it is populated there. */
  function NodeInFetched(t: Option<Tile>, id: NodeId): Option<Digest> {
    if t.None? || KeyOf(id) >= |t.value.nodes| then None else t.value.nodes[KeyOf(id)]
  }

  /** A remembered ephemeral node, if it is not empty, and otherwise the node in its tile. */
  function LookupNode(ephemeral: map<NodeId, Digest>, getTile: GetTileFunc, id: NodeId): Option<Digest> {
    if id in ephemeral && ephemeral[id] != NIL_DIGEST then Some(ephemeral[id])
    else NodeInFetched(getTile(TileOf(id)), id)
  }

  /** Tiles that have every perfect node of the tree of the first `size` leaves. */
  ghost predicate CorrectTiles(getTile: GetTileFunc, row: seq<Digest>, size: nat)
    requires size <= |row|
  {
    forall k :: LeavesOf(k, size) > 0 ==> getTile(k).Some? && Complete(row, size, k, getTile(k).value)
  }

  class NodeCache {
    var ephemeral: map<NodeId, Digest>
    var tiles: map<TileKey, Tile>
    const getTile: GetTileFunc

    ghost predicate Valid()
      reads this
    {
      forall k :: k in tiles ==> getTile(k) == Some(tiles[k])
    }

    constructor (getTile: GetTileFunc)
      ensures Valid() && this.getTile == getTile && ephemeral == map[]
    {
      this.getTile, ephemeral, tiles := getTile, map[], map[];
    }

    method SetEphemeralNode(id: NodeId, h: Digest)
      modifies this`ephemeral
      ensures ephemeral == old(ephemeral)[id := h]
    {
      ephemeral := ephemeral[id := h];
    }

    method GetNode(id: NodeId) returns (h: Option<Digest>)
      requires Valid()
      modifies this`tiles
      ensures Valid() && h == LookupNode(ephemeral, getTile, id)
    {
      if id in ephemeral && ephemeral[id] != NIL_DIGEST { return Some(ephemeral[id]); }
      var k := TileOf(id);
      var t: Tile;
      if k in tiles {
        t := tiles[k];
      } else {
        var fetched := getTile(k);
        if fetched.None? { return None; }
        t := fetched.value;
        tiles := tiles[k := t];
      }
      if KeyOf(id) >= |t.nodes| { return None; }
      return t.nodes[KeyOf(id)];
    }
  }

  /** Reading a perfect node from correct tiles gives its hash. */
  lemma PerfectNodeRead(getTile: GetTileFunc, row: seq<Digest>, size: nat, id: NodeId)
    requires size <= |row| && CorrectTiles(getTile, row, size) && id.index < Shr(size, id.level)
    ensures id.index < Shr(|row|, id.level)
    ensures NodeInFetched(getTile(TileOf(id)), id) == Some(NodeAt(row, id.level, id.index))
  {
    ShrMonotone(size, |row|, id.level);
    TileOfPerfectNode(id, size);
    assert HoldsNode(row, getTile(TileOf(id)).value, id);
  }

  lemma TileOfPerfectNode(id: NodeId, size: nat)
    requires id.index < Shr(size, id.level)
    ensures LeavesOf(TileOf(id), size) > 0
  {
    var a := NodeCoordsToTileAddress(id.level, id.index);
    AddressBijection(id, a);
    NodeInTile(a, size);
    PositiveProduct(a.nodeIndex + 1, Pow2(a.nodeLevel));
  }

  /** The hashes of the compact range of a log of size s, read from tiles. */
  method FetchRangeNodes(s: nat, getTile: GetTileFunc, ghost row: seq<Digest>) returns (hashes: Option<seq<Digest>>)
    requires s <= |row|
    ensures CorrectTiles(getTile, row, s) ==> hashes == Some(RangeHashes(row, 0, s))
    ensures (exists k :: 0 < LeavesOf(k, s) < 256 && getTile(k).None?) ==> hashes.None?
  {
    var nc := new NodeCache(getTile);
    var ids := RangeNodes(0, s);
    ghost var want := RangeHashes(row, 0, s);
    RangeMatchesPrefix(row, s);
    var ret: seq<Digest> := [];
    for i := 0 to |ids|
      invariant nc.Valid() && nc.getTile == getTile && nc.ephemeral == map[] && |ret| == i
      invariant CorrectTiles(getTile, row, s) ==> ret == want[..i]
      invariant forall j :: 0 <= j < i ==> getTile(TileOf(ids[j])).Some?
    {
      var h := nc.GetNode(ids[i]);
      assert HonestVisit(0, row[..s], Visit(ids[i], want[i]));
      if CorrectTiles(getTile, row, s) { RangeNodeRead(getTile, row, s, ids[i], want[i]); }
      if h.None? { return None; }
      ret := ret + [h.value];
    }
    assert want[..|ids|] == want;
    if forall j :: 0 <= j < |ids| ==> getTile(TileOf(ids[j])).Some? { EdgeTilesAreRead(getTile, s); }
    return Some(ret);
  }

  // ----- every partial tile is read -----

  /** The lowest bit that is set. */
  function LowBit(n: nat): nat
    requires n > 0
  {
    if n % 2 == 1 then 0 else 1 + LowBit(n / 2)
  }

  lemma {:induction false} LowBitBelow(n: nat, k: nat)
    requires n % Pow2(k) != 0
    ensures n > 0 && LowBit(n) < k && Shr(n, LowBit(n)) % 2 == 1
    decreases k
  {
    if k > 0 && n % 2 == 0 {
      HalfMod(n / 2, Pow2(k - 1));
      LowBitBelow(n / 2, k - 1);
    }
  }

  lemma HalfMod(n: nat, p: nat)
    requires p > 0
    ensures (2 * n) % (2 * p) == 2 * (n % p)
  {
    ModBelow(n, p);
    assert n == n / p * p + n % p;
    DoubleProduct(n / p, p);
    DivModUnique(n / p, 2 * (n % p), 2 * p);
  }

  /** A set bit of the size is a node of the range. */
  lemma {:induction false} BitIsRangeNode(level: nat, n: nat, j: nat)
    requires Shr(n, j) % 2 == 1
    ensures NodeId(level + j, Shr(n, j) - 1) in RowNodes(level, 0, n)
    decreases j
  {
    if j > 0 { BitIsRangeNode(level + 1, n / 2, j - 1); }
  }

  lemma BeforeOdd(x: nat, w: nat)
    requires x % 2 == 1 && w > 0 && w % 2 == 0
    ensures (x - 1) / w == x / w
  {
    var q, r := x / w, x % w;
    ModBelow(x, w);
    assert x == q * w + r;
    EvenProduct(q, w);
    DivModUnique(q, r - 1, w);
  }

  lemma EvenProduct(q: nat, w: nat)
    requires w % 2 == 0
    ensures (q * w) % 2 == 0
  {
    assert q * w == 2 * (q * (w / 2)) by { DoubleProduct(q, w / 2); }
  }

  /** A partial tile holds a node of the range. */
  lemma EdgeTileIsRead(k: TileKey, s: nat) returns (id: NodeId)
    requires 0 < LeavesOf(k, s) < 256
    ensures id in RangeNodes(0, s) && TileOf(id) == k
  {
    var base := Shr(s, k.level * 8);
    Pow2Values();
    assert base / 256 == k.index && base % 256 != 0;
    LowBitBelow(base, 8);
    var j := LowBit(base);
    ShrAdd(s, k.level * 8, j);
    BitIsRangeNode(0, s, k.level * 8 + j);
    id := NodeId(k.level * 8 + j, Shr(base, j) - 1);
    EdgeNodeTile(k, base, j);
  }

  lemma EdgeTilesAreRead(getTile: GetTileFunc, s: nat)
    requires forall j :: 0 <= j < |RangeNodes(0, s)| ==> getTile(TileOf(RangeNodes(0, s)[j])).Some?
    ensures forall k :: 0 < LeavesOf(k, s) < 256 ==> getTile(k).Some?
  {
    forall k | 0 < LeavesOf(k, s) < 256 ensures getTile(k).Some? {
      var id := EdgeTileIsRead(k, s);
      assert id in RangeNodes(0, s);
    }
  }

  lemma EdgeNodeTile(k: TileKey, base: nat, j: nat)
    requires j < 8 && Shr(base, j) % 2 == 1 && base / 256 == k.index
    ensures TileOf(NodeId(k.level * 8 + j, Shr(base, j) - 1)) == k
  {
    EdgeNodeIndex(base, j);
    var level := k.level * 8 + j;
    assert level / 8 == k.level && level % 8 == j;
  }

  lemma EdgeNodeIndex(base: nat, j: nat)
    requires j < 8 && Shr(base, j) % 2 == 1
    ensures (Shr(base, j) - 1) / Pow2(8 - j) == base / 256
  {
    BeforeOddNode(Shr(base, j), 8 - j);
    ShiftedTwice(base, j);
  }

  lemma BeforeOddNode(x: nat, k: nat)
    requires x % 2 == 1 && k > 0
    ensures (x - 1) / Pow2(k) == x / Pow2(k)
  {
    var w := Pow2(k);
    assert w == 2 * Pow2(k - 1);
    BeforeOdd(x, w);
  }

  lemma ShiftedTwice(base: nat, j: nat)
    requires j < 8
    ensures Shr(base, j) / Pow2(8 - j) == base / 256
  {
    ShrIsDiv(Shr(base, j), 8 - j);
    ShrAdd(base, j, 8 - j);
    ShrIsDiv(base, 8);
    Pow2Values();
  }

  lemma RangeMatchesPrefix(row: seq<Digest>, s: nat)
    requires s <= |row|
    ensures Matches(0, row[..s], RangeNodes(0, s), RangeHashes(row, 0, s))
  {
    RangeMatchesNodes(0, row[..s], 0, s);
    SpineOfPrefix(row, s, 0, s);
  }

  lemma RangeNodeRead(getTile: GetTileFunc, row: seq<Digest>, s: nat, id: NodeId, h: Digest)
    requires s <= |row| && CorrectTiles(getTile, row, s) && HonestVisit(0, row[..s], Visit(id, h))
    ensures NodeInFetched(getTile(TileOf(id)), id) == Some(h)
  {
    PerfectNodeRead(getTile, row, s, id);
    NodeAtPrefix(row, s, id.level, id.index);
  }

  // ----- ephemeral nodes -----

  /** The reported node is the imperfect last node of its row in the tree whose row at `level`
      is `tree`; n of the nodes of that row are perfect. */
  ghost predicate Border(level: nat, n: nat, tree: seq<Digest>, v: Visit) {
    v.id.level > level && v.id.index == Shr(n, v.id.level - level)
    && var up := CarryN(tree, v.id.level - level);
       |up| == v.id.index + 1 && v.digest == up[v.id.index] && v.digest.NodeDigest?
  }

  lemma BorderDown(level: nat, n: nat, tree: seq<Digest>, v: Visit)
    requires Border(level + 1, n / 2, Carry(tree), v)
    ensures Border(level, n, tree, v)
  {
  }

  /** Folding the right border reports exactly border nodes. */
  lemma {:induction false} BorderVisits(level: nat, row: seq<Digest>, n: nat, x: Digest, v: Visit)
    requires n <= |row| && v in RootFrom(level, n, SpineOf(row, 0, n), Some(x)).visits
    ensures Border(level, n, row[..n] + [x], v)
    decreases n
  {
    if n > 0 {
      var up, tree := Lift(row), row[..n] + [x];
      if n % 2 == 0 {
        CarryWith(row, n, x);
        BorderVisits(level + 1, up, n / 2, x, v);
        BorderDown(level, n, tree, v);
      } else {
        var p := NodeDigest(row[n - 1], x);
        CarryWith(row, n, x);
        var rest := RootFrom(level + 1, n / 2, SpineOf(up, 0, n / 2), Some(p)).visits;
        if v in rest {
          BorderVisits(level + 1, up, n / 2, p, v);
          BorderDown(level, n, tree, v);
        } else {
          assert v == Visit(NodeId(level + 1, n / 2), p);
          assert CarryN(tree, 1) == Carry(tree) && Shr(n, 1) == n / 2;
        }
      }
    }
  }

  lemma {:induction false} RootBorder(level: nat, row: seq<Digest>, n: nat, v: Visit)
    requires n <= |row| && v in RootFrom(level, n, SpineOf(row, 0, n), None).visits
    ensures Border(level, n, row[..n], v)
    decreases n
  {
    if n > 0 {
      var up, tree := Lift(row), row[..n];
      if n % 2 == 0 {
        CarryFirst(row, n);
        RootBorder(level + 1, up, n / 2, v);
      } else {
        CarryFirst(row, n);
        BorderVisits(level + 1, up, n / 2, row[n - 1], v);
      }
      BorderDown(level, n, tree, v);
    }
  }

  /** An imperfect node of the tree over n leaves that has two children; a last node without
      a sibling is no node of its own. */
  ghost predicate ImperfectNode(level: nat, n: nat, tree: seq<Digest>, id: NodeId) {
    id.level > level && id.index == Shr(n, id.level - level)
    && |CarryN(tree, id.level - level)| == id.index + 1
    && |CarryN(tree, id.level - level - 1)| == 2 * id.index + 2
  }

  /** One row up, unless the node is in the next row. */
  lemma ImperfectUp(level: nat, n: nat, tree: seq<Digest>, id: NodeId)
    requires ImperfectNode(level, n, tree, id) && id.level > level + 1
    ensures ImperfectNode(level + 1, n / 2, Carry(tree), id)
  {
  }

  lemma ReportsMore(v: Visit, rest: seq<Visit>, id: NodeId)
    requires v.id == id || Reports(rest, id)
    ensures Reports([v] + rest, id)
  {
    if v.id == id { assert v in [v] + rest; } else {
      var w :| w in rest && w.id == id;
      assert w in [v] + rest;
    }
  }

  /** Folding the right border reports every imperfect node. */
  lemma {:induction false} BorderReported(level: nat, row: seq<Digest>, n: nat, x: Digest, id: NodeId)
    requires n <= |row| && ImperfectNode(level, n, row[..n] + [x], id)
    ensures Reports(RootFrom(level, n, SpineOf(row, 0, n), Some(x)).visits, id)
    decreases n
  {
    var up, tree := Lift(row), row[..n] + [x];
    LoneLeaf(x, id.level - level - 1);
    assert n == 0 ==> tree == [x];
    if n > 0 && n % 2 == 0 {
      CarryWith(row, n, x);
      if id.level > level + 1 {
        ImperfectUp(level, n, tree, id);
        BorderReported(level + 1, up, n / 2, x, id);
      }
    } else if n > 0 {
      var p := NodeDigest(row[n - 1], x);
      CarryWith(row, n, x);
      if id.level > level + 1 {
        ImperfectUp(level, n, tree, id);
        BorderReported(level + 1, up, n / 2, p, id);
      }
      ReportsMore(Visit(NodeId(level + 1, n / 2), p),
                  RootFrom(level + 1, n / 2, SpineOf(up, 0, n / 2), Some(p)).visits, id);
    }
  }

  lemma {:induction false} LoneLeaf(x: Digest, k: nat)
    ensures |CarryN([x], k)| == 1
    decreases k
  {
    if k > 0 {
      assert Carry([x]) == [x];
      LoneLeaf(x, k - 1);
    }
  }

  lemma {:induction false} RootReported(level: nat, row: seq<Digest>, n: nat, id: NodeId)
    requires n <= |row| && ImperfectNode(level, n, row[..n], id)
    ensures Reports(RootFrom(level, n, SpineOf(row, 0, n), None).visits, id)
    decreases n
  {
    var up, tree := Lift(row), row[..n];
    NoLeaf(id.level - level);
    if n > 0 && n % 2 == 0 {
      CarryFirst(row, n);
      if id.level > level + 1 {
        ImperfectUp(level, n, tree, id);
        RootReported(level + 1, up, n / 2, id);
      }
    } else if n > 0 {
      CarryFirst(row, n);
      if id.level > level + 1 {
        ImperfectUp(level, n, tree, id);
        BorderReported(level + 1, up, n / 2, row[n - 1], id);
      }
    }
  }

  lemma {:induction false} NoLeaf(k: nat)
    ensures CarryN([], k) == []
    decreases k
  {
    if k > 0 {
      assert Carry([]) == [];
      NoLeaf(k - 1);
    }
  }

  /** What a usable proof builder remembers: exactly the imperfect nodes, with their hashes. */
  ghost predicate TrueEphemerals(ephemeral: map<NodeId, Digest>, row: seq<Digest>, size: nat)
    requires size <= |row|
  {
    (forall id :: id in ephemeral ==> Border(0, size, row[..size], Visit(id, ephemeral[id])))
    && forall id :: ImperfectNode(0, size, row[..size], id) ==> id in ephemeral
  }

  /** Record the nodes that a root computation reports. */
  method RecordVisits(cache: NodeCache, visits: seq<Visit>)
    requires cache.Valid() && cache.ephemeral == map[]
    modifies cache`ephemeral
    ensures forall id :: id in cache.ephemeral <==> Reports(visits, id)
    ensures forall id :: id in cache.ephemeral ==> Visit(id, cache.ephemeral[id]) in visits
  {
    for i := 0 to |visits|
      invariant forall id :: id in cache.ephemeral <==> Reports(visits[..i], id)
      invariant forall id :: id in cache.ephemeral ==> Visit(id, cache.ephemeral[id]) in visits[..i]
    {
      cache.SetEphemeralNode(visits[i].id, visits[i].digest);
      assert visits[..i + 1] == visits[..i] + [visits[i]];
    }
    assert visits[..|visits|] == visits;
  }

  /** The root of a tree; that of the empty one is the nil hash. */
  function RootOf(tree: seq<Digest>): Digest { if tree == [] then NIL_DIGEST else TreeHash(tree) }

  /** A builder for proofs about a checkpoint: given correct tiles it exists exactly when the
      checkpoint has the root of the tree, and it remembers exactly the imperfect nodes. */
  method NewProofBuilder(cp: Checkpoint, getTile: GetTileFunc, ghost row: seq<Digest>) returns (pb: Option<NodeCache>)
    requires cp.size <= |row|
    ensures CorrectTiles(getTile, row, cp.size) ==> (pb.Some? <==> cp.hash == RootOf(row[..cp.size]))
    ensures pb.Some? ==> fresh(pb.value) && pb.value.Valid() && pb.value.getTile == getTile
    ensures CorrectTiles(getTile, row, cp.size) && pb.Some? ==> TrueEphemerals(pb.value.ephemeral, row, cp.size)
  {
    var cache := new NodeCache(getTile);
    var hashes := FetchRangeNodes(cp.size, getTile, row);
    if hashes.None? { return None; }
    var r := NewRange(0, cp.size, hashes.value);
    NewRangeHonest(row, 0, cp.size);
    if r.None? { return None; }
    var visits := RootVisits(r.value);
    RecordVisits(cache, visits);
    if CorrectTiles(getTile, row, cp.size) { RecordedAreTrue(cache.ephemeral, row, cp.size, visits); }
    if cp.size > 0 { GetRootHashHonest(row, cp.size); }
    if GetRootHash(r.value) != cp.hash { return None; }
    return Some(cache);
  }

  lemma RecordedAreTrue(ephemeral: map<NodeId, Digest>, row: seq<Digest>, size: nat, visits: seq<Visit>)
    requires size <= |row| && visits == RootFrom(0, size, SpineOf(row, 0, size), None).visits
    requires forall id :: id in ephemeral <==> Reports(visits, id)
    requires forall id :: id in ephemeral ==> Visit(id, ephemeral[id]) in visits
    ensures TrueEphemerals(ephemeral, row, size)
  {
    forall id | id in ephemeral ensures Border(0, size, row[..size], Visit(id, ephemeral[id])) {
      RootBorder(0, row, size, Visit(id, ephemeral[id]));
    }
    forall id | ImperfectNode(0, size, row[..size], id) ensures id in ephemeral {
      RootReported(0, row, size, id);
    }
  }

  /** A node of the tree: perfect, or imperfect with two children. */
  ghost predicate TreeNode(row: seq<Digest>, size: nat, id: NodeId)
    requires size <= |row|
  {
    id.index < Shr(size, id.level) || ImperfectNode(0, size, row[..size], id)
  }

  /** A remembered node is never a perfect one, so the lookup of every node of the tree agrees
      with the tree: perfect nodes come from the tiles, imperfect ones are remembered. */
  lemma LookupAgreesWithTree(ephemeral: map<NodeId, Digest>, getTile: GetTileFunc, row: seq<Digest>, size: nat,
                             id: NodeId)
    requires size <= |row| && CorrectTiles(getTile, row, size) && TrueEphemerals(ephemeral, row, size)
    ensures id in ephemeral ==> id.index >= Shr(size, id.level)
    ensures id in ephemeral || TreeNode(row, size, id) ==>
              id.index < |CarryN(row[..size], id.level)|
              && LookupNode(ephemeral, getTile, id) == Some(CarryN(row[..size], id.level)[id.index])
  {
    if id in ephemeral {
      assert Border(0, size, row[..size], Visit(id, ephemeral[id]));
    } else if id.index < Shr(size, id.level) {
      PerfectNodeRead(getTile, row, size, id);
      NodeAtPrefix(row, size, id.level, id.index);
      PerfectInTree(row[..size], id.level, id.index);
    }
  }
}
