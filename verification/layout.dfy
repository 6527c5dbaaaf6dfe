/** Tiles: 8 rows of the tree at a time, 256 nodes wide at the bottom.  How a tree node is
    addressed inside the tiles, which partial tile holds it, and powers of two. */
module Layout {
  import opened Merkle

  function Pow2(k: nat): (p: nat)
    ensures p > 0
  {
    if k == 0 then 1 else 2 * Pow2(k - 1)
  }

  lemma ModBelow(x: nat, w: nat)
    requires w > 0
    ensures 0 <= x % w < w && x / w >= 0
  {
  }

  /** The number of leaves expected in a tile of a log of the given size, 0 for a full tile. */
  function PartialTileSize(level: nat, index: nat, logSize: nat): nat {
    var sizeAtLevel := Shr(logSize, level * 8);
    if index < sizeAtLevel / 256 then 0 else sizeAtLevel % 256
  }

  datatype TileAddress = TileAddress(tileLevel: nat, tileIndex: nat, nodeLevel: nat, nodeIndex: nat)
  {
    predicate Valid() { nodeLevel < 8 && nodeIndex < Pow2(8 - nodeLevel) }
  }

  function NodeCoordsToTileAddress(treeLevel: nat, treeIndex: nat): (a: TileAddress)
    ensures a.Valid()
  {
    var nodeLevel := treeLevel % 8;
    var tileRowWidth := Pow2(8 - nodeLevel);
    ModBelow(treeIndex, tileRowWidth);
    TileAddress(treeLevel / 8, treeIndex / tileRowWidth, nodeLevel, treeIndex % tileRowWidth)
  }

  /** The position of a node in the in-order listing of a tile. */
  function TileNodeKey(level: nat, index: nat): nat {
    Pow2(level + 1) * index + Pow2(level) - 1
  }

  // ----- the addresses are a bijection -----

  /** The tree node at a tile address. */
  function NodeOfAddress(a: TileAddress): NodeId
    requires a.Valid()
  {
    NodeId(a.tileLevel * 8 + a.nodeLevel, a.tileIndex * Pow2(8 - a.nodeLevel) + a.nodeIndex)
  }

  lemma SmallMultiple(d: int, w: nat)
    requires d * w < w && d * w + w > 0
    ensures d == 0
  {
    assert d >= 1 ==> d * w >= w;
    assert d <= -1 ==> d * w + w <= 0;
  }

  lemma DivModUnique(q: nat, r: nat, w: nat)
    requires r < w
    ensures (q * w + r) / w == q && (q * w + r) % w == r
  {
    var x := q * w + r;
    var d := x / w - q;
    assert x == w * (x / w) + x % w;
    assert d * w == r - x % w by { assert w * (x / w) == w * q + w * d; }
    SmallMultiple(d, w);
  }

  /** Addressing is a bijection between tree nodes and valid addresses. */
  lemma AddressBijection(n: NodeId, a: TileAddress)
    requires a.Valid()
    ensures NodeOfAddress(NodeCoordsToTileAddress(n.level, n.index)) == n
    ensures var m := NodeOfAddress(a); NodeCoordsToTileAddress(m.level, m.index) == a
  {
    var w := Pow2(8 - n.level % 8);
    assert n.index == (n.index / w) * w + n.index % w;
    DivModUnique(a.tileIndex, a.nodeIndex, Pow2(8 - a.nodeLevel));
  }

  /** The node listed at a position: odd positions belong to the rows above. */
  function NodeOfKey(key: nat): (r: (nat, nat)) {
    if key % 2 == 0 then (0, key / 2) else
      var (l, i) := NodeOfKey(key / 2);
      (l + 1, i)
  }

  lemma TileNodeKeyUp(level: nat, index: nat)
    ensures TileNodeKey(level + 1, index) == 2 * TileNodeKey(level, index) + 1
  {
    assert Pow2(level + 2) * index == 2 * (Pow2(level + 1) * index);
  }

  lemma BottomKey(index: nat)
    ensures TileNodeKey(0, index) == 2 * index && NodeOfKey(2 * index) == (0, index)
  {
  }

  lemma NodeOfOddKey(key: nat, level: nat, index: nat)
    requires NodeOfKey(key) == (level, index)
    ensures NodeOfKey(2 * key + 1) == (level + 1, index)
  {
    assert (2 * key + 1) / 2 == key;
  }

  lemma {:induction false} NodeOfTileNodeKey(level: nat, index: nat)
    ensures NodeOfKey(TileNodeKey(level, index)) == (level, index)
    decreases level
  {
    if level == 0 {
      BottomKey(index);
    } else {
      NodeOfTileNodeKey(level - 1, index);
      TileNodeKeyUp(level - 1, index);
      NodeOfOddKey(TileNodeKey(level - 1, index), level - 1, index);
    }
  }

  lemma {:induction false} TileNodeKeyOfNode(key: nat)
    ensures var (l, i) := NodeOfKey(key); TileNodeKey(l, i) == key
    decreases key
  {
    if key % 2 == 0 {
      assert TileNodeKey(0, key / 2) == key;
    } else {
      TileNodeKeyOfNode(key / 2);
      var (l, i) := NodeOfKey(key / 2);
      TileNodeKeyUp(l, i);
    }
  }

  /** In a tile of h rows the keys in use are those below 2^(h+1) - 1 except 2^h - 1, which
      would be the root of the tile: it belongs to the tile above. */
  lemma {:induction false} KeyRange(h: nat, level: nat, index: nat)
    ensures level < h && index < Pow2(h - level)
       <==> TileNodeKey(level, index) < 2 * Pow2(h) - 1 && TileNodeKey(level, index) != Pow2(h) - 1
    decreases level
  {
    if level == 0 {
      assert TileNodeKey(0, index) == 2 * index;
    } else {
      TileNodeKeyUp(level - 1, index);
      if h > 0 { KeyRange(h - 1, level - 1, index); }
    }
  }

  lemma Pow2Values()
    ensures Pow2(8) == 256 && Pow2(9) == 512 && Pow2(7) == 128 && Pow2(6) == 64 && Pow2(5) == 32
    ensures Pow2(4) == 16 && Pow2(3) == 8 && Pow2(2) == 4 && Pow2(1) == 2 && Pow2(0) == 1
  {
    assert Pow2(4) == 16;
    assert Pow2(8) == 256;
  }

  /** Within a tile, keys are a bijection between nodes and 0..510 without 255. */
  lemma TileKeysAreABijection(level: nat, index: nat, key: nat)
    ensures NodeOfKey(TileNodeKey(level, index)) == (level, index)
    ensures var (l, i) := NodeOfKey(key); TileNodeKey(l, i) == key
    ensures level < 8 && index < Pow2(8 - level)
       <==> TileNodeKey(level, index) <= 510 && TileNodeKey(level, index) != 255
  {
    NodeOfTileNodeKey(level, index);
    TileNodeKeyOfNode(key);
    KeyRange(8, level, index);
    Pow2Values();
  }

  // ----- nodes, sizes and powers of two -----

  lemma {:induction false} Pow2Add(a: nat, b: nat)
    ensures Pow2(a + b) == Pow2(a) * Pow2(b)
    decreases a
  {
    if a > 0 {
      Pow2Add(a - 1, b);
      assert Pow2(a) * Pow2(b) == 2 * (Pow2(a - 1) * Pow2(b));
    }
  }

  /** A node is below n >> k exactly when its last node k rows down is below n. */
  lemma {:induction false} BelowShr(index: nat, n: nat, k: nat)
    ensures index < Shr(n, k) <==> (index + 1) * Pow2(k) <= n
    decreases k
  {
    if k > 0 {
      BelowShr(index, n / 2, k - 1);
      DoubleProduct(index + 1, Pow2(k - 1));
    }
  }

  lemma DoubleProduct(a: nat, p: nat)
    ensures a * (2 * p) == 2 * (a * p)
  {
  }

  lemma TileRowProduct(t: nat, r: nat, p: nat, x: nat)
    requires r * p == 256 && x < r
    ensures (t * r + x + 1) * p == t * 256 + (x + 1) * p && (x + 1) * p <= 256
  {
    calc {
      (t * r + x + 1) * p;
      (t * r) * p + (x + 1) * p;
      t * (r * p) + (x + 1) * p;
    }
    assert (x + 1) * p <= r * p;
  }

  /** The number of bottom nodes of a tile that exist in a log of the given size. */
  function TileLeafCount(level: nat, index: nat, logSize: nat): nat {
    LeavesInTile(Shr(logSize, level * 8), index)
  }

  /** The part of a row of w nodes that falls into the t-th group of 256. */
  function LeavesInTile(w: nat, t: nat): nat {
    if w <= t * 256 then 0 else if w - t * 256 < 256 then w - t * 256 else 256
  }

  /** `PartialTileSize` of an existing tile is its number of leaves, 0 standing for 256. */
  lemma PartialIsLeafCount(level: nat, index: nat, logSize: nat)
    requires TileLeafCount(level, index, logSize) > 0
    ensures PartialTileSize(level, index, logSize) == TileLeafCount(level, index, logSize) % 256
  {
  }

  /** A node is perfect in a tree exactly when its last leaf is among the leaves of its tile. */
  lemma NodeInTile(a: TileAddress, logSize: nat)
    requires a.Valid()
    ensures var n := NodeOfAddress(a);
            n.index < Shr(logSize, n.level)
            <==> (a.nodeIndex + 1) * Pow2(a.nodeLevel) <= TileLeafCount(a.tileLevel, a.tileIndex, logSize)
  {
    ShrAdd(logSize, a.tileLevel * 8, a.nodeLevel);
    NodeAboveTileRow(Shr(logSize, a.tileLevel * 8), a.tileIndex, a.nodeLevel, a.nodeIndex);
  }

  lemma NodeAboveTileRow(w: nat, t: nat, nodeLevel: nat, x: nat)
    requires nodeLevel < 8 && x < Pow2(8 - nodeLevel)
    ensures t * Pow2(8 - nodeLevel) + x < Shr(w, nodeLevel) <==> (x + 1) * Pow2(nodeLevel) <= LeavesInTile(w, t)
    ensures 0 < (x + 1) * Pow2(nodeLevel) <= 256
  {
    var p, r := Pow2(nodeLevel), Pow2(8 - nodeLevel);
    assert r * p == 256 by { Pow2Add(8 - nodeLevel, nodeLevel); Pow2Values(); }
    TileRowProduct(t, r, p, x);
    BelowShr(t * r + x, w, nodeLevel);
    PositiveProduct(x + 1, p);
  }

  lemma PositiveProduct(a: nat, b: nat)
    requires a > 0 && b > 0
    ensures a * b > 0
  {
  }

  // ----- tiles and keys of tree nodes -----

  datatype TileKey = TileKey(level: nat, index: nat)

  function TileOf(id: NodeId): TileKey {
    var a := NodeCoordsToTileAddress(id.level, id.index);
    TileKey(a.tileLevel, a.tileIndex)
  }

  function KeyOf(id: NodeId): nat {
    var a := NodeCoordsToTileAddress(id.level, id.index);
    TileNodeKey(a.nodeLevel, a.nodeIndex)
  }

  /** No two nodes share a place. */
  lemma PlacesDiffer(id: NodeId, id': NodeId)
    requires TileOf(id) == TileOf(id') && KeyOf(id) == KeyOf(id')
    ensures id == id'
  {
    var a, a' := NodeCoordsToTileAddress(id.level, id.index), NodeCoordsToTileAddress(id'.level, id'.index);
    NodeOfTileNodeKey(a.nodeLevel, a.nodeIndex);
    NodeOfTileNodeKey(a'.nodeLevel, a'.nodeIndex);
    AddressBijection(id, a);
    AddressBijection(id', a');
  }

  function LeavesOf(k: TileKey, size: nat): nat {
    TileLeafCount(k.level, k.index, size)
  }

  /** The nodes of a tile that exist depend only on how many of its leaves do. */
  lemma PerfectByLeaves(id: NodeId, s: nat, n: nat)
    requires id.index < Shr(s, id.level) && LeavesOf(TileOf(id), s) <= LeavesOf(TileOf(id), n)
    ensures id.index < Shr(n, id.level)
  {
    var a := NodeCoordsToTileAddress(id.level, id.index);
    AddressBijection(id, a);
    NodeInTile(a, s);
    NodeInTile(a, n);
  }

  lemma LeavesMonotone(k: TileKey, s: nat, n: nat)
    requires s <= n
    ensures LeavesOf(k, s) <= LeavesOf(k, n)
  {
    ShrMonotone(s, n, k.level * 8);
  }

  /** The x-th bottom node of a tile. */
  function BottomNode(k: TileKey, x: nat): NodeId {
    NodeId(k.level * 8, k.index * 256 + x)
  }

  lemma BottomNodeInTile(k: TileKey, x: nat, n: nat)
    requires x < 256
    ensures TileOf(BottomNode(k, x)) == k
    ensures NodeCoordsToTileAddress(k.level * 8, k.index * 256 + x) == TileAddress(k.level, k.index, 0, x)
    ensures BottomNode(k, x).index < Shr(n, k.level * 8) <==> x < LeavesOf(k, n)
  {
    Pow2Values();
  }

  /** A bottom node that exists is counted among the leaves of its tile. */
  lemma BottomNodeCounted(id: NodeId, n: nat)
    requires id.index < Shr(n, id.level) && id.level % 8 == 0
    ensures NodeCoordsToTileAddress(id.level, id.index).nodeIndex < LeavesOf(TileOf(id), n)
  {
    var k, x := TileKey(id.level / 8, id.index / 256), id.index % 256;
    assert id == BottomNode(k, x);
    BottomNodeInTile(k, x, n);
  }

  // ----- division -----

  lemma NextBlock(x: nat, w: nat)
    ensures (x + 1) * w == x * w + w
  {
  }

  lemma DivAtLeast(n: nat, t: nat, x: nat)
    requires t > 0
    ensures x <= n / t <==> x * t <= n
  {
    ModBelow(n, t);
    var q := n / t;
    assert n == q * t + n % t;
    if x > q {
      assert x * t >= (q + 1) * t;
      NextBlock(q, t);
    } else {
      assert x * t <= q * t;
    }
  }

  /** Shifting right divides by the power of two. */
  lemma ShrIsDiv(n: nat, k: nat)
    ensures n / Pow2(k) == Shr(n, k)
  {
    var q := n / Pow2(k);
    ModBelow(n, Pow2(k));
    DivAtLeast(n, Pow2(k), q);
    DivAtLeast(n, Pow2(k), Shr(n, k));
    if q > 0 { BelowShr(q - 1, n, k); }
    if Shr(n, k) > 0 { BelowShr(Shr(n, k) - 1, n, k); }
  }

  // ----- aligned blocks of a row -----

  lemma ProductAssociates(a: nat, b: nat, c: nat)
    ensures a * b * c == a * (b * c)
  {
  }

  lemma {:induction false} Pow2Grows(a: nat, b: nat)
    requires a <= b
    ensures Pow2(a) <= Pow2(b)
    decreases b
  {
    if a < b { Pow2Grows(a, b - 1); }
  }

  /** The root of an aligned block of 2^k nodes is a node k rows up. */
  lemma {:induction false} BlockRoot(row: seq<Digest>, k: nat, index: nat)
    requires (index + 1) * Pow2(k) <= |row|
    ensures index * Pow2(k) < (index + 1) * Pow2(k) && index < Shr(|row|, k)
    ensures Root(row[index * Pow2(k)..(index + 1) * Pow2(k)]) == NodeAt(row, k, index)
    decreases k
  {
    BelowShr(index, |row|, k);
    assert (index + 1) * Pow2(k) == index * Pow2(k) + Pow2(k);
    if k > 0 {
      var q := Pow2(k - 1);
      DoubleProduct(index, q);
      DoubleProduct(index + 1, q);
      BlockRoot(Lift(row), k - 1, index);
      CarryBlock(row, index * q, (index + 1) * q);
    }
  }

  lemma CarryBlock(row: seq<Digest>, b: nat, e: nat)
    requires b < e && 2 * e <= |row|
    ensures Root(row[2 * b..2 * e]) == Root(Lift(row)[b..e])
  {
    assert Carry(row[2 * b..2 * e]) == Lift(row)[b..e];
    RootOfCarry(row[2 * b..2 * e]);
  }

  /** A node of an aligned part of a row is a node of the row. */
  lemma {:induction false} NodeAtSlice(row: seq<Digest>, q: nat, off: nat, count: nat, k: nat, i: nat)
    requires off == q * Pow2(k) && off + count <= |row| && i < Shr(count, k)
    ensures q + i < Shr(|row|, k)
    ensures NodeAt(row[off..off + count], k, i) == NodeAt(row, k, q + i)
    decreases k
  {
    if k > 0 {
      var half := q * Pow2(k - 1);
      DoubleProduct(q, Pow2(k - 1));
      LiftSlice(row, off, half, count);
      NodeAtSlice(Lift(row), q, half, count / 2, k - 1, i);
    }
  }

  lemma LiftSlice(row: seq<Digest>, off: nat, half: nat, count: nat)
    requires off == 2 * half && off + count <= |row|
    ensures half + count / 2 <= |row| / 2
    ensures Lift(row[off..off + count]) == Lift(row)[half..half + count / 2]
  {
  }
}
