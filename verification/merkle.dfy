/** The Merkle tree hash of section 2.1 of RFC 6962 over an idealised hash function.

    Digests are a free datatype: the leaf hash and the node hash are injective and
    never collide, and `Raw` stands for every byte string that is not an output of the
    hash function (the nil slice is `Raw([])`), so that digests supplied by an untrusted
    party are covered.  Trees are also described one row at a time (`Lift`, `Carry`),
    which keeps all index arithmetic to halving. */
module Merkle {
  newtype byte = x: int | 0 <= x < 256
  type Bytes = seq<byte>

  datatype Digest =
    | Raw(bytes: Bytes)
    | LeafDigest(entry: Bytes)
    | NodeDigest(left: Digest, right: Digest)

  const NIL_DIGEST := Raw([])

  /** The row of leaf hashes of a log. */
  function LeafDigests(log: seq<Bytes>): (row: seq<Digest>)
    ensures |row| == |log|
    ensures forall i :: 0 <= i < |log| ==> row[i] == LeafDigest(log[i])
  {
    seq(|log|, i requires 0 <= i < |log| => LeafDigest(log[i]))
  }

  predicate IsPowerOfTwo(k: nat) {
    k == 1 || (k > 0 && k % 2 == 0 && IsPowerOfTwo(k / 2))
  }

  /** The largest power of two smaller than n. */
  function SplitPoint(n: nat): (k: nat)
    requires n >= 2
    ensures IsPowerOfTwo(k) && k < n <= 2 * k
  {
    if n == 2 then 1 else 2 * SplitPoint((n + 1) / 2)
  }

  /** MTH of section 2.1 of RFC 6962, from the row of leaf hashes. */
  function TreeHash(row: seq<Digest>): Digest
    requires |row| > 0
    decreases |row|
  {
    if |row| == 1 then row[0] else
      var k := SplitPoint(|row|);
      NodeDigest(TreeHash(row[..k]), TreeHash(row[k..]))
  }

  /** The root a log of at least one entry commits to. */
  function Mth(log: seq<Bytes>): Digest
    requires |log| > 0
  {
    TreeHash(LeafDigests(log))
  }

  // ----- rows of the tree -----

  /** The next row up, made of complete pairs only. */
  function Lift(row: seq<Digest>): (up: seq<Digest>)
    ensures |up| == |row| / 2
    ensures forall i :: 0 <= i < |up| ==> up[i] == NodeDigest(row[2 * i], row[2 * i + 1])
  {
    seq(|row| / 2, i requires 0 <= i < |row| / 2 => NodeDigest(row[2 * i], row[2 * i + 1]))
  }

  /** The next row up of a whole tree: an unpaired last node moves up unchanged. */
  function Carry(row: seq<Digest>): (up: seq<Digest>)
    ensures |up| == (|row| + 1) / 2
  {
    Lift(row) + if |row| % 2 == 1 then [row[|row| - 1]] else []
  }

  /** The root computed row by row. */
  function Root(row: seq<Digest>): Digest
    requires |row| > 0
    decreases |row|
  {
    if |row| == 1 then row[0] else Root(Carry(row))
  }

  lemma CarrySplit(row: seq<Digest>, k: nat)
    requires k <= |row| && k % 2 == 0
    ensures Carry(row)[..k / 2] == Carry(row[..k])
    ensures Carry(row)[k / 2..] == Carry(row[k..])
  {
  }

  lemma RootOfCarry(row: seq<Digest>)
    requires |row| > 0
    ensures Root(Carry(row)) == Root(row)
  {
    if |row| == 1 { assert Carry(row) == row; }
  }

  /** One row up from the first n nodes of a row and another one. */
  lemma CarryWith(row: seq<Digest>, n: nat, x: Digest)
    requires n <= |row|
    ensures Carry(row[..n] + [x]) == Lift(row)[..n / 2] + [if n % 2 == 0 then x else NodeDigest(row[n - 1], x)]
  {
  }

  lemma CarryFirst(row: seq<Digest>, n: nat)
    requires n <= |row|
    ensures Carry(row[..n]) == Lift(row)[..n / 2] + if n % 2 == 0 then [] else [row[n - 1]]
    ensures n % 2 == 0 ==> Carry(row[..n]) == Lift(row)[..n / 2]
  {
  }

  /** A root fixes the leaf hashes, given their number. */
  lemma {:induction false} RootFixesRow(a: seq<Digest>, b: seq<Digest>)
    requires |a| == |b| > 0 && Root(a) == Root(b)
    ensures a == b
    decreases |a|
  {
    if |a| > 1 {
      RootFixesRow(Carry(a), Carry(b));
      CarryFixesRow(a, b);
    }
  }

  lemma CarryFixesRow(a: seq<Digest>, b: seq<Digest>)
    requires |a| == |b| && Carry(a) == Carry(b)
    ensures a == b
  {
    forall i | 0 <= i < |a|
      ensures a[i] == b[i]
    {
      assert Carry(a)[i / 2] == Carry(b)[i / 2];
    }
  }

  /** One split of the tree can be taken after moving a row up. */
  lemma TreeHashOfCarry(row: seq<Digest>)
    requires |row| > 2
    ensures var k := SplitPoint(|row|);
            TreeHash(Carry(row)) == NodeDigest(TreeHash(Carry(row[..k])), TreeHash(Carry(row[k..])))
  {
    var k := SplitPoint(|row|);
    CarrySplit(row, k);
    assert SplitPoint(|Carry(row)|) == k / 2;
  }

  /** Computing the tree row by row gives the recursively defined hash. */
  lemma {:induction false} RootIsTreeHash(row: seq<Digest>)
    requires |row| > 0
    ensures Root(row) == TreeHash(row)
    decreases |row|, 0
  {
    if |row| == 2 {
      assert Carry(row) == [NodeDigest(row[0], row[1])];
    } else if |row| > 2 {
      var k := SplitPoint(|row|);
      var left, right := row[..k], row[k..];
      assert TreeHash(Carry(left)) == TreeHash(left) by { CarryIsTreeHash(left); }
      assert TreeHash(Carry(right)) == TreeHash(right) by { CarryIsTreeHash(right); }
      RootIsTreeHash(Carry(row));
      TreeHashOfCarry(row);
    }
  }

  lemma {:induction false} CarryIsTreeHash(row: seq<Digest>)
    requires |row| > 0
    ensures TreeHash(Carry(row)) == TreeHash(row)
    decreases |row|, 1
  {
    RootOfCarry(row);
    if |row| == 1 {
      assert Carry(row) == row;
    } else {
      RootIsTreeHash(row);
      RootIsTreeHash(Carry(row));
    }
  }

  // ----- perfect nodes -----

  /** A node of the tree: `index` counts the nodes of one level from the left. */
  datatype NodeId = NodeId(level: nat, index: nat)

  /** n >> level. */
  function Shr(n: nat, level: nat): (r: nat)
    ensures r <= n
    decreases level
  {
    if level == 0 then n else Shr(n / 2, level - 1)
  }

  /** The leaves of the node all lie in [begin, end). */
  predicate Inside(level: nat, index: nat, begin: nat, end: nat)
    decreases level
  {
    if level == 0 then begin <= index < end
    else Inside(level - 1, index, (begin + 1) / 2, end / 2)
  }

  /** The hash of a perfect node. */
  function NodeAt(row: seq<Digest>, level: nat, index: nat): Digest
    requires index < Shr(|row|, level)
    decreases level
  {
    if level == 0 then row[index] else NodeAt(Lift(row), level - 1, index)
  }

  lemma {:induction false} ShrMonotone(a: nat, b: nat, level: nat)
    requires a <= b
    ensures Shr(a, level) <= Shr(b, level)
    decreases level
  {
    if level > 0 { ShrMonotone(a / 2, b / 2, level - 1); }
  }

  lemma {:induction false} ShrAdd(n: nat, a: nat, b: nat)
    ensures Shr(n, a + b) == Shr(Shr(n, a), b)
    decreases a
  {
    if a > 0 { ShrAdd(n / 2, a - 1, b); }
  }

  /** A node is perfect in a tree of n leaves exactly when its index is below n >> level. */
  lemma {:induction false} InsideFromZero(level: nat, index: nat, n: nat)
    ensures Inside(level, index, 0, n) <==> index < Shr(n, level)
    decreases level
  {
    if level > 0 { InsideFromZero(level - 1, index, n / 2); }
  }

  lemma {:induction false} InsideMonotone(level: nat, index: nat, b: nat, e: nat, b': nat, e': nat)
    requires Inside(level, index, b, e) && b' <= b && e <= e'
    ensures Inside(level, index, b', e')
    decreases level
  {
    if level > 0 { InsideMonotone(level - 1, index, (b + 1) / 2, e / 2, (b' + 1) / 2, e' / 2); }
  }

  lemma {:induction false} InsideDisjoint(level: nat, index: nat, b: nat, m: nat, e: nat)
    requires Inside(level, index, b, m)
    ensures !Inside(level, index, m, e)
    decreases level
  {
    if level > 0 && Inside(level, index, m, e) {
      InsideMonotone(level - 1, index, (m + 1) / 2, e / 2, m / 2, e / 2);
      InsideDisjoint(level - 1, index, (b + 1) / 2, m / 2, e / 2);
    }
  }

  lemma {:induction false} InsideOneLeaf(level: nat, index: nat, k: nat)
    ensures Inside(level, index, k, k + 1) <==> level == 0 && index == k
  {
    if level > 0 && Inside(level, index, k, k + 1) { InsideBounds(level - 1, index, (k + 1) / 2, (k + 1) / 2); }
  }

  lemma {:induction false} InsideBounds(level: nat, index: nat, b: nat, e: nat)
    requires Inside(level, index, b, e)
    ensures b < e
    decreases level
  {
    if level > 0 { InsideBounds(level - 1, index, (b + 1) / 2, e / 2); }
  }

  /** A perfect node is the hash of its two children. */
  lemma {:induction false} NodeAtChildren(row: seq<Digest>, level: nat, index: nat)
    requires index < Shr(|row|, level + 1)
    ensures 2 * index + 1 < Shr(|row|, level)
    ensures NodeAt(row, level + 1, index)
         == NodeDigest(NodeAt(row, level, 2 * index), NodeAt(row, level, 2 * index + 1))
    decreases level
  {
    if level > 0 {
      NodeAtChildren(Lift(row), level - 1, index);
    }
  }

  /** Appending leaves changes no perfect node. */
  lemma {:induction false} NodeAtPrefix(row: seq<Digest>, n: nat, level: nat, index: nat)
    requires n <= |row| && index < Shr(n, level)
    ensures index < Shr(|row|, level)
    ensures NodeAt(row, level, index) == NodeAt(row[..n], level, index)
    decreases level
  {
    ShrMonotone(n, |row|, level);
    if level > 0 {
      assert Lift(row[..n]) == Lift(row)[..n / 2];
      NodeAtPrefix(Lift(row), n / 2, level - 1, index);
    }
  }

  /** The row `level` rows further up, complete nodes only. */
  function LiftN(row: seq<Digest>, level: nat): (up: seq<Digest>)
    ensures |up| == Shr(|row|, level)
    decreases level
  {
    if level == 0 then row else LiftN(Lift(row), level - 1)
  }

  lemma {:induction false} NodeAtRow(row: seq<Digest>, level: nat, index: nat)
    requires index < Shr(|row|, level)
    ensures NodeAt(row, level, index) == LiftN(row, level)[index]
    decreases level
  {
    if level > 0 { NodeAtRow(Lift(row), level - 1, index); }
  }

  lemma {:induction false} LiftAdd(row: seq<Digest>, a: nat, b: nat)
    ensures LiftN(row, a + b) == LiftN(LiftN(row, a), b)
    decreases a
  {
    if a > 0 { LiftAdd(Lift(row), a - 1, b); }
  }

  /** A node is the node of the row in between, seen from there. */
  lemma NodeAtVia(row: seq<Digest>, a: nat, b: nat, index: nat)
    requires index < Shr(|row|, a + b)
    ensures index < Shr(|LiftN(row, a)|, b)
    ensures NodeAt(row, a + b, index) == NodeAt(LiftN(row, a), b, index)
  {
    ShrAdd(|row|, a, b);
    LiftAdd(row, a, b);
    NodeAtRow(row, a + b, index);
    NodeAtRow(LiftN(row, a), b, index);
  }

  /** The row `level` rows further up of a whole tree: the last node may be imperfect. */
  function CarryN(row: seq<Digest>, level: nat): (up: seq<Digest>)
    decreases level
  {
    if level == 0 then row else CarryN(Carry(row), level - 1)
  }

  /** The perfect nodes of a row are the first nodes of that row of the whole tree. */
  lemma {:induction false} PerfectInTree(row: seq<Digest>, level: nat, index: nat)
    requires index < Shr(|row|, level)
    ensures index < |CarryN(row, level)| && CarryN(row, level)[index] == NodeAt(row, level, index)
    decreases level
  {
    if level > 0 {
      var up, n := Carry(row), |row| / 2;
      assert up[..n] == Lift(row);
      NodeAtPrefix(up, n, level - 1, index);
      PerfectInTree(up, level - 1, index);
    }
  }
}
