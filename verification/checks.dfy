/** `CheckConsistency` of the serverless client: checkpoints are sorted by size and compared
    pair by pair, with proofs built from the tiles of the largest.  The loop advances one pair
    late, so that the last pair of three or more is never compared.  It is shown what is
    accepted, and for which sizes acceptance still means that all checkpoints are right. */
module Checks {
  import opened Merkle
  import opened CompactRange
  import opened Consistency
  import opened Layout
  import opened TileStore
  import opened Witness
  import opened Client
  import opened TileProofs

  // ----- what is accepted -----

  predicate Ascending(cps: seq<Checkpoint>) {
    forall i, j :: 0 <= i < j < |cps| ==> cps[i].size <= cps[j].size
  }

  /** Two checkpoints pass: they are equal, or the proof from the tiles leads from one to the
      other; nothing is checked about an empty one. */
  predicate PairOK(tree: seq<Digest>, a: Checkpoint, b: Checkpoint)
    requires a.size <= b.size <= |tree|
  {
    if a.size == b.size then a.hash == b.hash
    else a.size > 0 ==>
      VerifyConsistency(a.size, b.size, HonestProof(tree[..b.size], a.size - 1), a.hash, b.hash)
  }

  /** Sorted checkpoints that fit into the tree, the last one being of the whole tree. */
  predicate Fitting(tree: seq<Digest>, cps: seq<Checkpoint>) {
    |cps| >= 2 && Ascending(cps) && cps[|cps| - 1].size == |tree|
  }

  /** The pairs the loop compares: the first one, and all but the last. */
  predicate Compared(count: nat, k: nat) { k == 0 || k + 2 < count }

  predicate PairsOK(tree: seq<Digest>, cps: seq<Checkpoint>)
    requires Fitting(tree, cps)
  {
    forall k :: 0 <= k < |cps| - 1 && Compared(|cps|, k) ==> PairOK(tree, cps[k], cps[k + 1])
  }

  predicate Accepted(tree: seq<Digest>, cps: seq<Checkpoint>)
    requires Fitting(tree, cps)
  {
    cps[|cps| - 1].hash == RootOf(tree) && PairsOK(tree, cps)
  }

  method SortCheckpoints(cps: seq<Checkpoint>) returns (s: seq<Checkpoint>)
    ensures Ascending(s) && multiset(s) == multiset(cps)
  {
    s := [];
    for n := 0 to |cps|
      invariant Ascending(s) && multiset(s) == multiset(cps[..n])
    {
      s := InsertOne(s, cps[n]);
      OneMore(cps, n);
    }
    assert cps[..|cps|] == cps;
  }

  lemma OneMore(cps: seq<Checkpoint>, n: nat)
    requires n < |cps|
    ensures multiset(cps[..n + 1]) == multiset(cps[..n]) + multiset{cps[n]}
  {
    assert cps[..n + 1] == cps[..n] + [cps[n]];
  }

  method InsertOne(s: seq<Checkpoint>, c: Checkpoint) returns (r: seq<Checkpoint>)
    requires Ascending(s)
    ensures Ascending(r) && multiset(r) == multiset(s) + multiset{c}
  {
    var i := 0;
    while i < |s| && s[i].size <= c.size
      invariant 0 <= i <= |s| && forall k :: 0 <= k < i ==> s[k].size <= c.size
    {
      i := i + 1;
    }
    return Insert(s, i, c);
  }

  function Insert(s: seq<Checkpoint>, i: nat, c: Checkpoint): (r: seq<Checkpoint>)
    requires i <= |s| && Ascending(s)
    requires (forall k :: 0 <= k < i ==> s[k].size <= c.size) && (i < |s| ==> c.size <= s[i].size)
    ensures Ascending(r) && multiset(r) == multiset(s) + multiset{c}
  {
    assert s == s[..i] + s[i..];
    s[..i] + [c] + s[i..]
  }

  /** One comparison. */
  method CheckPair(pb: NodeCache, a: Checkpoint, b: Checkpoint, ghost row: seq<Digest>) returns (ok: bool)
    requires pb.Valid() && a.size <= b.size <= |row|
    modifies pb`tiles
    ensures pb.Valid() && pb.ephemeral == old(pb.ephemeral)
    ensures Usable(pb.ephemeral, pb.getTile, row, b.size) ==> (ok <==> PairOK(row, a, b))
  {
    if a.size == b.size { return a.hash == b.hash; }
    if a.size > 0 {
      var proof := ConsistencyProof(pb, a.size, b.size, row);
      if proof.None? { return false; }
      return VerifyConsistency(a.size, b.size, proof.value, a.hash, b.hash);
    }
    return true;
  }

  /** The loop over the sorted checkpoints: the pair for the next round is taken before the
      index moves on. */
  method CheckPairs(pb: NodeCache, cp: seq<Checkpoint>, ghost tree: seq<Digest>) returns (ok: bool)
    requires pb.Valid() && |cp| >= 2 && Ascending(cp) && cp[|cp| - 1].size <= |tree|
    modifies pb`tiles
    ensures Usable(pb.ephemeral, pb.getTile, tree, |tree|) && Fitting(tree, cp) ==> (ok <==> PairsOK(tree, cp))
  {
    ghost var usable := Usable(pb.ephemeral, pb.getTile, tree, |tree|);
    var a, b, i := cp[0], cp[1], 0;
    while i < |cp| - 1
      invariant 0 <= i <= |cp| - 1 && pb.Valid() && pb.ephemeral == old(pb.ephemeral)
      invariant i < |cp| - 1 ==> var k := if i == 0 then 0 else i - 1; a == cp[k] && b == cp[k + 1]
      invariant usable ==> forall k :: 0 <= k < i && (k == 0 || k + 1 < i) ==> PairOK(tree, cp[k], cp[k + 1])
    {
      if usable { UsableForSmaller(pb.ephemeral, pb.getTile, tree, b.size); }
      ok := CheckPair(pb, a, b, tree);
      if !ok {
        ghost var k := if i == 0 then 0 else i - 1;
        assert Compared(|cp|, k) && (usable ==> !PairOK(tree, cp[k], cp[k + 1]));
        return;
      }
      i, a, b := i + 1, cp[i], cp[i + 1];
    }
    return true;
  }

  /** Given correct tiles of a tree of the largest size, the call accepts exactly if the largest
      checkpoint is that of the tree and the compared pairs pass. */
  method CheckConsistency(cps: seq<Checkpoint>, getTile: GetTileFunc, ghost tree: seq<Digest>)
    returns (ok: bool, cp: seq<Checkpoint>)
    requires forall c :: c in cps ==> c.size <= |tree|
    ensures |cps| < 2 ==> !ok
    ensures |cps| >= 2 ==> |cp| == |cps| && Ascending(cp) && multiset(cp) == multiset(cps)
    ensures |cps| >= 2 && cp[|cp| - 1].size == |tree| && CorrectTiles(getTile, tree, |tree|) ==>
              (ok <==> Accepted(tree, cp))
  {
    cp := cps;
    if |cps| < 2 { return false, cp; }
    cp := SortCheckpoints(cps);
    SameMembers(cps, cp);
    var pb := NewProofBuilder(cp[|cp| - 1], getTile, tree);
    assert tree[..|tree|] == tree;
    if pb.None? { return false, cp; }
    ok := CheckPairs(pb.value, cp, tree);
  }

  lemma SameMembers(a: seq<Checkpoint>, b: seq<Checkpoint>)
    requires multiset(a) == multiset(b)
    ensures |a| == |b| && forall c :: c in b ==> c in a
  {
    assert |multiset(a)| == |a| && |multiset(b)| == |b|;
    forall c | c in b ensures c in a { assert c in multiset(b); }
  }

  lemma UsableForSmaller(ephemeral: map<NodeId, Digest>, getTile: GetTileFunc, tree: seq<Digest>, n: nat)
    requires n <= |tree| && Usable(ephemeral, getTile, tree, |tree|)
    ensures Usable(ephemeral, getTile, tree, n)
  {
  }

  // ----- what a compared pair shows -----

  ghost predicate Right(tree: seq<Digest>, cp: Checkpoint)
    requires cp.size <= |tree|
  {
    cp.size > 0 ==> cp.hash == TreeHash(tree[..cp.size])
  }

  /** A proof computes the second root from the first, and the first as well unless it is the
      start of the path. */
  lemma {:induction false} ProofFixesRoots(fn: nat, sn: nat, proof: seq<Digest>, x: Digest, y: Digest, x': Digest,
                                           y': Digest)
    requires fn < sn && proof != [] && VerifyFrom(fn, sn, proof, x, y) && VerifyFrom(fn, sn, proof, x', y')
    requires x == x' || !IsPowerOfTwo(fn + 1)
    ensures x == x' && y == y'
    decreases fn
  {
    if fn % 2 == 1 {
      assert (fn + 1) / 2 == fn / 2 + 1;
      ProofFixesRoots(fn / 2, sn / 2, proof, x, y, x', y');
    }
  }

  lemma {:induction false} ChainAtZero(sn: nat, x: Digest, sr: Digest, x': Digest, sr': Digest, path: seq<Digest>)
    requires Chain(0, sn, x, sr, path).Some?
    ensures Chain(0, sn, x', sr', path).Some? && Chain(0, sn, x', sr', path).value.first == x'
    decreases sn
  {
    if sn > 0 { ChainAtZero(sn / 2, x, NodeDigest(sr, path[0]), x', NodeDigest(sr', path[0]), path[1..]); }
  }

  /** From a tree of a power of two leaves a proof leads on from any root. */
  lemma {:induction false} AnyRootLeadsOn(fn: nat, sn: nat, proof: seq<Digest>, x: Digest, y: Digest, x': Digest)
    returns (y': Digest)
    requires fn < sn && proof != [] && VerifyFrom(fn, sn, proof, x, y) && IsPowerOfTwo(fn + 1)
    ensures VerifyFrom(fn, sn, proof, x', y')
    decreases fn
  {
    if fn % 2 == 1 {
      assert (fn + 1) / 2 == fn / 2 + 1;
      y' := AnyRootLeadsOn(fn / 2, sn / 2, proof, x, y, x');
    } else {
      ChainAtZero(sn, x, x, x', x', proof);
      y' := Chain(0, sn, x', x', proof).value.second;
    }
  }

  lemma RightPair(tree: seq<Digest>, m: nat, n: nat)
    requires 0 < m < n <= |tree|
    ensures HonestProof(tree[..n], m - 1) != []
    ensures VerifyFrom(m - 1, n - 1, HonestProof(tree[..n], m - 1), TreeHash(tree[..m]), TreeHash(tree[..n]))
  {
    ProofVerifies(tree, m, n);
  }

  /** A pair whose second checkpoint is right has a right first one. */
  lemma PairDown(tree: seq<Digest>, a: Checkpoint, b: Checkpoint)
    requires a.size <= b.size <= |tree| && PairOK(tree, a, b) && Right(tree, b)
    ensures Right(tree, a)
  {
    if 0 < a.size < b.size {
      var row := tree[..b.size];
      RightPair(tree, a.size, b.size);
      RootIsTreeHash(row);
      FromSound(row, a.size, HonestProof(row, a.size - 1), a.hash);
      assert row[..a.size] == tree[..a.size];
      RootIsTreeHash(row[..a.size]);
    }
  }

  /** A pair whose first checkpoint is right and not empty has a right second one; so has every
      pair of different sizes that starts with no power of two. */
  lemma PairUp(tree: seq<Digest>, a: Checkpoint, b: Checkpoint)
    requires 0 < a.size <= b.size <= |tree| && PairOK(tree, a, b)
    requires Right(tree, a) || (a.size < b.size && !IsPowerOfTwo(a.size))
    ensures Right(tree, a) && Right(tree, b)
  {
    if a.size < b.size {
      RightPair(tree, a.size, b.size);
      ProofFixesRoots(a.size - 1, b.size - 1, HonestProof(tree[..b.size], a.size - 1), a.hash, b.hash,
                      TreeHash(tree[..a.size]), TreeHash(tree[..b.size]));
    }
  }

  // ----- when acceptance means that all are right -----

  ghost predicate AllRight(tree: seq<Digest>, cps: seq<Checkpoint>)
    requires Fitting(tree, cps)
  {
    forall i :: 0 <= i < |cps| ==> Right(tree, cps[i])
  }

  predicate SameSizes(a: seq<Checkpoint>, b: seq<Checkpoint>) {
    |a| == |b| && forall i :: 0 <= i < |a| ==> a[i].size == b[i].size
  }

  /** The sizes decide: there are only two checkpoints, or all but the last are empty, or one
      that is smaller than the last but one has a size that is no power of two. */
  predicate Decisive(cps: seq<Checkpoint>)
    requires |cps| >= 2
  {
    |cps| == 2 || cps[|cps| - 2].size == 0
    || exists i :: 0 <= i < |cps| - 2 && 0 < cps[i].size < cps[|cps| - 2].size && !IsPowerOfTwo(cps[i].size)
  }

  lemma {:induction false} AllBelow(tree: seq<Digest>, cps: seq<Checkpoint>, k: nat, i: nat)
    requires Fitting(tree, cps) && PairsOK(tree, cps) && i <= k < |cps| - 1 && Right(tree, cps[k])
    ensures Right(tree, cps[i])
    decreases k
  {
    if i < k {
      assert PairOK(tree, cps[k - 1], cps[k - 1 + 1]);
      PairDown(tree, cps[k - 1], cps[k]);
      AllBelow(tree, cps, k - 1, i);
    }
  }

  lemma {:induction false} AllAbove(tree: seq<Digest>, cps: seq<Checkpoint>, k: nat, i: nat)
    requires Fitting(tree, cps) && PairsOK(tree, cps) && k <= i < |cps| - 1
    requires cps[k].size > 0 && Right(tree, cps[k])
    ensures Right(tree, cps[i])
    decreases i
  {
    if k < i {
      AllAbove(tree, cps, k, i - 1);
      assert PairOK(tree, cps[i - 1], cps[i - 1 + 1]);
      PairUp(tree, cps[i - 1], cps[i]);
    }
  }

  /** The size that is no power of two makes the proof to the next size compute both roots. */
  lemma {:induction false} EdgeIsRight(tree: seq<Digest>, cps: seq<Checkpoint>, i: nat)
    requires Fitting(tree, cps) && PairsOK(tree, cps) && i < |cps| - 2
    requires 0 < cps[i].size < cps[|cps| - 2].size && !IsPowerOfTwo(cps[i].size)
    ensures Right(tree, cps[i])
    decreases |cps| - i
  {
    assert PairOK(tree, cps[i], cps[i + 1]);
    if cps[i].size < cps[i + 1].size {
      PairUp(tree, cps[i], cps[i + 1]);
    } else {
      EdgeIsRight(tree, cps, i + 1);
    }
  }

  lemma DecisiveIsRight(tree: seq<Digest>, cps: seq<Checkpoint>)
    requires Fitting(tree, cps) && Accepted(tree, cps) && Decisive(cps)
    ensures AllRight(tree, cps)
  {
    var last := |cps| - 1;
    assert tree[..|tree|] == tree;
    forall i | 0 <= i < |cps| ensures Right(tree, cps[i]) {
      if i < last {
        if |cps| == 2 {
          assert PairOK(tree, cps[0], cps[0 + 1]);
          PairDown(tree, cps[0], cps[1]);
        } else if cps[last - 1].size > 0 {
          var j :| 0 <= j < |cps| - 2 && 0 < cps[j].size < cps[|cps| - 2].size && !IsPowerOfTwo(cps[j].size);
          EdgeIsRight(tree, cps, j);
          if i <= j { AllBelow(tree, cps, j, i); } else { AllAbove(tree, cps, j, i); }
        }
      }
    }
  }

  // ----- and when it does not -----

  /** The sizes 1, 2 and 3: whatever the first hash, there is a second one that is accepted. */
  lemma WrongPairAccepted(tree: seq<Digest>, x: Digest)
    requires |tree| == 3
    ensures var cps := [Checkpoint(1, x), Checkpoint(2, NodeDigest(x, tree[1])), Checkpoint(3, TreeHash(tree))];
            Fitting(tree, cps) && Accepted(tree, cps)
  {
    var row := tree[..2];
    assert HonestPath(row, 0) == [tree[1]] by { assert Carry(row) == [NodeDigest(tree[0], tree[1])]; }
    assert HonestProof(row, 0) == [tree[1]];
    assert [tree[1]][1..] == [];
    assert VerifyFrom(0, 1, [tree[1]], x, NodeDigest(x, tree[1]));
    assert PairOK(tree, Checkpoint(1, x), Checkpoint(2, NodeDigest(x, tree[1])));
  }

  function Other(d: Digest): Digest { if d == NIL_DIGEST then Raw([0]) else NIL_DIGEST }

  /** A hash for the next size that passes with a wrong one before it, and is wrong as well. */
  lemma NextWrong(tree: seq<Digest>, a: Checkpoint, size: nat) returns (b: Checkpoint)
    requires a.size <= size <= |tree| && (a.size > 0 ==> !Right(tree, a))
    requires 0 < a.size < size ==> IsPowerOfTwo(a.size)
    ensures b.size == size && PairOK(tree, a, b) && (size > 0 ==> !Right(tree, b))
  {
    if a.size == size {
      b := a;
    } else if a.size == 0 {
      b := Checkpoint(size, Other(TreeHash(tree[..size])));
    } else {
      b := AcceptedNext(tree, a, size);
      if Right(tree, b) { PairDown(tree, a, b); }
    }
  }

  lemma AcceptedNext(tree: seq<Digest>, a: Checkpoint, size: nat) returns (b: Checkpoint)
    requires 0 < a.size < size <= |tree| && IsPowerOfTwo(a.size)
    ensures b.size == size && PairOK(tree, a, b)
  {
    RightPair(tree, a.size, size);
    var y := AnyRootLeadsOn(a.size - 1, size - 1, HonestProof(tree[..size], a.size - 1), TreeHash(tree[..a.size]),
                            TreeHash(tree[..size]), a.hash);
    b := Checkpoint(size, y);
  }

  /** The first n checkpoints, with wrong hashes throughout. */
  ghost predicate Wrong(tree: seq<Digest>, cps: seq<Checkpoint>, n: nat, c: seq<Checkpoint>)
    requires Fitting(tree, cps) && n <= |cps|
  {
    SameSizes(c, cps[..n]) && (forall i :: 0 <= i < n && cps[i].size > 0 ==> !Right(tree, c[i]))
    && forall k :: 0 <= k < n - 1 ==> PairOK(tree, c[k], c[k + 1])
  }

  lemma {:induction false} WrongOnes(tree: seq<Digest>, cps: seq<Checkpoint>, n: nat) returns (c: seq<Checkpoint>)
    requires Fitting(tree, cps) && !Decisive(cps) && 0 < n < |cps|
    ensures Wrong(tree, cps, n, c)
    decreases n
  {
    var size := cps[n - 1].size;
    if n == 1 {
      var first := if size == 0 then cps[0] else Checkpoint(size, Other(TreeHash(tree[..size])));
      c := [first];
    } else {
      var init := WrongOnes(tree, cps, n - 1);
      var b := NextWrong(tree, init[n - 2], size);
      c := init + [b];
      forall k | 0 <= k < n - 1 ensures PairOK(tree, c[k], c[k + 1]) {
        if k < n - 2 { assert PairOK(tree, init[k], init[k + 1]); }
      }
    }
  }

  lemma WrongAccepted(tree: seq<Digest>, cps: seq<Checkpoint>) returns (c: seq<Checkpoint>)
    requires Fitting(tree, cps) && !Decisive(cps)
    ensures SameSizes(c, cps) && Fitting(tree, c) && Accepted(tree, c) && !AllRight(tree, c)
  {
    var n := |cps| - 1;
    var w := WrongOnes(tree, cps, n);
    c := w + [Checkpoint(|tree|, RootOf(tree))];
    assert SameSizes(c, cps);
    forall k | 0 <= k < n && Compared(|c|, k) ensures PairOK(tree, c[k], c[k + 1]) {
      assert PairOK(tree, w[k], w[k + 1]);
    }
    assert !Right(tree, c[n - 1]);
  }

  /** For given sizes: whatever hashes are accepted are those of the tree, exactly if the sizes
      decide. */
  lemma WhenAcceptedIsRight(tree: seq<Digest>, cps: seq<Checkpoint>)
    requires Fitting(tree, cps)
    ensures (forall c :: SameSizes(c, cps) && Fitting(tree, c) && Accepted(tree, c) ==> AllRight(tree, c))
       <==> Decisive(cps)
  {
    if Decisive(cps) {
      forall c | SameSizes(c, cps) && Fitting(tree, c) && Accepted(tree, c) ensures AllRight(tree, c) {
        DecisiveIsRight(tree, c);
      }
    } else {
      var c := WrongAccepted(tree, cps);
    }
  }
}
