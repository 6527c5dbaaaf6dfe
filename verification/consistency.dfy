/** Consistency proofs between two tree heads, verified as section 2.1.4.2 of RFC 9162
    prescribes, and why the verifier can be trusted with arbitrary proof hashes. */
module Consistency {
  import opened Merkle
  import opened CompactRange

  datatype Roots = Roots(first: Digest, second: Digest)

  /** Steps 6 and 7: climb the rows of both trees at once.  `fn` is the last node of the
      first tree on this row and `sn` the last node of the second; `fr` and `sr` are the
      values of node `fn` in the two trees. */
  function Chain(fn: nat, sn: nat, fr: Digest, sr: Digest, path: seq<Digest>): Option<Roots>
    requires fn <= sn
    decreases sn
  {
    if sn == 0 then
      if path == [] then Some(Roots(fr, sr)) else None
    else if fn % 2 == 0 && fn == sn then
      Chain(fn / 2, sn / 2, fr, sr, path)
    else if path == [] then
      None
    else if fn % 2 == 1 then
      Chain(fn / 2, sn / 2, NodeDigest(path[0], fr), NodeDigest(path[0], sr), path[1..])
    else
      Chain(fn / 2, sn / 2, fr, NodeDigest(sr, path[0]), path[1..])
  }

  /** Steps 4 and 5: rows on which the first tree ends with a right child are skipped.  A
      first tree of a power of two leaves is itself the start of the path (step 2). */
  predicate VerifyFrom(fn: nat, sn: nat, proof: seq<Digest>, root1: Digest, root2: Digest)
    requires fn < sn && proof != []
    decreases fn
  {
    if fn % 2 == 1 then VerifyFrom(fn / 2, sn / 2, proof, root1, root2)
    else if fn == 0 then Chain(fn, sn, root1, root1, proof) == Some(Roots(root1, root2))
    else Chain(fn, sn, proof[0], proof[0], proof[1..]) == Some(Roots(root1, root2))
  }

  /** Is the tree of `size2` leaves with root `root2` an extension of the tree of `size1`
      leaves with root `root1`?  A proof from the empty tree must be empty. */
  predicate VerifyConsistency(size1: nat, size2: nat, proof: seq<Digest>, root1: Digest, root2: Digest) {
    if size2 < size1 then false
    else if size1 == size2 then proof == [] && root1 == root2
    else if size1 == 0 then proof == []
    else if proof == [] then false
    else VerifyFrom(size1 - 1, size2 - 1, proof, root1, root2)
  }

  /** One row up, a tree that stops at node fn with the value `fr` there. */
  lemma RootStep(row: seq<Digest>, fn: nat, fr: Digest)
    requires fn < |row|
    ensures Root(row[..fn] + [fr])
         == Root(Carry(row)[..fn / 2] + [if fn % 2 == 1 then NodeDigest(row[fn - 1], fr) else fr])
  {
    var first := row[..fn] + [fr];
    RootOfCarry(first);
    assert Carry(first) == Carry(row)[..fn / 2] + [if fn % 2 == 1 then NodeDigest(row[fn - 1], fr) else fr];
  }

  // ----- soundness -----

  /** Whatever the path, a chain that ends in the root of `row` started from node fn of
      `row`, and its other end is the root of the tree that stops at fn. */
  lemma {:induction false} ChainSound(row: seq<Digest>, fn: nat, fr: Digest, sr: Digest, path: seq<Digest>)
    requires fn < |row|
    requires var r := Chain(fn, |row| - 1, fr, sr, path); r.Some? && r.value.second == Root(row)
    ensures sr == row[fn]
    ensures Chain(fn, |row| - 1, fr, sr, path).value.first == Root(row[..fn] + [fr])
    decreases |row|
  {
    if |row| > 1 {
      var up, k := Carry(row), fn / 2;
      RootStep(row, fn, fr);
      CarryUp(row, fn);
      if fn % 2 == 0 && fn == |row| - 1 {
        ChainSound(up, k, fr, sr, path);
      } else if fn % 2 == 1 {
        ChainSound(up, k, NodeDigest(path[0], fr), NodeDigest(path[0], sr), path[1..]);
      } else {
        ChainSound(up, k, fr, NodeDigest(sr, path[0]), path[1..]);
      }
    }
  }

  /** The parent of node fn, in a row that does not end the tree. */
  lemma CarryUp(row: seq<Digest>, fn: nat)
    requires fn < |row| && |row| > 1
    ensures |Carry(row)| < |row| && (|row| - 1) / 2 == |Carry(row)| - 1 && Root(Carry(row)) == Root(row)
    ensures Carry(row)[fn / 2] == if fn % 2 == 1 then NodeDigest(row[fn - 1], row[fn])
                                  else if fn == |row| - 1 then row[fn] else NodeDigest(row[fn], row[fn + 1])
  {
    RootOfCarry(row);
  }

  lemma ChainFromNode(row: seq<Digest>, n: nat, seed: Digest, path: seq<Digest>, root1: Digest)
    requires 0 < n <= |row| && Chain(n - 1, |row| - 1, seed, seed, path) == Some(Roots(root1, Root(row)))
    ensures Root(row[..n]) == root1
  {
    ChainSound(row, n - 1, seed, seed, path);
    assert row[..n] == row[..n - 1] + [seed];
  }

  /** A row on which the first n nodes of both trees are whole pairs can be skipped. */
  lemma SkipRow(row: seq<Digest>, n: nat)
    requires 0 < n < |row| && n % 2 == 0
    ensures n / 2 < |Carry(row)| && (|row| - 1) / 2 == |Carry(row)| - 1
    ensures Root(Carry(row)) == Root(row) && Root(Carry(row)[..n / 2]) == Root(row[..n])
  {
    RootOfCarry(row[..n]);
    assert Carry(row[..n]) == Carry(row)[..n / 2];
  }

  /** An accepted proof forces the first n nodes of the row. */
  lemma {:induction false} FromSound(row: seq<Digest>, n: nat, proof: seq<Digest>, root1: Digest)
    requires 0 < n < |row| && proof != [] && VerifyFrom(n - 1, |row| - 1, proof, root1, Root(row))
    ensures Root(row[..n]) == root1
    decreases n
  {
    if n % 2 == 0 {
      SkipRow(row, n);
      assert (n - 1) / 2 == n / 2 - 1;
      FromSound(Carry(row), n / 2, proof, root1);
    } else if n == 1 {
      ChainFromNode(row, n, root1, proof, root1);
    } else {
      ChainFromNode(row, n, proof[0], proof[1..], root1);
    }
  }

  /** An accepted proof, whoever made it, shows that every log with the second root starts
      with a log that has the first root. */
  lemma ConsistencySound(size1: nat, size2: nat, proof: seq<Digest>, root1: Digest, root2: Digest, log: seq<Bytes>)
    requires 0 < size1 < size2 && VerifyConsistency(size1, size2, proof, root1, root2)
    requires |log| == size2 && Mth(log) == root2
    ensures Mth(log[..size1]) == root1
  {
    MthIsRoot(log);
    PrefixIsRoot(log, size1);
    FromSound(LeafDigests(log), size1, proof, root1);
  }

  lemma MthIsRoot(log: seq<Bytes>)
    requires log != []
    ensures Mth(log) == Root(LeafDigests(log))
  {
    RootIsTreeHash(LeafDigests(log));
  }

  lemma PrefixIsRoot(log: seq<Bytes>, n: nat)
    requires 0 < n <= |log|
    ensures Mth(log[..n]) == Root(LeafDigests(log)[..n])
  {
    assert LeafDigests(log[..n]) == LeafDigests(log)[..n];
    MthIsRoot(log[..n]);
  }

  // ----- completeness -----

  /** The siblings an honest prover sends from row `row` upwards. */
  function HonestPath(row: seq<Digest>, fn: nat): seq<Digest>
    requires fn < |row|
    decreases |row|
  {
    if |row| == 1 then []
    else if fn % 2 == 0 && fn == |row| - 1 then HonestPath(Carry(row), fn / 2)
    else if fn % 2 == 1 then [row[fn - 1]] + HonestPath(Carry(row), fn / 2)
    else [row[fn + 1]] + HonestPath(Carry(row), fn / 2)
  }

  /** One step of the chain along an honest path. */
  lemma HonestStep(row: seq<Digest>, fn: nat, fr: Digest)
    requires fn < |row| && |row| > 1
    ensures Chain(fn, |row| - 1, fr, row[fn], HonestPath(row, fn))
         == Chain(fn / 2, |Carry(row)| - 1, if fn % 2 == 1 then NodeDigest(row[fn - 1], fr) else fr,
                  Carry(row)[fn / 2], HonestPath(Carry(row), fn / 2))
  {
    CarryUp(row, fn);
    var path, rest := HonestPath(row, fn), HonestPath(Carry(row), fn / 2);
    if fn % 2 == 1 {
      assert path == [row[fn - 1]] + rest && path[1..] == rest;
    } else if fn < |row| - 1 {
      assert path == [row[fn + 1]] + rest && path[1..] == rest;
    }
  }

  lemma {:induction false} ChainComplete(row: seq<Digest>, fn: nat, fr: Digest)
    requires fn < |row|
    ensures Chain(fn, |row| - 1, fr, row[fn], HonestPath(row, fn)) == Some(Roots(Root(row[..fn] + [fr]), Root(row)))
    decreases |row|
  {
    if |row| == 1 {
      assert row[..fn] + [fr] == [fr];
    } else {
      HonestStep(row, fn, fr);
      RootStep(row, fn, fr);
      ChainComplete(Carry(row), fn / 2, if fn % 2 == 1 then NodeDigest(row[fn - 1], fr) else fr);
    }
  }

  lemma ChainToRoots(row: seq<Digest>, n: nat)
    requires 0 < n < |row|
    ensures Chain(n - 1, |row| - 1, row[n - 1], row[n - 1], HonestPath(row, n - 1))
         == Some(Roots(Root(row[..n]), Root(row)))
  {
    assert row[..n] == row[..n - 1] + [row[n - 1]];
    ChainComplete(row, n - 1, row[n - 1]);
  }

  lemma FirstNodePath(row: seq<Digest>)
    requires |row| > 1
    ensures HonestPath(row, 0) != [] && Root(row[..1]) == row[0]
  {
    assert row[..1] == [row[0]];
  }

  /** The proof an honest prover sends: the rows that are skipped, then the node at which the
      two trees part, unless it is the whole first tree, and the siblings. */
  function HonestProof(row: seq<Digest>, fn: nat): seq<Digest>
    requires fn < |row|
    decreases fn
  {
    if fn % 2 == 1 then HonestProof(Carry(row), fn / 2)
    else if fn == 0 then HonestPath(row, fn)
    else [row[fn]] + HonestPath(row, fn)
  }

  lemma {:induction false} FromComplete(row: seq<Digest>, n: nat)
    requires 0 < n < |row|
    ensures var proof := HonestProof(row, n - 1);
            proof != [] && VerifyFrom(n - 1, |row| - 1, proof, Root(row[..n]), Root(row))
    decreases n
  {
    if n % 2 == 0 {
      SkipRow(row, n);
      assert (n - 1) / 2 == n / 2 - 1;
      FromComplete(Carry(row), n / 2);
    } else {
      EvenComplete(row, n);
    }
  }

  lemma EvenComplete(row: seq<Digest>, n: nat)
    requires 0 < n < |row| && n % 2 == 1
    ensures var proof := HonestProof(row, n - 1);
            proof != [] && VerifyFrom(n - 1, |row| - 1, proof, Root(row[..n]), Root(row))
  {
    ChainToRoots(row, n);
    FirstNodePath(row);
    if n > 1 { assert HonestProof(row, n - 1)[1..] == HonestPath(row, n - 1); }
  }

  /** The honest proof is accepted. */
  lemma RowComplete(row: seq<Digest>, n: nat)
    requires 0 < n < |row|
    ensures VerifyConsistency(n, |row|, HonestProof(row, n - 1), Root(row[..n]), Root(row))
  {
    FromComplete(row, n);
  }

  /** For every extension of a log there is a proof that is accepted. */
  lemma ConsistencyComplete(log: seq<Bytes>, size1: nat) returns (proof: seq<Digest>)
    requires 0 < size1 < |log|
    ensures VerifyConsistency(size1, |log|, proof, Mth(log[..size1]), Mth(log))
  {
    RowComplete(LeafDigests(log), size1);
    proof := HonestProof(LeafDigests(log), size1 - 1);
    MthIsRoot(log);
    PrefixIsRoot(log, size1);
  }
}
