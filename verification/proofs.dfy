/** Consistency proofs built from tiles: the nodes of the proof are read through the node
    cache, and the one node on the right border that may be imperfect is put together from
    perfect ones.  A witness that follows the log with consistency proofs accepts them. */
module TileProofs {
  import opened Merkle
  import opened CompactRange
  import opened Consistency
  import opened Layout
  import opened TileStore
  import opened Witness
  import opened Client
  import opened Persistence

  // ----- the imperfect last node of a row -----

  /** The perfect nodes below the last node `rows` rows up, from left to right, when n is the
      number of nodes of the row at `level`. */
  function BorderIds(level: nat, n: nat, rows: nat): seq<NodeId>
    decreases rows
  {
    if rows == 0 then [] else BorderIds(level + 1, n / 2, rows - 1) + if n % 2 == 1 then [NodeId(level, n - 1)] else []
  }

  function BorderHashes(row: seq<Digest>, n: nat, rows: nat): seq<Digest>
    requires n <= |row|
    decreases rows
  {
    if rows == 0 then [] else BorderHashes(Lift(row), n / 2, rows - 1) + if n % 2 == 1 then [row[n - 1]] else []
  }

  /** Hash the nodes from right to left. */
  function Rehash(hashes: seq<Digest>): Digest
    requires hashes != []
  {
    if |hashes| == 1 then hashes[0] else NodeDigest(hashes[0], Rehash(hashes[1..]))
  }

  lemma {:induction false} RehashLast(a: seq<Digest>, x: Digest, y: Digest)
    ensures Rehash(a + [x] + [y]) == Rehash(a + [NodeDigest(x, y)])
    decreases |a|
  {
    if a == [] {
      assert ([] + [x] + [y])[1..] == [y];
    } else {
      assert (a + [x] + [y])[1..] == a[1..] + [x] + [y];
      assert (a + [NodeDigest(x, y)])[1..] == a[1..] + [NodeDigest(x, y)];
      RehashLast(a[1..], x, y);
    }
  }

  /** With a last leaf x after n others. */
  lemma {:induction false} RehashWith(row: seq<Digest>, n: nat, x: Digest, rows: nat)
    requires n <= |row|
    ensures |CarryN(row[..n] + [x], rows)| == Shr(n, rows) + 1
    ensures Rehash(BorderHashes(row, n, rows) + [x]) == CarryN(row[..n] + [x], rows)[Shr(n, rows)]
    decreases rows
  {
    if rows > 0 {
      var up, tree := Lift(row), row[..n] + [x];
      var below := BorderHashes(up, n / 2, rows - 1);
      if n % 2 == 0 {
        CarryWith(row, n, x);
        RehashWith(up, n / 2, x, rows - 1);
        assert BorderHashes(row, n, rows) == below;
      } else {
        var p := NodeDigest(row[n - 1], x);
        CarryWith(row, n, x);
        RehashWith(up, n / 2, p, rows - 1);
        assert BorderHashes(row, n, rows) == below + [row[n - 1]];
        RehashLast(below, row[n - 1], x);
      }
    }
  }

  /** The imperfect last node of a row is the hash of the perfect nodes below it. */
  lemma {:induction false} RehashBorder(row: seq<Digest>, n: nat, rows: nat)
    requires n <= |row| && |CarryN(row[..n], rows)| > Shr(n, rows)
    ensures |CarryN(row[..n], rows)| == Shr(n, rows) + 1 && BorderHashes(row, n, rows) != []
    ensures Rehash(BorderHashes(row, n, rows)) == CarryN(row[..n], rows)[Shr(n, rows)]
    decreases rows
  {
    if rows > 0 {
      var up, tree := Lift(row), row[..n];
      if n % 2 == 0 {
        CarryFirst(row, n);
        RehashBorder(up, n / 2, rows - 1);
        assert BorderHashes(row, n, rows) == BorderHashes(up, n / 2, rows - 1);
      } else {
        CarryFirst(row, n);
        RehashWith(up, n / 2, row[n - 1], rows - 1);
      }
    }
  }

  /** The border nodes are perfect nodes with these hashes. */
  lemma {:induction false} BorderMatches(level: nat, row: seq<Digest>, n: nat, rows: nat)
    requires n <= |row|
    ensures Matches(level, row[..n], BorderIds(level, n, rows), BorderHashes(row, n, rows))
    decreases rows
  {
    if rows > 0 {
      var up := Lift(row);
      BorderMatches(level + 1, up, n / 2, rows - 1);
      assert Lift(row[..n]) == up[..n / 2];
      var ids, hashes := BorderIds(level + 1, n / 2, rows - 1), BorderHashes(up, n / 2, rows - 1);
      MatchesDown(level, row[..n], ids, hashes);
      if n % 2 == 1 { MatchesConcat(level, row[..n], ids, hashes, [NodeId(level, n - 1)], [row[n - 1]]); }
    }
  }

  // ----- reading nodes -----

  /** A node cache over correct tiles of a tree of at least n leaves, which remembers exactly the
      imperfect nodes of that tree. */
  ghost predicate Usable(ephemeral: map<NodeId, Digest>, getTile: GetTileFunc, row: seq<Digest>, n: nat) {
    exists size: nat :: n <= size <= |row| && CorrectTiles(getTile, row, size) && TrueEphemerals(ephemeral, row, size)
  }

  /** Read a list of nodes. */
  method FetchNodes(cache: NodeCache, ids: seq<NodeId>, ghost row: seq<Digest>, ghost n: nat, ghost want: seq<Digest>)
    returns (hashes: Option<seq<Digest>>)
    requires cache.Valid() && n <= |row| && Matches(0, row[..n], ids, want)
    modifies cache`tiles
    ensures cache.Valid() && cache.ephemeral == old(cache.ephemeral)
    ensures hashes.Some? ==> |hashes.value| == |ids|
    ensures Usable(cache.ephemeral, cache.getTile, row, n) ==> hashes == Some(want)
  {
    var ret: seq<Digest> := [];
    for i := 0 to |ids|
      invariant cache.Valid() && |ret| == i
      invariant Usable(cache.ephemeral, cache.getTile, row, n) ==> ret == want[..i]
    {
      if Usable(cache.ephemeral, cache.getTile, row, n) {
        PerfectLookup(cache.ephemeral, cache.getTile, row, n, ids[i], want[i]);
      }
      var h := cache.GetNode(ids[i]);
      if h.None? { return None; }
      ret := ret + [h.value];
    }
    assert want[..|ids|] == want;
    return Some(ret);
  }

  /** Perfect nodes of the smaller tree are perfect in the larger one, so they are read from tiles. */
  lemma PerfectLookup(ephemeral: map<NodeId, Digest>, getTile: GetTileFunc, row: seq<Digest>, n: nat, id: NodeId,
                      h: Digest)
    requires n <= |row| && Usable(ephemeral, getTile, row, n) && HonestVisit(0, row[..n], Visit(id, h))
    ensures LookupNode(ephemeral, getTile, id) == Some(h)
  {
    var size: nat :| n <= size <= |row| && CorrectTiles(getTile, row, size) && TrueEphemerals(ephemeral, row, size);
    ShrMonotone(n, size, id.level);
    LookupAgreesWithTree(ephemeral, getTile, row, size, id);
    PerfectInTree(row[..size], id.level, id.index);
    NodeAtPrefix(row, n, id.level, id.index);
    NodeAtPrefix(row, size, id.level, id.index);
  }

  /** The hash of any node of a row of the tree: a perfect node is read, the last node, if it
      is imperfect, is put together. */
  method FetchTreeNode(cache: NodeCache, level: nat, index: nat, n: nat, ghost row: seq<Digest>)
    returns (h: Option<Digest>)
    requires cache.Valid() && n <= |row| && index < |CarryN(row[..n], level)|
    modifies cache`tiles
    ensures cache.Valid() && cache.ephemeral == old(cache.ephemeral)
    ensures Usable(cache.ephemeral, cache.getTile, row, n) ==> h == Some(CarryN(row[..n], level)[index])
  {
    if index < Shr(n, level) {
      ghost var want := NodeAt(row[..n], level, index);
      PerfectInTree(row[..n], level, index);
      assert HonestVisit(0, row[..n], Visit(NodeId(level, index), want));
      var hs := FetchNodes(cache, [NodeId(level, index)], row, n, [want]);
      if hs.None? { return None; }
      return Some(hs.value[0]);
    }
    RehashBorder(row, n, level);
    BorderMatches(0, row, n, level);
    var hs := FetchNodes(cache, BorderIds(0, n, level), row, n, BorderHashes(row, n, level));
    if hs.None? { return None; }
    return Some(Rehash(hs.value));
  }

  // ----- the proof -----

  lemma {:induction false} CarryUpN(row: seq<Digest>, level: nat)
    ensures CarryN(row, level + 1) == Carry(CarryN(row, level))
    decreases level
  {
    if level > 0 { CarryUpN(Carry(row), level - 1); }
  }

  /** The rows on which the first tree ends with a right child need no node. */
  method SkipRows(m: nat, ghost tree: seq<Digest>) returns (level: nat, fn: nat)
    requires 0 < m < |tree|
    ensures fn % 2 == 0 && fn + 1 < |CarryN(tree, level)|
    ensures HonestProof(CarryN(tree, level), fn) == HonestProof(tree, m - 1)
  {
    level, fn := 0, m - 1;
    while fn % 2 == 1
      invariant fn + 1 < |CarryN(tree, level)|
      invariant HonestProof(CarryN(tree, level), fn) == HonestProof(tree, m - 1)
      decreases fn
    {
      CarryUpN(tree, level);
      level, fn := level + 1, fn / 2;
    }
  }

  /** What a row contributes to the path: the sibling of the node, if it has one. */
  function Sibling(tree: seq<Digest>, i: nat): seq<Digest>
    requires i < |tree|
  {
    if i % 2 == 1 then [tree[i - 1]] else if i < |tree| - 1 then [tree[i + 1]] else []
  }

  lemma PathStep(tree: seq<Digest>, i: nat, ret: seq<Digest>)
    requires i < |tree| && |tree| > 1
    ensures |Carry(tree)| - 1 == (|tree| - 1) / 2 && i / 2 < |Carry(tree)|
    ensures ret + HonestPath(tree, i) == ret + Sibling(tree, i) + HonestPath(Carry(tree), i / 2)
  {
    PathUnfolds(tree, i);
    ConcatAssociates(ret, Sibling(tree, i), HonestPath(Carry(tree), i / 2));
  }

  lemma PathUnfolds(tree: seq<Digest>, i: nat)
    requires i < |tree| && |tree| > 1
    ensures i / 2 < |Carry(tree)| && HonestPath(tree, i) == Sibling(tree, i) + HonestPath(Carry(tree), i / 2)
  {
  }

  lemma ConcatAssociates(a: seq<Digest>, b: seq<Digest>, c: seq<Digest>)
    ensures a + (b + c) == a + b + c
  {
  }

  method FetchSibling(cache: NodeCache, level: nat, i: nat, sn: nat, n: nat, ghost row: seq<Digest>)
    returns (r: Option<seq<Digest>>)
    requires cache.Valid() && n <= |row| && i <= sn && |CarryN(row[..n], level)| == sn + 1
    modifies cache`tiles
    ensures cache.Valid() && cache.ephemeral == old(cache.ephemeral)
    ensures Usable(cache.ephemeral, cache.getTile, row, n) ==> r == Some(Sibling(CarryN(row[..n], level), i))
  {
    if i % 2 == 0 && i == sn { return Some([]); }
    var h := FetchTreeNode(cache, level, if i % 2 == 1 then i - 1 else i + 1, n, row);
    return if h.None? then None else Some([h.value]);
  }

  /** The siblings on the way up, each read or put together. */
  method FetchPath(cache: NodeCache, level: nat, fn: nat, n: nat, ghost row: seq<Digest>)
    returns (path: Option<seq<Digest>>)
    requires cache.Valid() && 0 < n <= |row| && fn < |CarryN(row[..n], level)|
    modifies cache`tiles
    ensures cache.Valid() && cache.ephemeral == old(cache.ephemeral)
    ensures Usable(cache.ephemeral, cache.getTile, row, n) ==> path == Some(HonestPath(CarryN(row[..n], level), fn))
  {
    RowLength(row[..n], level);
    ghost var cur, usable := CarryN(row[..n], level), Usable(cache.ephemeral, cache.getTile, row, n);
    ghost var whole := HonestPath(cur, fn);
    var l, i, sn, ret := level, fn, Shr(n - 1, level), [];
    while sn > 0
      invariant cache.Valid() && cache.ephemeral == old(cache.ephemeral)
      invariant cur == CarryN(row[..n], l) && |cur| == sn + 1 && i <= sn
      invariant usable ==> ret + HonestPath(cur, i) == whole
      decreases sn
    {
      var h := FetchSibling(cache, l, i, sn, n, row);
      if h.None? { return None; }
      PathStep(cur, i, ret);
      CarryUpN(row[..n], l);
      ret := ret + h.value;
      l, i, sn, cur := l + 1, i / 2, sn / 2, Carry(cur);
    }
    assert HonestPath(cur, i) == [] && ret + [] == ret;
    return Some(ret);
  }

  /** The index of the last node of a row of the tree of n leaves is that of its last leaf,
      shifted. */
  lemma {:induction false} RowLength(tree: seq<Digest>, level: nat)
    requires tree != []
    ensures |CarryN(tree, level)| == Shr(|tree| - 1, level) + 1
    decreases level
  {
    if level > 0 {
      assert |Carry(tree)| - 1 == (|tree| - 1) / 2;
      RowLength(Carry(tree), level - 1);
    }
  }

  /** The node at which the trees part, unless it is the whole first tree. */
  method FetchFirst(cache: NodeCache, level: nat, fn: nat, n: nat, ghost row: seq<Digest>)
    returns (r: Option<seq<Digest>>)
    requires cache.Valid() && n <= |row| && fn < |CarryN(row[..n], level)|
    modifies cache`tiles
    ensures cache.Valid() && cache.ephemeral == old(cache.ephemeral)
    ensures Usable(cache.ephemeral, cache.getTile, row, n) ==>
              r == Some(if fn == 0 then [] else [CarryN(row[..n], level)[fn]])
  {
    if fn == 0 { return Some([]); }
    var h := FetchTreeNode(cache, level, fn, n, row);
    return if h.None? then None else Some([h.value]);
  }

  lemma EvenProof(row: seq<Digest>, fn: nat)
    requires fn < |row| && fn % 2 == 0
    ensures HonestProof(row, fn) == (if fn == 0 then [] else [row[fn]]) + HonestPath(row, fn)
  {
  }

  /** A consistency proof between the trees of m and n leaves, built from tiles of any tree of at
      least n leaves. */
  method ConsistencyProof(cache: NodeCache, m: nat, n: nat, ghost row: seq<Digest>) returns (proof: Option<seq<Digest>>)
    requires cache.Valid() && n <= |row|
    modifies cache`tiles
    ensures Usable(cache.ephemeral, cache.getTile, row, n) ==> (proof.Some? <==> m <= n)
    ensures Usable(cache.ephemeral, cache.getTile, row, n) && 0 < m <= n ==>
              VerifyConsistency(m, n, proof.value, TreeHash(row[..m]), TreeHash(row[..n]))
              && (m < n ==> proof.value == HonestProof(row[..n], m - 1))
    ensures m == 0 ==> proof == Some([])
    ensures cache.Valid() && cache.ephemeral == old(cache.ephemeral)
  {
    if m > n { return None; }
    if m == n || m == 0 { return Some([]); }
    var level, fn := SkipRows(m, row[..n]);
    var first := FetchFirst(cache, level, fn, n, row);
    if first.None? { return None; }
    var path := FetchPath(cache, level, fn, n, row);
    if path.None? { return None; }
    EvenProof(CarryN(row[..n], level), fn);
    ProofVerifies(row, m, n);
    return Some(first.value + path.value);
  }

  lemma ProofVerifies(row: seq<Digest>, m: nat, n: nat)
    requires 0 < m < n <= |row|
    ensures VerifyConsistency(m, n, HonestProof(row[..n], m - 1), TreeHash(row[..m]), TreeHash(row[..n]))
  {
    var tree := row[..n];
    assert tree[..m] == row[..m];
    RowComplete(tree, m);
    RootIsTreeHash(row[..m]);
    RootIsTreeHash(tree);
  }

  // ----- feeding a witness -----

  /** What the feeder of a tiled log sends along: nothing to a witness that has no checkpoint,
      and otherwise a proof from its checkpoint. */
  method FetchProof(from: Checkpoint, to: Checkpoint, getTile: GetTileFunc, ghost row: seq<Digest>)
    returns (proof: Option<seq<Digest>>)
    requires to.size <= |row|
    ensures from.size == 0 ==> proof == Some([])
    ensures CorrectTiles(getTile, row, to.size) && 0 < from.size <= to.size && to.hash == TreeHash(row[..to.size]) ==>
              proof.Some? && VerifyConsistency(from.size, to.size, proof.value, TreeHash(row[..from.size]), to.hash)
  {
    if from.size == 0 { return Some([]); }
    var pb := NewProofBuilder(to, getTile, row);
    if pb.None? { return None; }
    if CorrectTiles(getTile, row, to.size) { BuilderIsUsable(pb.value.ephemeral, getTile, row, to.size); }
    proof := ConsistencyProof(pb.value, from.size, to.size, row);
  }

  lemma BuilderIsUsable(ephemeral: map<NodeId, Digest>, getTile: GetTileFunc, row: seq<Digest>, size: nat)
    requires size <= |row| && CorrectTiles(getTile, row, size) && TrueEphemerals(ephemeral, row, size)
    ensures Usable(ephemeral, getTile, row, size)
  {
  }

  /** The note is a checkpoint of a prefix of the log. */
  ghost predicate HoldsPrefix(info: LogInfo, note: Note, log: seq<Bytes>) {
    var cp := Parse(info, note);
    cp.Some? && cp.value.size <= |log| && (cp.value.size > 0 ==> cp.value.hash == Mth(log[..cp.value.size]))
  }

  /** The checkpoint is that of a log whose tiles are right, and the witness, which takes
      consistency proofs for it, has none yet or one of a prefix. */
  ghost predicate Feedable(cfg: Config, id: LogId, raw: Note, getTile: GetTileFunc, log: seq<Bytes>,
                           held: Option<Stored>) {
    id in cfg.logs && !cfg.logs[id].useCompact && log != []
    && Parse(cfg.logs[id], raw) == Some(Checkpoint(|log|, Mth(log))) && CorrectTiles(getTile, LeafDigests(log), |log|)
    && (held.Some? ==> HoldsPrefix(cfg.logs[id], held.value.chkpt, log))
  }

  /** An accepted proof makes the witness cosign. */
  lemma ProofIsAccepted(cfg: Config, id: LogId, raw: Note, getTile: GetTileFunc, log: seq<Bytes>, held: Option<Stored>,
                        proof: seq<Digest>)
    requires Feedable(cfg, id, raw, getTile, log, held)
    requires held.Some? ==>
               var m := Parse(cfg.logs[id], held.value.chkpt).value.size;
               m < |log|
               && if m == 0 then proof == []
                  else VerifyConsistency(m, |log|, proof, TreeHash(LeafDigests(log)[..m]), Mth(log))
    ensures Decide(cfg, id, raw, proof, held) == Store(Stored(Cosign(cfg, raw), []))
  {
    if held.Some? && Parse(cfg.logs[id], held.value.chkpt).value.size > 0 {
      var m := Parse(cfg.logs[id], held.value.chkpt).value.size;
      assert LeafDigests(log[..m]) == LeafDigests(log)[..m];
    }
  }

  /** One round of feeding a checkpoint to a witness that nobody else disturbs.  Correct tiles
      always make it cosign and store the checkpoint, unless it has it already. */
  method FeedOnce(info: LogInfo, cfg: Config, lsp: InMemoryPersistence, id: LogId, raw: Note, getTile: GetTileFunc,
                  ghost log: seq<Bytes>)
    returns (r: Option<Note>)
    modifies lsp
    ensures Feedable(cfg, id, raw, getTile, log, Lookup(old(lsp.checkpoints), id)) && info == cfg.logs[id] ==>
              if id in old(lsp.checkpoints) && Parse(info, old(lsp.checkpoints)[id].chkpt).value.size == |log|
              then r == Some(old(lsp.checkpoints)[id].chkpt) && lsp.checkpoints == old(lsp.checkpoints)
              else r == Some(Cosign(cfg, raw))
                   && lsp.checkpoints == old(lsp.checkpoints)[id := Stored(Cosign(cfg, raw), [])]
    ensures r.None? ==> lsp.checkpoints == old(lsp.checkpoints)
  {
    var cpSubmit := Parse(info, raw);
    if cpSubmit.None? { return None; }
    var to := cpSubmit.value;
    var from := Checkpoint(0, NIL_DIGEST);
    ghost var held := Lookup(lsp.checkpoints, id);
    if id in lsp.checkpoints {
      var latestRaw := lsp.checkpoints[id].chkpt;
      var latest := Parse(info, latestRaw);
      if latest.None? { return None; }
      from := latest.value;
      if from.size > to.size { return None; }
      if from == to { return Some(latestRaw); }
    }
    ghost var row := if to.size == |log| then LeafDigests(log) else seq(to.size, _ => NIL_DIGEST);
    ghost var feedable := Feedable(cfg, id, raw, getTile, log, held) && info == cfg.logs[id];
    if feedable { WholeLog(log, from.size); }
    var proof := FetchProof(from, to, getTile, row);
    if proof.None? { return None; }
    if feedable { ProofIsAccepted(cfg, id, raw, getTile, log, held, proof.value); }
    var reply := Update(cfg, lsp, id, raw, proof.value);
    if reply.err.Some? { return None; }
    return reply.chkpt;
  }

  lemma WholeLog(log: seq<Bytes>, m: nat)
    requires m <= |log| && log != []
    ensures Mth(log) == TreeHash(LeafDigests(log)[..|log|]) && (m == |log| ==> Mth(log[..m]) == Mth(log))
  {
    assert LeafDigests(log)[..|log|] == LeafDigests(log) && log[..|log|] == log;
  }
}
