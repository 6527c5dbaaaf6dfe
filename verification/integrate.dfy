/** Integrating sequenced entries into the tiled log: every perfect node the new entries
    complete is visited once and put into its tile, and the dirty tiles are stored. */
module Integrate {
  import opened Merkle
  import opened CompactRange
  import opened Layout
  import opened TileStore
  import opened Client
  import opened Witness

  // ----- the tile cache -----

  /** The tile with one node set, grown as far as needed. */
  function SetNode(t: Tile, id: NodeId, h: Digest): (t': Tile)
    ensures KeyOf(id) < |t'.nodes| && t'.nodes[KeyOf(id)] == Some(h)
    ensures forall i :: 0 <= i < |t.nodes| && i != KeyOf(id) ==> i < |t'.nodes| && t'.nodes[i] == t.nodes[i]
  {
    var idx := KeyOf(id);
    var nodes := if idx >= |t.nodes| then t.nodes + seq(idx - |t.nodes| + 1, _ => None) else t.nodes;
    var a := NodeCoordsToTileAddress(id.level, id.index);
    Tile(if a.nodeLevel == 0 && a.nodeIndex >= t.numLeaves then a.nodeIndex + 1 else t.numLeaves, nodes[idx := Some(h)])
  }

  /** The tile a visit works on: cached, fetched, or new. */
  function Working(m: map<TileKey, Tile>, getTile: GetTileFunc, k: TileKey): Tile {
    if k in m then m[k] else if getTile(k).Some? then getTile(k).value else Tile(0, [])
  }

  function VisitTile(m: map<TileKey, Tile>, getTile: GetTileFunc, v: Visit): map<TileKey, Tile> {
    m[TileOf(v.id) := SetNode(Working(m, getTile, TileOf(v.id)), v.id, v.digest)]
  }

  function VisitAll(m: map<TileKey, Tile>, getTile: GetTileFunc, visits: seq<Visit>): map<TileKey, Tile> {
    if visits == [] then m
    else VisitTile(VisitAll(m, getTile, visits[..|visits| - 1]), getTile, visits[|visits| - 1])
  }

  /** The dirty tiles of one integration. */
  class TileCache {
    var m: map<TileKey, Tile>
    const getTile: GetTileFunc

    constructor (getTile: GetTileFunc)
      ensures m == map[] && this.getTile == getTile
    {
      m, this.getTile := map[], getTile;
    }

    method Visit(id: NodeId, hash: Digest)
      modifies this
      ensures m == VisitTile(old(m), getTile, CompactRange.Visit(id, hash))
    {
      var k := TileOf(id);
      var tile: Tile;
      if k in m {
        tile := m[k];
      } else {
        var fetched := getTile(k);
        if fetched.Some? { tile := fetched.value; } else { tile := Tile(0, []); }
        m := m[k := tile];
      }
      var idx := KeyOf(id);
      var nodes := tile.nodes;
      if idx >= |nodes| { nodes := nodes + seq(idx - |nodes| + 1, _ => None); }
      nodes := nodes[idx := Some(hash)];
      var a := NodeCoordsToTileAddress(id.level, id.index);
      var numLeaves := tile.numLeaves;
      if a.nodeLevel == 0 && a.nodeIndex >= numLeaves { numLeaves := a.nodeIndex + 1; }
      m := m[k := Tile(numLeaves, nodes)];
    }

    /** Ranges report the nodes they complete to the cache one by one. */
    method VisitEach(visits: seq<Visit>)
      modifies this
      ensures m == VisitAll(old(m), getTile, visits)
    {
      for i := 0 to |visits|
        invariant m == VisitAll(old(m), getTile, visits[..i])
      {
        Visit(visits[i].id, visits[i].digest);
        assert visits[..i + 1][..i] == visits[..i];
      }
      assert visits[..|visits|] == visits;
    }
  }

  lemma {:induction false} VisitAllConcat(m: map<TileKey, Tile>, getTile: GetTileFunc, a: seq<Visit>, b: seq<Visit>)
    ensures VisitAll(m, getTile, a + b) == VisitAll(VisitAll(m, getTile, a), getTile, b)
    decreases |b|
  {
    if b == [] {
      assert a + b == a;
    } else {
      var init := b[..|b| - 1];
      VisitAllConcat(m, getTile, a, init);
      assert (a + b)[..|a + b| - 1] == a + init;
    }
  }

  // ----- what the visits leave in the cache -----

  /** The tiles read for the old size are right, and none is ahead of the new size. */
  ghost predicate FetchOK(getTile: GetTileFunc, row: seq<Digest>, old': nat)
    requires old' <= |row|
  {
    CorrectTiles(getTile, row, old')
    && forall k :: getTile(k).Some? ==> getTile(k).value.numLeaves <= LeavesOf(k, |row|)
  }

  lemma SetNodeHolds(row: seq<Digest>, t: Tile, v: Visit, id: NodeId)
    requires HonestVisit(0, row, v) && id.index < Shr(|row|, id.level) && TileOf(id) == TileOf(v.id)
    requires id == v.id || HoldsNode(row, t, id)
    ensures HoldsNode(row, SetNode(t, v.id, v.digest), id)
  {
    if id != v.id && KeyOf(id) == KeyOf(v.id) { PlacesDiffer(id, v.id); }
  }

  /** Visited nodes are in the cache, and no node of the old tree is lost from a cached tile. */
  lemma {:induction false} VisitedNodesHeld(row: seq<Digest>, old': nat, getTile: GetTileFunc, seen: seq<Visit>,
                                            id: NodeId)
    requires old' <= |row| && FetchOK(getTile, row, old') && HonestVisits(0, row, seen)
             && id.index < Shr(|row|, id.level)
    ensures var m := VisitAll(map[], getTile, seen);
            (Reports(seen, id) ==> TileOf(id) in m)
            && (TileOf(id) in m && (Reports(seen, id) || id.index < Shr(old', id.level)) ==>
                  HoldsNode(row, m[TileOf(id)], id))
    decreases |seen|
  {
    if seen != [] {
      var init, v, k := seen[..|seen| - 1], seen[|seen| - 1], TileOf(id);
      var m := VisitAll(map[], getTile, init);
      VisitedNodesHeld(row, old', getTile, init, id);
      ReportsLast(seen, id);
      assert HonestVisit(0, row, v);
      if TileOf(v.id) == k && (Reports(seen, id) || id.index < Shr(old', id.level)) {
        if id != v.id && k !in m {
          PerfectNodeRead(getTile, row, old', id);
        }
        SetNodeHolds(row, Working(m, getTile, k), v, id);
      }
    }
  }

  lemma ReportsLast(seen: seq<Visit>, id: NodeId)
    requires seen != []
    ensures Reports(seen, id) <==> Reports(seen[..|seen| - 1], id) || seen[|seen| - 1].id == id
  {
    var init, v := seen[..|seen| - 1], seen[|seen| - 1];
    assert seen == init + [v];
    assert forall x :: x in seen <==> x in init || x == v;
  }

  /** A cached tile was visited, and its leaf count does not exceed what exists. */
  lemma {:induction false} CachedTiles(row: seq<Digest>, old': nat, getTile: GetTileFunc, seen: seq<Visit>, k: TileKey)
    requires old' <= |row| && FetchOK(getTile, row, old') && HonestVisits(0, row, seen)
    ensures var m := VisitAll(map[], getTile, seen);
            k in m ==> m[k].numLeaves <= LeavesOf(k, |row|) && exists id :: Reports(seen, id) && TileOf(id) == k
    decreases |seen|
  {
    if seen != [] {
      var init, v := seen[..|seen| - 1], seen[|seen| - 1];
      var m := VisitAll(map[], getTile, init);
      CachedTiles(row, old', getTile, init, k);
      assert HonestVisit(0, row, v);
      ReportsLast(seen, v.id);
      if TileOf(v.id) == k {
        if v.id.level % 8 == 0 { BottomNodeCounted(v.id, |row|); }
      } else if k in m {
        var id :| Reports(init, id) && TileOf(id) == k;
        ReportsLast(seen, id);
      }
    }
  }

  /** The leaf count of a cached tile includes every bottom node visited in it. */
  lemma {:induction false} VisitedLeaves(row: seq<Digest>, old': nat, getTile: GetTileFunc, seen: seq<Visit>,
                                         k: TileKey, x: nat)
    requires old' <= |row| && FetchOK(getTile, row, old') && HonestVisits(0, row, seen)
    requires x < LeavesOf(k, |row|) && Reports(seen, BottomNode(k, x))
    ensures var m := VisitAll(map[], getTile, seen); k in m && x < m[k].numLeaves
    decreases |seen|
  {
    var init, v := seen[..|seen| - 1], seen[|seen| - 1];
    ReportsLast(seen, BottomNode(k, x));
    BottomNodeInTile(k, x, |row|);
    if Reports(init, BottomNode(k, x)) { VisitedLeaves(row, old', getTile, init, k, x); }
  }

  // ----- the dirty tiles -----

  /** The tiles to be stored: exactly those that have gained leaves, each with all its nodes. */
  ghost predicate DirtyTiles(row: seq<Digest>, old': nat, dirty: map<TileKey, Tile>) {
    (forall k :: k in dirty <==> LeavesOf(k, old') < LeavesOf(k, |row|))
    && forall k :: k in dirty ==> dirty[k].numLeaves == LeavesOf(k, |row|) && Complete(row, |row|, k, dirty[k])
  }

  /** The visits are exactly the perfect nodes of the new tree that the old tree lacks. */
  ghost predicate VisitsNewNodes(row: seq<Digest>, old': nat, seen: seq<Visit>) {
    HonestVisits(0, row, seen)
    && forall id: NodeId :: Reports(seen, id) <==> Shr(old', id.level) <= id.index < Shr(|row|, id.level)
  }

  /** A tile that has gained leaves has gained its last one. */
  lemma LastLeafIsNew(k: TileKey, old': nat, n: nat)
    requires LeavesOf(k, old') < LeavesOf(k, n)
    ensures var id := BottomNode(k, LeavesOf(k, n) - 1); Shr(old', id.level) <= id.index < Shr(n, id.level)
  {
    BottomNodeInTile(k, LeavesOf(k, n) - 1, n);
    BottomNodeInTile(k, LeavesOf(k, n) - 1, old');
  }

  lemma VisitsMakeDirtyTiles(row: seq<Digest>, old': nat, getTile: GetTileFunc, seen: seq<Visit>)
    requires old' <= |row| && FetchOK(getTile, row, old') && VisitsNewNodes(row, old', seen)
    ensures DirtyTiles(row, old', VisitAll(map[], getTile, seen))
  {
    var m, n := VisitAll(map[], getTile, seen), |row|;
    forall k | LeavesOf(k, old') < LeavesOf(k, n) ensures k in m && m[k].numLeaves >= LeavesOf(k, n) {
      LastLeafIsNew(k, old', n);
      VisitedLeaves(row, old', getTile, seen, k, LeavesOf(k, n) - 1);
    }
    forall k | k in m ensures LeavesOf(k, old') < LeavesOf(k, n) && m[k].numLeaves <= LeavesOf(k, n) {
      CachedTiles(row, old', getTile, seen, k);
      var id :| Reports(seen, id) && TileOf(id) == k;
      LeavesMonotone(k, old', n);
      if LeavesOf(k, n) <= LeavesOf(k, old') { PerfectByLeaves(id, n, old'); }
    }
    forall k | k in m ensures Complete(row, n, k, m[k]) {
      forall id: NodeId | TileOf(id) == k && id.index < Shr(n, id.level) ensures HoldsNode(row, m[k], id) {
        VisitedNodesHeld(row, old', getTile, seen, id);
      }
    }
  }

  // ----- which nodes the two ranges report -----

  /** Appending the entries from old' on reports the perfect nodes among them. */
  ghost predicate VisitsInside(row: seq<Digest>, old': nat, e: nat, seen: seq<Visit>) {
    HonestVisits(0, row, seen) && forall id: NodeId :: Reports(seen, id) <==> Inside(id.level, id.index, old', e)
  }

  lemma AppendVisitsInside(row: seq<Digest>, old': nat, e: nat, seen: seq<Visit>)
    requires old' <= e < |row| && VisitsInside(row, old', e, seen)
    ensures VisitsInside(row, old', e + 1, seen + AppendVisits(Honest(row, old', e), row[e]))
  {
    var r := Honest(row, old', e);
    var leaf, up := Visit(NodeId(0, e), row[e]), AppendRangeVisits(r, Leaf(e, row[e]));
    SingleHonest(row, e);
    MergeVisitsHonest(0, row, old', e, e + 1);
    assert HonestVisit(0, row, leaf);
    forall id: NodeId ensures Reports(seen + AppendVisits(r, row[e]), id) <==> Inside(id.level, id.index, old', e + 1) {
      MergeReports(0, old', e, e + 1, r.spine, Single(e, row[e]), id);
      ReportsBoth(seen, [leaf] + up, id);
      ReportsBoth([leaf], up, id);
      assert Reports([leaf], id) <==> id == leaf.id;
      InsideSplit(id, old', e, e + 1);
      InsideOneLeaf(id.level, id.index, e);
    }
  }

  lemma InsideSplit(id: NodeId, b: nat, m: nat, e: nat)
    requires b <= m <= e
    ensures Inside(id.level, id.index, b, e)
       <==> Inside(id.level, id.index, b, m) || Inside(id.level, id.index, m, e)
            || Straddles(id.level, id.index, b, m, e)
  {
    if Inside(id.level, id.index, b, m) { InsideMonotone(id.level, id.index, b, m, b, e); }
    if Inside(id.level, id.index, m, e) { InsideMonotone(id.level, id.index, m, e, b, e); }
  }

  /** Merging the new range into the old one reports the rest of the new nodes. */
  lemma MergeVisitsNew(row: seq<Digest>, old': nat, seen: seq<Visit>)
    requires old' <= |row| && VisitsInside(row, old', |row|, seen)
    ensures VisitsNewNodes(row, old', seen + AppendRangeVisits(Honest(row, 0, old'), Honest(row, old', |row|)))
  {
    var n := |row|;
    var a, b := Honest(row, 0, old'), Honest(row, old', n);
    var more := AppendRangeVisits(a, b);
    MergeVisitsHonest(0, row, 0, old', n);
    forall id: NodeId ensures Reports(seen + more, id) <==> Shr(old', id.level) <= id.index < Shr(n, id.level) {
      MergeReports(0, 0, old', n, a.spine, b.spine, id);
      assert Reports(seen + more, id) <==> Reports(seen, id) || Reports(more, id) by { ReportsBoth(seen, more, id); }
      InsideSplit(id, 0, old', n);
      InsideFromZero(id.level, id.index, n);
      InsideFromZero(id.level, id.index, old');
      if Inside(id.level, id.index, 0, old') { InsideDisjoint(id.level, id.index, 0, old', n); }
    }
  }

  lemma ReportsBoth(a: seq<Visit>, b: seq<Visit>, id: NodeId)
    ensures Reports(a + b, id) <==> Reports(a, id) || Reports(b, id)
  {
    var w := a + b;
    assert forall x :: x in w <==> x in a || x in b;
  }

  // ----- visits set the last node -----

  lemma SetNodeBuilds(t: Tile, id: NodeId, h: Digest)
    requires Built(t) && h != NIL_DIGEST
    ensures Built(SetNode(t, id, h))
  {
    Pow2Values();
  }

  /** Every tile built by visits, out of fetched tiles that were built or out of nothing. */
  lemma {:induction false} VisitsBuild(m: map<TileKey, Tile>, getTile: GetTileFunc, visits: seq<Visit>)
    requires forall k :: k in m ==> Built(m[k])
    requires forall k :: getTile(k).Some? ==> Built(getTile(k).value)
    requires forall v :: v in visits ==> v.digest != NIL_DIGEST
    ensures forall k :: k in VisitAll(m, getTile, visits) ==> Built(VisitAll(m, getTile, visits)[k])
    decreases |visits|
  {
    if visits != [] {
      var init, v := visits[..|visits| - 1], visits[|visits| - 1];
      VisitsBuild(m, getTile, init);
      SetNodeBuilds(Working(VisitAll(m, getTile, init), getTile, TileOf(v.id)), v.id, v.digest);
    }
  }

  /** The visits of an integration carry hashes, never the nil digest. */
  lemma HonestVisitsCarryHashes(entries: seq<Bytes>, visits: seq<Visit>)
    requires HonestVisits(0, LeafDigests(entries), visits)
    ensures forall v :: v in visits ==> v.digest != NIL_DIGEST
  {
    forall v | v in visits ensures v.digest != NIL_DIGEST {
      assert HonestVisit(0, LeafDigests(entries), v);
      NodesAreHashes(LeafDigests(entries), v.id.level, v.id.index);
    }
  }

  lemma {:induction false} NodesAreHashes(row: seq<Digest>, level: nat, index: nat)
    requires index < Shr(|row|, level) && forall d :: d in row ==> !d.Raw?
    ensures !NodeAt(row, level, index).Raw?
    decreases level
  {
    if level > 0 {
      assert forall d :: d in Lift(row) ==> d.NodeDigest?;
      NodesAreHashes(Lift(row), level - 1, index);
    }
  }

  /** So do the nodes that a merge makes, whatever it merges. */
  lemma {:induction false} MergeMakesNodes(level: nat, begin: nat, mid: nat, end: nat, left: Spine, right: Spine)
    requires begin <= mid <= end && Fits(left, begin, mid) && Fits(right, mid, end)
    ensures forall v :: v in Merge(level, begin, mid, end, left, right).visits ==> v.digest.NodeDigest?
    decreases end
  {
    if begin < mid < end {
      var b, m, u, e := (begin + 1) / 2, mid / 2, (mid + 1) / 2, end / 2;
      Halves(begin, mid, end, b, m, u, e);
      if mid % 2 == 0 {
        MergeMakesNodes(level + 1, b, m, e, left.up, right.up);
      } else {
        var p := NodeDigest(left.high.value, right.low.value);
        MergeMakesNodes(level + 1, m, u, e, Single(m, p), right.up);
        MergeMakesNodes(level + 1, b, m, e, left.up, Merge(level + 1, m, u, e, Single(m, p), right.up).spine);
      }
    }
  }

  /** Hence integration builds tiles out of tiles that were built. */
  lemma IntegrationBuilds(entries: seq<Bytes>, getTile: GetTileFunc, seen: seq<Visit>, base: Range, more: Range)
    requires HonestVisits(0, LeafDigests(entries), seen) && forall k :: getTile(k).Some? ==> Built(getTile(k).value)
    requires base.Valid() && more.Valid() && base.end == more.begin
    ensures var m := VisitAll(map[], getTile, seen + AppendRangeVisits(base, more)); forall k :: k in m ==> Built(m[k])
  {
    var visits := seen + AppendRangeVisits(base, more);
    HonestVisitsCarryHashes(entries, seen);
    MergeMakesNodes(0, base.begin, base.end, more.end, base.spine, more.spine);
    assert forall v :: v in visits ==> v in seen || v in AppendRangeVisits(base, more);
    VisitsBuild(map[], getTile, visits);
  }

  // ----- integrating -----

  datatype Outcome = Failed | NothingToDo | Updated(cp: Checkpoint, dirty: map<TileKey, Tile>)

  /** What integration promises: the right update if the tiles it reads are good, a failure if a
      partial one cannot be read, and built tiles out of built tiles. */
  ghost predicate Computes(entries: seq<Bytes>, size: nat, getTile: GetTileFunc, o: Outcome)
    requires size <= |entries|
  {
    (FetchOK(getTile, LeafDigests(entries), size) ==> RightOutcome(entries, size, o))
    && ((exists k :: 0 < LeavesOf(k, size) < 256 && getTile(k).None?) ==> o.Failed?)
    && ((forall k :: getTile(k).Some? ==> Built(getTile(k).value)) && o.Updated? ==>
          forall k :: k in o.dirty ==> Built(o.dirty[k]))
  }

  ghost predicate RightOutcome(entries: seq<Bytes>, size: nat, o: Outcome)
    requires size <= |entries|
  {
    if |entries| == size then o == NothingToDo
    else o.Updated? && o.cp == Checkpoint(|entries|, Mth(entries)) && DirtyTiles(LeafDigests(entries), size, o.dirty)
  }

  /** What the next leaf adds to the range and to the visits. */
  lemma ScanStep(row: seq<Digest>, size: nat, end: nat, seen: seq<Visit>, getTile: GetTileFunc)
    requires size <= end < |row| && VisitsInside(row, size, end, seen)
    ensures var r := Honest(row, size, end); var visits := AppendVisits(r, row[end]);
            Append(r, row[end]) == Honest(row, size, end + 1) && VisitsInside(row, size, end + 1, seen + visits)
            && VisitAll(map[], getTile, seen + visits) == VisitAll(VisitAll(map[], getTile, seen), getTile, visits)
  {
    AppendVisitsInside(row, size, end, seen);
    AppendHonest(row, size, end);
    VisitAllConcat(map[], getTile, seen, AppendVisits(Honest(row, size, end), row[end]));
  }

  /** Scan the entries from `size` on, appending their hashes to a new range. */
  method ScanSequenced(tc: TileCache, entries: seq<Bytes>, size: nat) returns (newRange: Range, ghost seen: seq<Visit>)
    requires size <= |entries| && tc.m == map[]
    modifies tc
    ensures newRange == Honest(LeafDigests(entries), size, |entries|)
    ensures tc.m == VisitAll(map[], tc.getTile, seen) && VisitsInside(LeafDigests(entries), size, |entries|, seen)
  {
    ghost var row := LeafDigests(entries);
    newRange, seen := NewEmptyRange(size), [];
    NoVisits(row, size);
    var end := size;
    while end < |entries|
      invariant size <= end <= |entries|
      invariant newRange == Honest(row, size, end)
      invariant tc.m == VisitAll(map[], tc.getTile, seen)
      invariant VisitsInside(row, size, end, seen)
    {
      newRange, seen := AppendAndVisit(tc, newRange, LeafDigest(entries[end]), row, seen);
      end := end + 1;
    }
  }

  /** Append the hash of the next leaf, visiting the nodes that this completes. */
  method AppendAndVisit(tc: TileCache, r: Range, lh: Digest, ghost row: seq<Digest>, ghost seen: seq<Visit>)
    returns (r': Range, ghost seen': seq<Visit>)
    requires r.begin <= r.end < |row| && r == Honest(row, r.begin, r.end) && lh == row[r.end]
    requires tc.m == VisitAll(map[], tc.getTile, seen) && VisitsInside(row, r.begin, r.end, seen)
    modifies tc
    ensures r' == Honest(row, r.begin, r.end + 1)
    ensures tc.m == VisitAll(map[], tc.getTile, seen') && VisitsInside(row, r.begin, r.end + 1, seen')
  {
    ScanStep(row, r.begin, r.end, seen, tc.getTile);
    var visits := AppendVisits(r, lh);
    r', seen' := Append(r, lh), seen + visits;
    assert r' == Honest(row, r.begin, r.end + 1) && VisitsInside(row, r.begin, r.end + 1, seen');
    tc.VisitEach(visits);
  }

  /** The new checkpoint and the dirty tiles.  Only the range nodes of the old tree and the new
      entries are read, yet the root is that of all entries. */
  method Compute(entries: seq<Bytes>, size: nat, getTile: GetTileFunc) returns (o: Outcome)
    requires size <= |entries|
    ensures Computes(entries, size, getTile, o)
  {
    ghost var row := LeafDigests(entries);
    var hashes := FetchRangeNodes(size, getTile, row);
    if hashes.None? { return Failed; }
    var baseRange := NewRange(0, size, hashes.value);
    NewRangeHonest(row, 0, size);
    if baseRange.None? { return Failed; }
    var tc := new TileCache(getTile);
    var newRange, seen := ScanSequenced(tc, entries, size);
    if newRange.end == size { return NothingToDo; }
    var visits := AppendRangeVisits(baseRange.value, newRange);
    VisitAllConcat(map[], getTile, seen, visits);
    tc.VisitEach(visits);
    var merged := AppendRange(baseRange.value, newRange);
    var newRoot := GetRootHash(merged);
    if FetchOK(getTile, row, size) { UpdateIsRight(entries, size, getTile, seen); }
    if forall k :: getTile(k).Some? ==> Built(getTile(k).value) {
      IntegrationBuilds(entries, getTile, seen, baseRange.value, newRange);
    }
    return Updated(Checkpoint(merged.end, newRoot), tc.m);
  }

  lemma UpdateIsRight(entries: seq<Bytes>, size: nat, getTile: GetTileFunc, seen: seq<Visit>)
    requires size < |entries| && FetchOK(getTile, LeafDigests(entries), size)
    requires VisitsInside(LeafDigests(entries), size, |entries|, seen)
    ensures var row := LeafDigests(entries);
            var base, more := Honest(row, 0, size), Honest(row, size, |entries|);
            GetRootHash(AppendRange(base, more)) == Mth(entries)
            && DirtyTiles(row, size, VisitAll(map[], getTile, seen + AppendRangeVisits(base, more)))
  {
    var row := LeafDigests(entries);
    MergeVisitsNew(row, size, seen);
    VisitsMakeDirtyTiles(row, size, getTile, seen + AppendRangeVisits(Honest(row, 0, size), Honest(row, size, |row|)));
    AppendRangeHonest(row, 0, size, |row|);
    HonestRootIsMth(entries, |entries|);
    assert entries[..|entries|] == entries;
  }

  lemma NoVisits(row: seq<Digest>, size: nat)
    ensures VisitsInside(row, size, size, [])
  {
    forall id: NodeId ensures !Inside(id.level, id.index, size, size) {
      if Inside(id.level, id.index, size, size) { InsideBounds(id.level, id.index, size, size); }
    }
  }

  /** Good files answer correctly for every size for which they can be read. */
  lemma FilesFetchOK(files: Files, absolute: bool, row: seq<Digest>, high: nat, size: nat, getTile: GetTileFunc)
    requires high <= |row| && size <= |row| && FilesOK(files, row, high) && Readable(files, absolute, size)
    requires forall k :: getTile(k) == GetTile(files, absolute, k, size)
    ensures FetchOK(getTile, row, size)
  {
    forall k | LeavesOf(k, size) > 0 ensures getTile(k).Some? && Complete(row, size, k, getTile(k).value) {
      ReadIsComplete(files, absolute, row, high, size, k);
    }
    forall k | getTile(k).Some? ensures getTile(k).value.numLeaves <= LeavesOf(k, |row|) {
      var f := FileFor(k, size);
      var g := if files[f].Regular? then f else TileFile(k, 0);
      assert Written(row, high, g, files[g].tile);
      var n: nat :| n <= high && WrittenFor(row, n, g, files[g].tile);
      LeavesMonotone(k, n, |row|);
    }
  }

  lemma PersistedComplete(row: seq<Digest>, n: nat, k: TileKey, t: Tile)
    requires n <= |row| && Complete(row, n, k, t)
    ensures Complete(row, n, k, Persisted(t))
  {
    forall id: NodeId | TileOf(id) == k && id.index < Shr(n, id.level)
      ensures id.index < Shr(|row|, id.level) && HoldsNode(row, Persisted(t), id)
    {
      ShrMonotone(n, |row|, id.level);
      assert HoldsNode(row, t, id);
    }
  }

  /** Writing a tile that is right for n leaves keeps the files good. */
  lemma PutKeepsFiles(files: Files, row: seq<Digest>, high: nat, n: nat, k: TileKey, t: Tile)
    requires high <= n <= |row| && FilesOK(files, row, high)
    requires t.numLeaves == LeavesOf(k, n) > 0 && Complete(row, n, k, t)
    ensures FilesOK(Put(files, k, t), row, n)
  {
    var f, files' := TileFile(k, t.numLeaves % 256), Put(files, k, t);
    PersistedComplete(row, n, k, t);
    assert WrittenFor(row, n, f, Persisted(t));
    forall g | g in files' && files'[g].Regular? ensures Written(row, n, g, files'[g].tile) {
      if g != f { WrittenLater(row, high, n, g, files[g].tile); }
    }
  }

  lemma WrittenLater(row: seq<Digest>, high: nat, high': nat, f: TileFile, t: Tile)
    requires high <= high' <= |row| && Written(row, high, f, t)
    ensures Written(row, high', f, t)
  {
    var n: nat :| n <= high && WrittenFor(row, n, f, t);
  }

  lemma RelinkKeepsFiles(files: Files, row: seq<Digest>, high: nat, f: TileFile)
    requires high <= |row| && FilesOK(files, row, high)
    requires f.partial != 0 && TileFile(f.key, 0) in files
    ensures FilesOK(Relink(files, f), row, high)
  {
  }

  /** Storing a tile, with the relinking it brings, keeps the files good and loses none. */
  lemma StoreKeepsFiles(files: Files, files': Files, row: seq<Digest>, high: nat, n: nat, k: TileKey, t: Tile)
    requires high <= n <= |row| && FilesOK(files, row, high)
    requires t.numLeaves == LeavesOf(k, n) > 0 && Complete(row, n, k, t)
    requires files'.Keys == files.Keys + {TileFile(k, t.numLeaves % 256)}
    requires forall f :: f in files' ==>
               files'[f] == if t.numLeaves == 256 && f.key == k && f.partial != 0 then Link else Put(files, k, t)[f]
    ensures FilesOK(files', row, n)
  {
    PutKeepsFiles(files, row, high, n, k, t);
    var put, full := Put(files, k, t), TileFile(k, 0);
    forall f | f in files'
      ensures if files'[f].Regular? then Written(row, n, f, files'[f].tile)
              else f.partial != 0 && TileFile(f.key, 0) in files' && files'[TileFile(f.key, 0)].Regular?
    {
      assert f in put && TileFile(f.key, 0) in files' <==> TileFile(f.key, 0) in put;
    }
  }

  /** A tile cannot be stored: it has become full, and a temporary link was left behind. */
  predicate BlockedTile(links: set<TileKey>, old': nat, n: nat, k: TileKey) {
    k in links && LeavesOf(k, old') < LeavesOf(k, n) == 256
  }

  /** Where a dirty tile is stored. */
  function FileOf(k: TileKey, n: nat): TileFile { TileFile(k, LeavesOf(k, n) % 256) }

  /** The file holds a tile, not a link. */
  predicate HoldsTile(files: Files, f: TileFile) { f in files && files[f].Regular? }

  /** Files of tiles that are not dirty are as before. */
  predicate OthersKept(files: Files, files': Files, dirty: map<TileKey, Tile>) {
    files.Keys <= files'.Keys && forall f :: f in files && f.key !in dirty ==> files'[f] == files[f]
  }

  /** A tile is stored, and other tiles keep their files. */
  lemma StoreKeepsOthers(files: Files, files': Files, k: TileKey, t: Tile)
    requires files'.Keys == files.Keys + {TileFile(k, t.numLeaves % 256)} && t.numLeaves <= 256
    requires forall f :: f in files' ==>
               files'[f] == if t.numLeaves == 256 && f.key == k && f.partial != 0 then Link else Put(files, k, t)[f]
    ensures HoldsTile(files', TileFile(k, t.numLeaves % 256))
    ensures forall f :: f in files && f.key != k ==> f in files' && files'[f] == files[f]
  {
  }

  /** Store the dirty tiles, in whatever order the map yields them. */
  method StoreDirty(st: Storage, dirty: map<TileKey, Tile>, ghost row: seq<Digest>, ghost size: nat) returns (ok: bool)
    requires DirtyTiles(row, size, dirty) && FilesOK(st.files, row, |row|)
    modifies st
    ensures FilesOK(st.files, row, |row|) && OthersKept(old(st.files), st.files, dirty) && st.links == old(st.links)
    ensures ok <==> forall k :: !BlockedTile(st.links, size, |row|, k)
    ensures ok ==> forall k :: k in dirty ==> HoldsTile(st.files, FileOf(k, |row|))
  {
    var todo := dirty.Keys;
    while todo != {}
      invariant todo <= dirty.Keys && st.links == old(st.links)
      invariant FilesOK(st.files, row, |row|) && OthersKept(old(st.files), st.files, dirty)
      invariant forall k :: k in dirty && k !in todo ==>
                  HoldsTile(st.files, FileOf(k, |row|)) && !BlockedTile(st.links, size, |row|, k)
      decreases todo
    {
      var k :| k in todo;
      ghost var before := st.files;
      ok := st.StoreTile(k, dirty[k]);
      if !ok {
        PutKeepsFiles(before, row, |row|, |row|, k, dirty[k]);
        assert BlockedTile(st.links, size, |row|, k);
        return;
      }
      StoreKeepsFiles(before, st.files, row, |row|, |row|, k, dirty[k]);
      StoreKeepsOthers(before, st.files, k, dirty[k]);
      todo := todo - {k};
    }
    return true;
  }

  /** A whole integration on good files: it fails exactly if a partial tile of the old tree has
      become a link that does not resolve, or a temporary link is in its way; otherwise it
      returns the root of all entries and leaves files from which the new tree can be read.
      In any case the files stay good and none is lost. */
  method Integrate(st: Storage, entries: seq<Bytes>, size: nat, ghost high: nat)
    returns (newCP: Option<Checkpoint>, ok: bool)
    requires size <= high <= |entries| && FilesOK(st.files, LeafDigests(entries), high) && Covers(st.files, size)
    modifies st
    ensures FilesOK(st.files, LeafDigests(entries), |entries|) && old(st.files).Keys <= st.files.Keys
    ensures ok <==> Readable(old(st.files), st.absolute, size)
                    && forall k :: !BlockedTile(old(st.links), size, |entries|, k)
    ensures newCP == if ok && |entries| > size then Some(Checkpoint(|entries|, Mth(entries))) else None
    ensures ok ==> Readable(st.files, st.absolute, |entries|)
  {
    ghost var row := LeafDigests(entries);
    var files, absolute := st.files, st.absolute;
    var getTile := (k: TileKey) => GetTile(files, absolute, k, size);
    FilesOKLater(files, row, high, |row|);
    if Readable(files, absolute, size) {
      FilesFetchOK(files, absolute, row, high, size, getTile);
    } else {
      ghost var k := UnreadableTile(files, absolute, row, high, size);
    }
    var o := Compute(entries, size, getTile);
    if o.Failed? { return None, false; }
    if o.NothingToDo? { return None, true; }
    ok := StoreDirty(st, o.dirty, row, size);
    if !ok { return None, false; }
    DirtyReadable(files, st.files, absolute, row, size, o.dirty);
    return Some(o.cp), true;
  }

  /** Once the dirty tiles are stored, the new tree can be read. */
  lemma DirtyReadable(files: Files, files': Files, absolute: bool, row: seq<Digest>, size: nat,
                      dirty: map<TileKey, Tile>)
    requires size <= |row| && Readable(files, absolute, size) && DirtyTiles(row, size, dirty)
    requires OthersKept(files, files', dirty) && forall k :: k in dirty ==> HoldsTile(files', FileOf(k, |row|))
    ensures Readable(files', absolute, |row|)
  {
    forall k | LeavesOf(k, |row|) > 0
      ensures FileFor(k, |row|) in files' && (absolute || files'[FileFor(k, |row|)].Regular?)
    {
      FileForLeaves(k, |row|);
      LeavesMonotone(k, size, |row|);
      if k in dirty { assert HoldsTile(files', FileOf(k, |row|)); } else { FileForLeaves(k, size); }
    }
  }

  /** Tiles that gained nothing still have the file the old tree needed. */
  lemma SameLeavesSameFile(files: Files, k: TileKey, old': nat, n: nat)
    requires Covers(files, old') && LeavesOf(k, old') == LeavesOf(k, n) > 0
    ensures FileFor(k, n) in files
  {
    FileForLeaves(k, old');
    FileForLeaves(k, n);
  }

  // ----- there is always an outcome -----

  lemma {:induction false} VisitsExist(row: seq<Digest>, size: nat, e: nat) returns (seen: seq<Visit>)
    requires size <= e <= |row|
    ensures VisitsInside(row, size, e, seen)
    decreases e
  {
    if e == size {
      NoVisits(row, size);
      return [];
    }
    seen := VisitsExist(row, size, e - 1);
    AppendVisitsInside(row, size, e - 1, seen);
    seen := seen + AppendVisits(Honest(row, size, e - 1), row[e - 1]);
  }

  lemma NewVisitsExist(row: seq<Digest>, size: nat) returns (visits: seq<Visit>)
    requires size <= |row|
    ensures VisitsNewNodes(row, size, visits)
  {
    var seen := VisitsExist(row, size, |row|);
    MergeVisitsNew(row, size, seen);
    visits := seen + AppendRangeVisits(Honest(row, 0, size), Honest(row, size, |row|));
  }

  /** On good tiles there is an update to compute as soon as there are new entries. */
  lemma OutcomeExists(entries: seq<Bytes>, size: nat, getTile: GetTileFunc) returns (o: Outcome)
    requires size < |entries| && FetchOK(getTile, LeafDigests(entries), size)
    ensures o.Updated? && Computes(entries, size, getTile, o)
  {
    var visits := NewVisitsExist(LeafDigests(entries), size);
    VisitsMakeDirtyTiles(LeafDigests(entries), size, getTile, visits);
    o := Updated(Checkpoint(|entries|, Mth(entries)), VisitAll(map[], getTile, visits));
    if forall k :: getTile(k).Some? ==> Built(getTile(k).value) {
      HonestVisitsCarryHashes(entries, visits);
      VisitsBuild(map[], getTile, visits);
    }
    RightOutcomeComputes(entries, size, getTile, o);
  }

  lemma RightOutcomeComputes(entries: seq<Bytes>, size: nat, getTile: GetTileFunc, o: Outcome)
    requires size <= |entries| && FetchOK(getTile, LeafDigests(entries), size) && RightOutcome(entries, size, o)
    requires (forall k :: getTile(k).Some? ==> Built(getTile(k).value)) && o.Updated? ==>
               forall k :: k in o.dirty ==> Built(o.dirty[k])
    ensures Computes(entries, size, getTile, o)
  {
    assert CorrectTiles(getTile, LeafDigests(entries), size);
  }

  lemma FilesOKLater(files: Files, row: seq<Digest>, high: nat, high': nat)
    requires high <= high' <= |row| && FilesOK(files, row, high)
    ensures FilesOK(files, row, high')
  {
    forall f | f in files && files[f].Regular? ensures Written(row, high', f, files[f].tile) {
      WrittenLater(row, high, high', f, files[f].tile);
    }
  }

  /** New entries do not disturb what the files hold. */
  lemma FilesKeepWithMoreEntries(files: Files, row: seq<Digest>, more: seq<Digest>, high: nat)
    requires high <= |row| <= |more| && more[..|row|] == row && FilesOK(files, row, high)
    ensures FilesOK(files, more, high)
  {
    forall f | f in files && files[f].Regular? ensures Written(more, high, f, files[f].tile) {
      assert Written(row, high, f, files[f].tile);
      var n: nat :| n <= high && WrittenFor(row, n, f, files[f].tile);
      forall id: NodeId | TileOf(id) == f.key && id.index < Shr(n, id.level)
        ensures id.index < Shr(|more|, id.level) && HoldsNode(more, files[f].tile, id)
      {
        ShrMonotone(n, |row|, id.level);
        NodeAtPrefix(more, |row|, id.level, id.index);
        assert HoldsNode(row, files[f].tile, id);
      }
      assert WrittenFor(more, n, f, files[f].tile);
    }
  }
}
