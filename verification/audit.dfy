/** The SumDB auditor's root check: the log is recomputed from left to right out of complete
    tiles, always the largest ones that fit, and finished with the stragglers. */
module Audit {
  import opened Merkle
  import opened CompactRange
  import opened Layout
  import opened Witness

  /** Complete tiles of the local database, 2^height hashes each. */
  type TileDb = (nat, nat) -> Option<seq<Digest>>

  /** How many levels of tiles hold the complete tiles of the log; -1 if there are none. */
  method GetLevelsForLeafCount(leaves: nat, height: nat) returns (topLevel: int)
    requires height >= 1
    ensures topLevel >= -1 && leaves < Pow2((topLevel + 2) * height)
    ensures topLevel >= 0 ==> Pow2((topLevel + 1) * height) <= leaves
  {
    topLevel := -1;
    var coveredIdx := Shr(leaves, height);
    while coveredIdx > 0
      invariant topLevel >= -1 && coveredIdx == Shr(leaves, (topLevel + 2) * height)
      invariant topLevel >= 0 ==> Shr(leaves, (topLevel + 1) * height) > 0
      decreases coveredIdx
    {
      ShrShrinks(coveredIdx, height);
      NextLevel(topLevel + 2, height);
      ShrAdd(leaves, (topLevel + 2) * height, height);
      coveredIdx := Shr(coveredIdx, height);
      topLevel := topLevel + 1;
    }
    BelowShr(0, leaves, (topLevel + 2) * height);
    if topLevel >= 0 { BelowShr(0, leaves, (topLevel + 1) * height); }
  }

  lemma NextLevel(level: nat, height: nat)
    ensures (level + 1) * height == level * height + height
  {
  }

  lemma ShrShrinks(n: nat, k: nat)
    requires n > 0 && k > 0
    ensures Shr(n, k) < n
  {
    assert Shr(n, k) <= n / 2;
  }

  /** The x-th block of w nodes of a row. */
  function Block(row: seq<Digest>, w: nat, x: nat): seq<Digest>
    requires (x + 1) * w <= |row|
  {
    NextBlock(x, w);
    row[x * w..x * w + w]
  }

  /** The hashes of a complete tile: 2^height nodes of the row at its bottom. */
  function TileRow(row: seq<Digest>, height: nat, level: nat, offset: nat): (tile: seq<Digest>)
    requires (offset + 1) * Pow2(height) <= Shr(|row|, level * height)
    ensures |tile| == Pow2(height)
  {
    Block(LiftN(row, level * height), Pow2(height), offset)
  }

  /** Every complete tile of the tree over `row` is stored with its true hashes. */
  ghost predicate CorrectDb(db: TileDb, row: seq<Digest>, height: nat) {
    forall level: nat, offset: nat :: (offset + 1) * Pow2(height) <= Shr(|row|, level * height) ==>
      db(level, offset) == Some(TileRow(row, height, level, offset))
  }

  /** An interval with even ends has its range one row up. */
  lemma EvenRange(row: seq<Digest>, begin: nat, end: nat, b: nat, e: nat)
    requires begin == 2 * b && end == 2 * e && b < e && end <= |row|
    ensures RangeHashes(row, begin, end) == RangeHashes(Lift(row), b, e)
  {
    assert (begin + 1) / 2 == b;
    var up := SpineOf(Lift(row), b, e);
    assert SpineOf(row, begin, end) == Row(None, up, None);
    assert ToSeq(Row(None, up, None)) == ToSeq(up);
  }

  /** The range of an aligned block of 2^k leaves is a single node. */
  lemma {:induction false} AlignedRange(row: seq<Digest>, k: nat, o: nat, begin: nat, end: nat)
    requires begin == o * Pow2(k) && end == begin + Pow2(k) <= |row|
    ensures o < Shr(|row|, k) && RangeHashes(row, begin, end) == [NodeAt(row, k, o)]
    decreases k
  {
    if k > 0 {
      var b, e := HalveBlock(k, o, begin, end);
      AlignedRange(Lift(row), k - 1, o, b, e);
      EvenRange(row, begin, end, b, e);
    } else {
      OneLeafRange(row, o);
    }
  }

  lemma HalveBlock(k: nat, o: nat, begin: nat, end: nat) returns (b: nat, e: nat)
    requires k > 0 && begin == o * Pow2(k) && end == begin + Pow2(k)
    ensures begin == 2 * b && end == 2 * e && b < e && b == o * Pow2(k - 1) && e == b + Pow2(k - 1)
  {
    b := o * Pow2(k - 1);
    e := b + Pow2(k - 1);
    DoubleProduct(o, Pow2(k - 1));
  }

  lemma OneLeafRange(row: seq<Digest>, o: nat)
    requires o < |row|
    ensures RangeHashes(row, o, o + 1) == [row[o]]
  {
    SingleHonest(row, o);
    assert ToSeq(Single(o, row[o])) == [row[o]];
  }

  lemma {:induction false} OneBlock(k: nat)
    ensures Shr(Pow2(k), k) == 1
    decreases k
  {
    if k > 0 { OneBlock(k - 1); }
  }

  lemma BlockNode(row: seq<Digest>, k: nat, x: nat)
    requires (x + 1) * Pow2(k) <= |row|
    ensures x < Shr(|row|, k) && Shr(|Block(row, Pow2(k), x)|, k) == 1
    ensures NodeAt(Block(row, Pow2(k), x), k, 0) == NodeAt(row, k, x)
  {
    OneBlock(k);
    NextBlock(x, Pow2(k));
    BelowShr(x, |row|, k);
    NodeAtSlice(row, x, x * Pow2(k), Pow2(k), k, 0);
  }

  /** The root of a complete tile is a node of the tree. */
  lemma TileRootIsNode(row: seq<Digest>, height: nat, level: nat, offset: nat)
    requires (offset + 1) * Pow2(height) <= Shr(|row|, level * height)
    ensures offset < Shr(|row|, level * height + height) && Shr(|TileRow(row, height, level, offset)|, height) == 1
    ensures NodeAt(TileRow(row, height, level, offset), height, 0) == NodeAt(row, level * height + height, offset)
  {
    var below := level * height;
    BlockNode(LiftN(row, below), height, offset);
    ShrAdd(|row|, below, height);
    NodeAtVia(row, below, height, offset);
  }

  /** Every hash of a complete tile is the tree hash of the leaves below it. */
  lemma TileRowIsTreeHash(row: seq<Digest>, height: nat, level: nat, offset: nat, i: nat, x: nat, w: nat)
    requires (offset + 1) * Pow2(height) <= Shr(|row|, level * height) && i < Pow2(height)
    requires x == offset * Pow2(height) + i && w == Pow2(level * height)
    ensures x * w < (x + 1) * w <= |row| && TileRow(row, height, level, offset)[i] == TreeHash(row[x * w..(x + 1) * w])
  {
    TileRowAt(row, height, level, offset, i, x);
    BlockIsTreeHash(row, level * height, x, w);
  }

  lemma TileRowAt(row: seq<Digest>, height: nat, level: nat, offset: nat, i: nat, x: nat)
    requires (offset + 1) * Pow2(height) <= Shr(|row|, level * height) && i < Pow2(height)
    requires x == offset * Pow2(height) + i
    ensures x < Shr(|row|, level * height) && TileRow(row, height, level, offset)[i] == LiftN(row, level * height)[x]
  {
    BlockIndex(LiftN(row, level * height), Pow2(height), offset, i);
  }

  lemma BlockIndex(row: seq<Digest>, w: nat, x: nat, i: nat)
    requires (x + 1) * w <= |row| && i < w
    ensures x * w + i < |row| && Block(row, w, x)[i] == row[x * w + i]
  {
    NextBlock(x, w);
  }

  lemma BlockIsTreeHash(row: seq<Digest>, k: nat, x: nat, w: nat)
    requires x < Shr(|row|, k) && w == Pow2(k)
    ensures x * w < (x + 1) * w <= |row| && LiftN(row, k)[x] == TreeHash(row[x * w..(x + 1) * w])
  {
    BelowShr(x, |row|, k);
    BlockRootAt(row, k, x, x * w, (x + 1) * w);
    NodeAtRow(row, k, x);
    PartIsTreeHash(row, x * w, (x + 1) * w);
  }

  lemma BlockRootAt(row: seq<Digest>, k: nat, x: nat, begin: nat, end: nat)
    requires begin == x * Pow2(k) && end == (x + 1) * Pow2(k) <= |row|
    ensures begin < end && x < Shr(|row|, k) && Root(row[begin..end]) == NodeAt(row, k, x)
  {
    BlockRoot(row, k, x);
  }

  lemma PartIsTreeHash(row: seq<Digest>, begin: nat, end: nat)
    requires begin < end <= |row|
    ensures Root(row[begin..end]) == TreeHash(row[begin..end])
  {
    RootIsTreeHash(row[begin..end]);
  }

  /** Append the hashes of a tile as a standalone subtree. */
  method TileRange(hashes: seq<Digest>) returns (r: Range)
    ensures r == Honest(hashes, 0, |hashes|)
  {
    r := NewEmptyRange(0);
    for i := 0 to |hashes|
      invariant r == Honest(hashes, 0, i)
    {
      AppendHonest(hashes, 0, i);
      r := Append(r, hashes[i]);
    }
  }

  lemma SameHashesSameRange(row: seq<Digest>, begin: nat, end: nat, tile: seq<Digest>)
    requires begin <= end <= |row| && RangeHashes(row, begin, end) == RangeHashes(tile, 0, |tile|)
    ensures NewRange(begin, end, Honest(tile, 0, |tile|).Hashes()) == Some(Honest(row, begin, end))
  {
    NewRangeHonest(row, begin, end);
  }

  /** A complete tile, taken as the leaves it commits to, is their range in the log. */
  lemma TileIsLogRange(row: seq<Digest>, height: nat, k: nat, offset: nat, tile: seq<Digest>, begin: nat, end: nat)
    requires |tile| == Pow2(height) && offset < Shr(|row|, k) && begin == offset * Pow2(k)
             && end == (offset + 1) * Pow2(k)
    requires Shr(|tile|, height) == 1 && NodeAt(tile, height, 0) == NodeAt(row, k, offset)
    ensures begin <= end <= |row|
    ensures NewRange(begin, end, Honest(tile, 0, |tile|).Hashes()) == Some(Honest(row, begin, end))
  {
    assert end == begin + Pow2(k) <= |row| by { BelowShr(offset, |row|, k); NextBlock(offset, Pow2(k)); }
    assert RangeHashes(row, begin, end) == [NodeAt(row, k, offset)] by { AlignedRange(row, k, offset, begin, end); }
    assert RangeHashes(tile, 0, |tile|) == [NodeAt(tile, height, 0)] by { AlignedRange(tile, height, 0, 0, |tile|); }
    SameHashesSameRange(row, begin, end, tile);
  }

  // ----- the walk -----

  /** The database tile at this place is complete. */
  lemma TileIsComplete(n: nat, height: nat, level: nat, offset: nat, k: nat)
    requires k == level * height + height && offset < Shr(n, k)
    ensures (offset + 1) * Pow2(height) <= Shr(n, level * height)
  {
    ShrAdd(n, level * height, height);
    BelowShr(offset, Shr(n, level * height), height);
  }

  lemma CorrectTile(db: TileDb, row: seq<Digest>, height: nat, level: nat, offset: nat, k: nat)
    requires CorrectDb(db, row, height) && k == level * height + height && offset < Shr(|row|, k)
    ensures db(level, offset).Some?
    ensures var tile := db(level, offset).value;
            |tile| == Pow2(height) && Shr(|tile|, height) == 1 && NodeAt(tile, height, 0) == NodeAt(row, k, offset)
  {
    TileIsComplete(|row|, height, level, offset, k);
    assert db(level, offset) == Some(TileRow(row, height, level, offset));
    TileRootIsNode(row, height, level, offset);
  }

  /** Append one complete tile, as the k = (level + 1) * height rows it stands for. */
  method AppendTile(db: TileDb, height: nat, level: nat, offset: nat, k: nat, begin: nat, end: nat, logRange: Range,
                    ghost row: seq<Digest>)
    returns (r: Option<Range>)
    requires k == level * height + height && offset < Shr(|row|, k)
    requires begin == offset * Pow2(k) && end == (offset + 1) * Pow2(k)
    requires logRange.Valid() && logRange.begin == 0 && logRange.end == begin
    ensures begin <= end <= |row|
    ensures r.Some? ==> r.value.Valid() && r.value.begin == 0 && r.value.end == end
    ensures CorrectDb(db, row, height) && logRange == Honest(row, 0, begin) ==> r == Some(Honest(row, 0, end))
  {
    BelowShr(offset, |row|, k);
    NextBlock(offset, Pow2(k));
    var tHashes := db(level, offset);
    if CorrectDb(db, row, height) {
      CorrectTile(db, row, height, level, offset, k);
      TileIsLogRange(row, height, k, offset, tHashes.value, begin, end);
      AppendRangeHonest(row, 0, begin, end);
    }
    if tHashes.None? { return None; }
    var tcr := TileRange(tHashes.value);
    var treeRange := NewRange(begin, end, tcr.Hashes());
    if treeRange.None? { return None; }
    return Some(AppendRange(logRange, treeRange.value));
  }

  /** What a level leaves behind is a whole number of tiles of the level below. */
  lemma DescendLevel(n: nat, height: nat, level: nat, end: nat)
    requires level > 0 && end == n / Pow2((level + 1) * height) * Pow2((level + 1) * height)
    ensures end <= n && end % Pow2(level * height) == 0
  {
    var t, w := Pow2(level * height), Pow2(height);
    var q := n / Pow2((level + 1) * height);
    NextLevel(level, height);
    Pow2Add(height, level * height);
    DivAtLeast(n, w * t, q);
    ProductAssociates(q, w, t);
    DivModUnique(q * w, 0, t);
  }

  /** The complete tiles of one level, from where the log range ends, are appended to it. */
  method AppendLevel(db: TileDb, height: nat, level: nat, n: nat, logRange: Range, ghost row: seq<Digest>)
    returns (r: Option<Range>)
    requires |row| == n && logRange.Valid() && logRange.begin == 0
    requires logRange.end <= n && logRange.end % Pow2((level + 1) * height) == 0
    ensures r.Some? ==> r.value.Valid() && r.value.begin == 0
                        && r.value.end == n / Pow2((level + 1) * height) * Pow2((level + 1) * height) <= n
    ensures CorrectDb(db, row, height) && logRange == Honest(row, 0, logRange.end) ==>
              r.Some? && r.value.end <= n && r.value == Honest(row, 0, r.value.end)
  {
    var k := level * height + height;
    NextLevel(level, height);
    var tileLeafCount := Pow2(k);
    ModBelow(n, tileLeafCount);
    ModBelow(logRange.end, tileLeafCount);
    var levelTileCount := n / tileLeafCount;
    var offset := logRange.end / tileLeafCount;
    assert offset * tileLeafCount == logRange.end;
    DivAtLeast(n, tileLeafCount, offset);
    r := Some(logRange);
    while offset < levelTileCount
      invariant offset <= levelTileCount
      invariant r.Some? && r.value.Valid() && r.value.begin == 0 && r.value.end == offset * tileLeafCount <= n
      invariant CorrectDb(db, row, height) && logRange == Honest(row, 0, logRange.end) ==>
                  r.value == Honest(row, 0, r.value.end)
    {
      DivAtLeast(n, tileLeafCount, offset + 1);
      BelowShr(offset, n, k);
      r := AppendTile(db, height, level, offset, k, offset * tileLeafCount, (offset + 1) * tileLeafCount, r.value, row);
      if r.None? { return None; }
      offset := offset + 1;
    }
  }

  /** Append the leaves of the last, incomplete tile. */
  method AppendStragglers(stragglers: seq<Digest>, count: nat, logRange: Range, ghost row: seq<Digest>)
    returns (r: Range)
    requires logRange.Valid() && logRange.begin == 0 && logRange.end + count == |row| && count <= |stragglers|
    ensures r.Valid() && r.begin == 0 && r.end == |row|
    ensures stragglers[..count] == row[logRange.end..] && logRange == Honest(row, 0, logRange.end) ==>
              r == Honest(row, 0, |row|)
  {
    r := logRange;
    for i := 0 to count
      invariant r.Valid() && r.begin == 0 && r.end == logRange.end + i
      invariant stragglers[..count] == row[logRange.end..] && logRange == Honest(row, 0, logRange.end) ==>
                  r == Honest(row, 0, r.end)
    {
      if stragglers[..count] == row[logRange.end..] {
        assert stragglers[i] == stragglers[..count][i] == row[logRange.end + i];
        AppendHonest(row, 0, r.end);
      }
      r := Append(r, stragglers[i]);
    }
  }

  // ----- the root check -----

  /** How many of n leaves are covered by complete tiles of w leaves. */
  function Covered(n: nat, w: nat): (end: nat)
    requires w > 0
    ensures end <= n && end == n / w * w && end + n % w == n
  {
    WholePart(n, w);
    n - n % w
  }

  lemma WholePart(n: nat, w: nat)
    requires w > 0
    ensures 0 <= n % w <= n && n - n % w == n / w * w
  {
    assert n == w * (n / w) + n % w;
    assert n / w >= 0;
  }

  /** Append all complete tiles, from the highest level down to the leaf level. */
  method AppendTiles(db: TileDb, height: nat, n: nat, w: nat, ghost row: seq<Digest>) returns (r: Option<Range>)
    requires height >= 1 && |row| == n && w == Pow2(height)
    ensures r.Some? ==> r.value.Valid() && r.value.begin == 0 && r.value.end == Covered(n, w)
    ensures CorrectDb(db, row, height) ==> r == Some(Honest(row, 0, Covered(n, w)))
  {
    var logRange := NewEmptyRange(0);
    var level := GetLevelsForLeafCount(n, height);
    if level < 0 { NothingCovered(n, w); }
    while level >= 0
      invariant level >= -1
      invariant logRange.Valid() && logRange.begin == 0 && logRange.end <= n
      invariant level >= 0 ==> logRange.end % Pow2((level + 1) * height) == 0
      invariant level < 0 ==> logRange.end == Covered(n, w)
      invariant CorrectDb(db, row, height) ==> logRange == Honest(row, 0, logRange.end)
      decreases level
    {
      r := AppendLevel(db, height, level, n, logRange, row);
      if r.None? { return; }
      logRange := r.value;
      if level > 0 { DescendLevel(n, height, level, logRange.end); }
      level := level - 1;
    }
    return Some(logRange);
  }

  lemma NothingCovered(n: nat, w: nat)
    requires n < w
    ensures Covered(n, w) == 0
  {
  }

  type Stragglers = nat -> Option<seq<Digest>>

  /** The leaf hashes that the check goes by: those below the complete tiles, and whatever is
      given as stragglers. */
  function Presented(row: seq<Digest>, w: nat, given: seq<Digest>): (leaves: seq<Digest>)
    requires w > 0 && |given| >= |row| % w
    ensures |leaves| == |row|
  {
    row[..Covered(|row|, w)] + given[..|row| % w]
  }

  /** The check asks for one number of stragglers only.  Given correct tiles, a checkpoint is
      accepted exactly when its hash is the root of the leaves that were presented, whatever
      the stragglers are. */
  method CheckCheckpoint(db: TileDb, height: nat, cp: Checkpoint, getStragglers: Stragglers, ghost row: seq<Digest>)
    returns (ok: bool)
    requires height >= 1 && |row| == cp.size > 0
    requires var c := cp.size % Pow2(height);
             c > 0 && getStragglers(c).Some? ==> |getStragglers(c).value| >= c
    ensures CorrectDb(db, row, height) ==> Judges(ok, cp, row, Pow2(height), getStragglers)
  {
    var w := Pow2(height);
    var r := AppendTiles(db, height, cp.size, w, row);
    if r.None? { return false; }
    var logRange := r.value;
    ghost var leaves := row;
    var stragglersCount := cp.size - logRange.end;
    if stragglersCount > 0 {
      var stragglers := getStragglers(stragglersCount);
      if stragglers.None? { return false; }
      leaves := Presented(row, w, stragglers.value);
      SameFront(row, leaves, logRange.end);
      logRange := AppendStragglers(stragglers.value, stragglersCount, logRange, leaves);
    }
    GetRootHashHonest(leaves, |leaves|);
    assert leaves[..|leaves|] == leaves;
    return GetRootHash(logRange) == cp.hash;
  }

  /** The verdict on a checkpoint: the root of the presented leaves decides, and without
      stragglers, where some are needed, it is no. */
  ghost predicate Judges(ok: bool, cp: Checkpoint, row: seq<Digest>, w: nat, getStragglers: Stragglers)
    requires w > 0 && |row| == cp.size > 0
    requires var c := cp.size % w; c > 0 && getStragglers(c).Some? ==> |getStragglers(c).value| >= c
  {
    var c := cp.size % w;
    if c == 0 then ok <==> cp.hash == TreeHash(row)
    else if getStragglers(c).None? then !ok
    else ok <==> cp.hash == TreeHash(Presented(row, w, getStragglers(c).value))
  }

  lemma SameFront(a: seq<Digest>, b: seq<Digest>, end: nat)
    requires end <= |a| && end <= |b| && a[..end] == b[..end]
    ensures Honest(a, 0, end) == Honest(b, 0, end)
  {
    SpineOfPrefix(a, end, 0, end);
    SpineOfPrefix(b, end, 0, end);
  }

  // ----- the check of a new checkpoint -----

  /** The SumDB serves so many leaves of the partial tile at an offset. */
  type LeafServer = (nat, nat) -> Option<seq<Bytes>>

  /** The stragglers of a checkpoint of n leaves as the SumDB serves them.  Leaves that are
      missing from the answer stay empty; an answer that is too long crashes the check. */
  function ServedStragglers(serve: LeafServer, offset: nat): (get: Stragglers)
    ensures forall c: nat :: get(c).Some? ==> |get(c).value| == c
  {
    var get := (c: nat) => HashStragglers(serve(offset, c), c);
    assert forall c: nat :: get(c) == HashStragglers(serve(offset, c), c);
    get
  }

  function HashStragglers(leaves: Option<seq<Bytes>>, c: nat): (r: Option<seq<Digest>>)
    ensures r.Some? ==> |r.value| == c
  {
    if leaves.None? || |leaves.value| > c then None
    else Some(seq(c, i requires 0 <= i < c => if i < |leaves.value| then LeafDigest(leaves.value[i]) else NIL_DIGEST))
  }

  /** The server gives the leaves of the last, partial tile. */
  ghost predicate ServesStragglers(serve: LeafServer, log: seq<Bytes>, w: nat)
    requires w > 0
  {
    var n := |log|;
    WholePart(n, w);
    n % w > 0 ==> serve(n / w, n % w) == Some(log[Covered(n, w)..])
  }

  /** A new checkpoint is checked against the local tiles and the stragglers that the SumDB
      serves.  If these are right it is accepted exactly when it has the root of the log; and
      whatever is served, an accepted checkpoint is of a log that has all leaves of the tiles. */
  method CheckRootHash(db: TileDb, height: nat, cp: Checkpoint, serve: LeafServer, ghost log: seq<Bytes>)
    returns (ok: bool)
    requires height >= 1 && |log| == cp.size > 0
    ensures CorrectDb(db, LeafDigests(log), height) && ServesStragglers(serve, log, Pow2(height)) ==>
              (ok <==> cp.hash == Mth(log))
    ensures CorrectDb(db, LeafDigests(log), height) && ok ==> TilesCommitted(cp, log, Covered(cp.size, Pow2(height)))
  {
    var w := Pow2(height);
    WholePart(cp.size, w);
    var get := ServedStragglers(serve, cp.size / w);
    ok := CheckCheckpoint(db, height, cp, get, LeafDigests(log));
    if CorrectDb(db, LeafDigests(log), height) {
      if ServesStragglers(serve, log, w) { ServedRight(cp, serve, log, w); }
      if ok { AcceptedHasTiles(cp, log, w, get); }
    }
  }

  /** Every log with the root of the checkpoint starts with these leaves. */
  ghost predicate TilesCommitted(cp: Checkpoint, log: seq<Bytes>, end: nat)
    requires end <= |log| && end <= cp.size
  {
    forall other :: |other| == cp.size > 0 && Mth(other) == cp.hash ==> other[..end] == log[..end]
  }

  lemma ServedRight(cp: Checkpoint, serve: LeafServer, log: seq<Bytes>, w: nat)
    requires w > 0 && |log| == cp.size > 0 && ServesStragglers(serve, log, w)
    ensures var c, offset := cp.size % w, cp.size / w;
            offset >= 0 && (c > 0 ==>
              var given := ServedStragglers(serve, offset)(c);
              given.Some? && Presented(LeafDigests(log), w, given.value) == LeafDigests(log))
  {
    WholePart(cp.size, w);
    var c, end, row := cp.size % w, Covered(cp.size, w), LeafDigests(log);
    if c > 0 {
      var given := ServedStragglers(serve, cp.size / w)(c);
      assert given.value == row[end..];
      assert row[..end] + given.value[..c] == row;
    }
  }

  lemma AcceptedHasTiles(cp: Checkpoint, log: seq<Bytes>, w: nat, get: Stragglers)
    requires w > 0 && |log| == cp.size > 0 && forall c: nat :: get(c).Some? ==> |get(c).value| == c
    requires Judges(true, cp, LeafDigests(log), w, get)
    ensures TilesCommitted(cp, log, Covered(cp.size, w))
  {
    var row, c, end := LeafDigests(log), cp.size % w, Covered(cp.size, w);
    var leaves := if c == 0 then row else Presented(row, w, get(c).value);
    forall other | |other| == cp.size && Mth(other) == cp.hash
      ensures other[..end] == log[..end]
    {
      SameRootSameLeaves(LeafDigests(other), leaves);
      forall i | 0 <= i < end ensures other[i] == log[i] {
        assert LeafDigests(other)[i] == leaves[i] == row[i];
      }
    }
  }

  lemma SameRootSameLeaves(a: seq<Digest>, b: seq<Digest>)
    requires |a| == |b| > 0 && TreeHash(a) == TreeHash(b)
    ensures a == b
  {
    RootIsTreeHash(a);
    RootIsTreeHash(b);
    RootFixesRow(a, b);
  }

  // ----- the check of the last golden checkpoint -----

  /** A longer log has the tiles of its prefixes. */
  lemma CorrectDbPrefix(db: TileDb, row: seq<Digest>, n: nat, height: nat)
    requires n <= |row| && CorrectDb(db, row, height)
    ensures CorrectDb(db, row[..n], height)
  {
    forall level: nat, offset: nat | (offset + 1) * Pow2(height) <= Shr(n, level * height)
      ensures db(level, offset) == Some(TileRow(row[..n], height, level, offset))
    {
      ShrMonotone(n, |row|, level * height);
      LiftPrefix(row, n, level * height);
      BlockOfPrefix(LiftN(row, level * height), Shr(n, level * height), Pow2(height), offset);
    }
  }

  lemma {:induction false} LiftPrefix(row: seq<Digest>, n: nat, k: nat)
    requires n <= |row|
    ensures Shr(n, k) <= Shr(|row|, k) && LiftN(row[..n], k) == LiftN(row, k)[..Shr(n, k)]
    decreases k
  {
    ShrMonotone(n, |row|, k);
    if k > 0 {
      assert Lift(row[..n]) == Lift(row)[..n / 2];
      LiftPrefix(Lift(row), n / 2, k - 1);
    }
  }

  lemma BlockOfPrefix(row: seq<Digest>, n: nat, w: nat, x: nat)
    requires (x + 1) * w <= n <= |row|
    ensures Block(row[..n], w, x) == Block(row, w, x)
  {
    NextBlock(x, w);
  }

  /** The last golden checkpoint is checked against the local tiles, the stragglers being the
      beginning of the tile that has since been completed.  `row` is the local leaves, whole
      tiles of them, and `head` the last one; a checkpoint beyond it is not checked. */
  method CheckConsistency(db: TileDb, height: nat, golden: Option<Checkpoint>, head: Option<nat>,
                          ghost row: seq<Digest>)
    returns (ok: bool)
    requires height >= 1 && (golden.Some? ==> golden.value.size > 0) && (head.Some? ==> |row| == head.value + 1)
    requires forall offset: nat :: db(0, offset).Some? ==> |db(0, offset).value| == Pow2(height)
    ensures CorrectDb(db, row, height) && |row| % Pow2(height) == 0 ==>
              (ok <==> golden.None? || (head.Some? && GoldenHolds(golden.value, head.value, row)))
  {
    if golden.None? { return true; }
    if head.None? { return false; }
    var cp, w := golden.value, Pow2(height);
    if cp.size > head.value { return true; }
    WholePart(cp.size, w);
    var offset := cp.size / w;
    var get: Stragglers := (c: nat) => db(0, offset);
    ModBelow(cp.size, w);
    ok := CheckCheckpoint(db, height, cp, get, row[..cp.size]);
    if CorrectDb(db, row, height) && |row| % w == 0 {
      CorrectDbPrefix(db, row, cp.size, height);
      LastTileIsComplete(db, row, cp.size, height, w);
      LocalStragglers(row, cp.size, w, db(0, offset).value);
    }
  }

  ghost predicate GoldenHolds(cp: Checkpoint, head: nat, row: seq<Digest>)
    requires |row| == head + 1 && cp.size > 0
  {
    cp.size > head || cp.hash == TreeHash(row[..cp.size])
  }

  /** The tile with the stragglers of a smaller log is complete. */
  lemma LastTileIsComplete(db: TileDb, row: seq<Digest>, n: nat, height: nat, w: nat)
    requires n < |row| && w == Pow2(height) && |row| % w == 0 && CorrectDb(db, row, height)
    ensures n / w >= 0 && (n / w + 1) * w <= |row| && db(0, n / w) == Some(Block(row, w, n / w))
  {
    TileOfLeaf(n, |row|, w);
    assert Shr(|row|, 0 * height) == |row| && LiftN(row, 0 * height) == row;
    assert db(0, n / w) == Some(TileRow(row, height, 0, n / w));
  }

  lemma TileOfLeaf(n: nat, m: nat, w: nat)
    requires n < m && w > 0 && m % w == 0
    ensures n / w >= 0 && (n / w + 1) * w <= m
  {
    WholePart(n, w);
    WholePart(m, w);
    NextMultiple(n / w, m / w, w);
  }

  lemma NextMultiple(q: nat, p: nat, w: nat)
    requires q * w < p * w
    ensures (q + 1) * w <= p * w
  {
    assert q >= p ==> q * w >= p * w;
    assert q + 1 <= p ==> (q + 1) * w <= p * w;
  }

  lemma LocalStragglers(row: seq<Digest>, n: nat, w: nat, tile: seq<Digest>)
    requires 0 < n < |row| && w > 0 && n / w >= 0 && (n / w + 1) * w <= |row| && tile == Block(row, w, n / w)
    ensures |tile| >= n % w && Presented(row[..n], w, tile) == row[..n]
  {
    WholePart(n, w);
    NextBlock(n / w, w);
  }
}
