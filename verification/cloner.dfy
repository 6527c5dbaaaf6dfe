/** Cloning a log: downloaded leaves are collected into batches and written to the database,
    which at every point holds a gap-free prefix of the remote log. */
module Cloner {
  import opened Merkle
  import opened CompactRange
  import opened LogDb
  import Bulk

  /** The first leaf to be cloned: one past the last leaf of the database. */
  method Next(db: Database, ghost log: seq<Bytes>) returns (next: nat)
    requires HoldsLog(db.leaves, log)
    ensures next == |log|
  {
    var head := db.Head();
    assert |log| > 0 ==> |log| - 1 in db.leaves;
    if head.None? { return 0; }
    return head.value + 1;
  }

  lemma NextSlot(bi: nat, size: nat)
    requires bi < size
    ensures (bi + 1) % size == if bi + 1 == size then 0 else bi + 1
  {
  }

  lemma AppendPart(log: seq<Bytes>, leaves: seq<Bytes>, n: nat, m: nat)
    requires n <= m <= |leaves|
    ensures log + leaves[..n] + leaves[n..m] == log + leaves[..m]
  {
  }

  /** Take the downloaded leaves, which end in an error unless `clean`, and write them in
      batches.  Any write may fail, and one that includes a leaf emitted after the first
      `live` does, the download having been cancelled.  Whatever happens, the database then
      holds what it held before and the first n of the leaves, n <= live; if nil is returned
      there was no error and these are all the leaves. */
  method WriteBatches(db: Database, writeBatch: nat, start: nat, leaves: seq<Bytes>, live: nat, clean: bool,
                      ghost log: seq<Bytes>)
    returns (ok: bool, ghost n: nat)
    requires writeBatch >= 1 && HoldsLog(db.leaves, log) && start == |log| && live <= |leaves|
    modifies db`leaves
    ensures n <= live && HoldsLog(db.leaves, log + leaves[..n])
    ensures ok ==> clean && n == |leaves|
    ensures clean && leaves == [] ==> ok
  {
    var batch := new Bytes[writeBatch](_ => []);
    var bi, bs, next := 0, start, start;
    n := 0;
    assert log + leaves[..0] == log;
    for r := 0 to |leaves|
      invariant n <= r && n <= live && bi == r - n < writeBatch && bs == start + n && next == start + r
      invariant batch[..bi] == leaves[n..r]
      invariant HoldsLog(db.leaves, log + leaves[..n])
    {
      next := next + 1;
      batch[bi] := leaves[r];
      assert batch[..bi + 1] == leaves[n..r + 1];
      NextSlot(bi, writeBatch);
      bi := (bi + 1) % writeBatch;
      if bi == 0 {
        assert batch[..] == leaves[n..r + 1];
        var wrote := db.WriteLeaves(next - start > live, bs, batch[..], log + leaves[..n]);
        if !wrote { return false, n; }
        AppendPart(log, leaves, n, r + 1);
        bs, n := next, r + 1;
      }
    }
    if !clean { return false, n; }
    if bi > 0 {
      var wrote := db.WriteLeaves(next - start > live, bs, batch[..bi], log + leaves[..n]);
      if !wrote { return false, n; }
      assert batch[..bi] == leaves[n..|leaves|];
      AppendPart(log, leaves, n, |leaves|);
      n := |leaves|;
    }
    return true, n;
  }

  /** Clone up to `treeSize` leaves of `remote`, of which the database holds a prefix.  The
      download follows some schedule of the bulk downloader, which may be cancelled and then
      emit leaves out of order.  At the end the database again holds a prefix, no shorter than
      before, so that an error can be resumed from.  A nil return means that all leaves up to
      treeSize are there, unless the download was cancelled and the tree fits one batch. */
  method Clone(db: Database, remote: seq<Bytes>, treeSize: nat, workers: nat, fetchBatch: nat, writeBatch: nat,
               acts: seq<Bulk.Act>, ghost held: nat) returns (ok: bool, ghost n: nat)
    requires held <= |remote| && HoldsLog(db.leaves, remote[..held])
    requires treeSize <= |remote| && workers >= 1 && fetchBatch >= 1 && writeBatch >= 1
    requires held < treeSize ==>
               Bulk.Run(Bulk.Config(remote, held, treeSize, workers, fetchBatch), acts).collector.Finished?
    modifies db`leaves
    ensures held <= n <= |remote| && HoldsLog(db.leaves, remote[..n])
    ensures ok && (treeSize > fetchBatch || Bulk.Act.Cancel !in acts) ==> n >= treeSize
    ensures n <= held || n <= treeSize
    ensures var c := Bulk.Config(remote, held, treeSize, workers, fetchBatch);
            held < treeSize && LargestSize(db.checkpoints) <= held && ClosesSilently(c, acts) ==> ok && n == held
  {
    n := held;
    var next := Next(db, remote[..held]);
    if next >= treeSize { return true, n; }
    var latest := db.GetLatestCheckpoint();
    if latest.Some? && latest.value.0 > next { return false, n; }
    var c := Bulk.Config(remote, next, treeSize, workers, fetchBatch);
    Bulk.LiveIsInOrder(c, acts);
    var s, live := Bulk.Run(c, acts), Bulk.Live(c, acts);
    ghost var more: nat;
    ok, more := WriteBatches(db, writeBatch, next, s.out, live, s.collector.ok, remote[..held]);
    n := held + more;
    assert remote[..held] + s.out[..more] == remote[..n] by {
      PrefixGrows(remote, held, treeSize, s.out[..live], more);
    }
    if ok && (treeSize > fetchBatch || Bulk.Act.Cancel !in acts) { Bulk.SilentCloseIsComplete(c, acts); }
  }

  /** The download ends without an error and without a leaf. */
  ghost predicate ClosesSilently(c: Bulk.Config, acts: seq<Bulk.Act>) {
    var s := Bulk.Run(c, acts);
    s.collector == Bulk.Finished(true) && s.out == []
  }

  /** The exception is met: whenever leaves are missing and the tree fits one batch, some
      cancelled schedule closes silently, and the clone then returns nil with nothing added. */
  lemma SilentScheduleExists(c: Bulk.Config) returns (acts: seq<Bulk.Act>)
    requires c.Valid() && c.treeSize <= c.batch
    ensures ClosesSilently(c, acts)
  {
    Bulk.InitOK(c);
    acts := Bulk.SkipBatch(c, Bulk.Init(c), c.first);
  }

  lemma PrefixGrows(remote: seq<Bytes>, held: nat, treeSize: nat, out: seq<Bytes>, more: nat)
    requires held <= treeSize <= |remote| && out <= remote[held..treeSize] && more <= |out|
    ensures remote[..held] + out[..more] == remote[..held + more]
  {
    assert out == remote[held..treeSize][..|out|];
  }
}
