/** Cloning the SumDB, which serves leaves in tiles of 256: an incomplete last tile is
    completed first, so that the downloader only ever asks for whole tiles from their start. */
module SumDbClone {
  import opened Merkle
  import opened CompactRange
  import opened LogDb
  import opened Cloner
  import Bulk

  const FULL_TILE := 256

  /** The SumDB serves `count` leaves from `start`, or fails. */
  type Server = (nat, nat) -> Option<seq<Bytes>>

  ghost predicate Honest(serve: Server, remote: seq<Bytes>) {
    forall start: nat, count: nat :: serve(start, count).Some? ==>
      start + count <= |remote| && serve(start, count).value == remote[start..start + count]
  }

  /** Fetch from the start of a tile; any other start is refused. */
  function BatchFetch(serve: Server, start: nat, count: nat): Option<seq<Bytes>> {
    if start % FULL_TILE > 0 then None else serve(start, count)
  }

  /** Complete a partial last tile, as far as the target goes. */
  method PrefetchTile(db: Database, serve: Server, target: nat, next: nat, ghost remote: seq<Bytes>)
    returns (ok: bool, ghost n: nat)
    requires Honest(serve, remote) && next < target <= |remote| && HoldsLog(db.leaves, remote[..next])
    modifies db`leaves
    ensures next <= n <= target && HoldsLog(db.leaves, remote[..n])
    ensures ok ==> n == target || n % FULL_TILE == 0
  {
    n := next;
    var rem := next % FULL_TILE;
    if rem > 0 {
      var tileStart := next - rem;
      var needed := FULL_TILE;
      if target - tileStart < needed { needed := target - tileStart; }
      var leaves := BatchFetch(serve, tileStart, needed);
      if leaves.None? { return false, n; }
      var wrote := db.WriteLeaves(false, next, leaves.value[rem..], remote[..next]);
      if !wrote { return false, n; }
      n := tileStart + needed;
      assert remote[..next] + leaves.value[rem..] == remote[..n];
    }
    return true, n;
  }

  /** Clone the SumDB up to the target.  The database holds a prefix of the SumDB throughout;
      a nil return means that it holds all leaves up to the target, unless the download was
      cancelled and the target fits one tile. */
  method CloneSumDb(db: Database, serve: Server, remote: seq<Bytes>, target: nat, workers: nat, writeBatch: nat,
                    schedule: nat -> seq<Bulk.Act>, ghost held: nat) returns (ok: bool, ghost n: nat)
    requires held <= |remote| && HoldsLog(db.leaves, remote[..held]) && Honest(serve, remote)
    requires target <= |remote| && workers >= 1 && writeBatch >= 1
    requires forall first: nat :: first < target ==>
               Bulk.Run(Bulk.Config(remote, first, target, workers, FULL_TILE), schedule(first)).collector.Finished?
    modifies db`leaves
    ensures held <= n <= |remote| && HoldsLog(db.leaves, remote[..n])
    ensures ok && (target > FULL_TILE || forall first :: Bulk.Act.Cancel !in schedule(first)) ==> n >= target
  {
    n := held;
    var next := Next(db, remote[..held]);
    if next >= target { return true, n; }
    ok, n := PrefetchTile(db, serve, target, next, remote);
    if !ok { return; }
    var first := Next(db, remote[..n]);
    if first < target {
      ghost var c := Bulk.Config(remote, first, target, workers, FULL_TILE);
      assert first % FULL_TILE == 0 && NeverRefused(c, schedule(first)) by { ScheduleNeverRefused(c, schedule(first)); }
    }
    var acts := if first < target then schedule(first) else [];
    ok, n := Clone(db, remote, target, workers, FULL_TILE, writeBatch, acts, n);
  }

  /** After the prefetch no worker of the downloader is ever refused: in every schedule, every
      batch it fetches starts a tile. */
  lemma EveryFetchStartsATile(c: Bulk.Config, acts: seq<Bulk.Act>, i: nat)
    requires c.batch == FULL_TILE && c.first % FULL_TILE == 0
    requires i < |Bulk.Run(c, acts).workers| && !Bulk.Run(c, acts).workers[i].Closed?
    ensures Bulk.Run(c, acts).workers[i].start % FULL_TILE == 0
  {
    Bulk.FetchesOnBoundaries(c, acts, i);
  }

  /** At every point of the schedule, every batch that is fetched or has been starts a tile. */
  ghost predicate NeverRefused(c: Bulk.Config, acts: seq<Bulk.Act>) {
    forall k, i :: 0 <= k <= |acts| && 0 <= i < |Bulk.Run(c, acts[..k]).workers| ==>
      var w := Bulk.Run(c, acts[..k]).workers[i];
      !w.Closed? ==> w.start % FULL_TILE == 0
  }

  lemma ScheduleNeverRefused(c: Bulk.Config, acts: seq<Bulk.Act>)
    requires c.batch == FULL_TILE && c.first % FULL_TILE == 0
    ensures NeverRefused(c, acts)
  {
    forall k, i | 0 <= k <= |acts| && 0 <= i < |Bulk.Run(c, acts[..k]).workers|
      ensures var w := Bulk.Run(c, acts[..k]).workers[i]; !w.Closed? ==> w.start % FULL_TILE == 0
    {
      if !Bulk.Run(c, acts[..k]).workers[i].Closed? { EveryFetchStartsATile(c, acts[..k], i); }
    }
  }
}
