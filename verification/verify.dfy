/** The root of the cloned leaves: computed from the latest verified checkpoint on, where the
    compact range saved with it stands for the leaves before, and equal to the root computed
    from the first leaf. */
module Verify {
  import opened Merkle
  import opened CompactRange
  import opened LogDb

  datatype Computed = Computed(root: Digest, range: seq<Digest>)

  /** What recomputing everything from leaf 0 gives. */
  function FromScratch(log: seq<Bytes>, size: nat): Option<Computed> {
    if size > |log| then None else
    var cr := AppendAll(NewEmptyRange(0), LeafDigests(log[..size]));
    Some(Computed(GetRootHash(cr), cr.Hashes()))
  }

  lemma FromScratchIsHonest(log: seq<Bytes>, size: nat)
    requires size <= |log|
    ensures FromScratch(log, size)
         == Some(Computed(GetRootHash(Honest(LeafDigests(log), 0, size)), RangeHashes(LeafDigests(log), 0, size)))
    ensures size > 0 ==> FromScratch(log, size).value.root == Mth(log[..size])
  {
    var row := LeafDigests(log);
    assert LeafDigests(log[..size]) == row[0..size];
    AppendAllHonest(row, 0, LeafDigests(log[..size]));
    if size > 0 { HonestRootIsMth(log, size); }
  }

  /** Every stored checkpoint is of leaves that are there, with the range of those leaves. */
  ghost predicate CheckpointsOK(checkpoints: map<nat, seq<Digest>>, log: seq<Bytes>) {
    forall size :: size in checkpoints ==>
      size <= |log| && checkpoints[size] == RangeHashes(LeafDigests(log), 0, size)
  }

  /** The range to start from: that of the latest checkpoint, unless it is too large. */
  method StartRange(db: Database, size: nat, ghost log: seq<Bytes>) returns (cr: Option<Range>)
    ensures cr.Some? ==> cr.value.Valid() && cr.value.begin == 0
    ensures CheckpointsOK(db.checkpoints, log) ==>
              cr.Some? && cr.value.end <= size && cr.value.end <= |log|
              && cr.value == Honest(LeafDigests(log), 0, cr.value.end)
  {
    var latest := db.GetLatestCheckpoint();
    if latest.Some? && size >= latest.value.0 {
      if CheckpointsOK(db.checkpoints, log) { NewRangeHonest(LeafDigests(log), 0, latest.value.0); }
      return NewRange(0, latest.value.0, latest.value.1);
    }
    return Some(NewEmptyRange(0));
  }

  method AppendLeaves(cr: Range, leaves: seq<Bytes>) returns (r: Range)
    requires cr.Valid()
    ensures r == AppendAll(cr, LeafDigests(leaves))
  {
    r := cr;
    for k := 0 to |leaves|
      invariant r.Valid() && r == AppendAll(cr, LeafDigests(leaves)[..k])
    {
      r := Append(r, LeafDigest(leaves[k]));
      assert LeafDigests(leaves)[..k + 1][..k] == LeafDigests(leaves)[..k];
    }
    assert LeafDigests(leaves)[..|leaves|] == LeafDigests(leaves);
  }

  /** The incremental root.  On a database whose checkpoints are good it is exactly what
      recomputing from leaf 0 gives: an error when leaves are missing, and otherwise the same
      root and range. */
  method MerkleRoot(db: Database, size: nat, ghost log: seq<Bytes>) returns (r: Option<Computed>)
    requires HoldsLog(db.leaves, log)
    ensures CheckpointsOK(db.checkpoints, log) ==> r == FromScratch(log, size)
  {
    var start := StartRange(db, size, log);
    if start.None? { return None; }
    var from := start.value.end;
    var leaves := db.StreamLeaves(from, size, log);
    var cr := AppendLeaves(start.value, leaves);
    var index := from + |leaves|;
    if index != size { return None; }
    if CheckpointsOK(db.checkpoints, log) { FinishFrom(log, from, size); }
    return Some(Computed(GetRootHash(cr), cr.Hashes()));
  }

  lemma AppendLeavesHonest(log: seq<Bytes>, from: nat, size: nat)
    requires from <= size <= |log|
    ensures AppendAll(Honest(LeafDigests(log), 0, from), LeafDigests(log[from..size]))
         == Honest(LeafDigests(log), 0, size)
  {
    var row := LeafDigests(log);
    assert LeafDigests(log[from..size]) == row[from..size];
    AppendMoreHonest(row, 0, from, row[from..size]);
  }

  /** Going on from the range of the first leaves ends where starting from scratch does. */
  lemma FinishFrom(log: seq<Bytes>, from: nat, size: nat)
    requires from <= size <= |log|
    ensures var cr := AppendAll(Honest(LeafDigests(log), 0, from), LeafDigests(log[from..size]));
            FromScratch(log, size) == Some(Computed(GetRootHash(cr), cr.Hashes()))
  {
    AppendLeavesHonest(log, from, size);
    FromScratchIsHonest(log, size);
  }

  /** Verify the leaves against a checkpoint and, if they match, store it. */
  method VerifyAndStore(db: Database, size: nat, hash: Digest, ghost log: seq<Bytes>) returns (ok: bool)
    requires HoldsLog(db.leaves, log) && CheckpointsOK(db.checkpoints, log)
    modifies db`checkpoints
    ensures CheckpointsOK(db.checkpoints, log)
    ensures LargestSize(db.checkpoints) >= LargestSize(old(db.checkpoints))
    ensures ok <==> size <= |log| && FromScratch(log, size).value.root == hash
    ensures ok ==> LargestSize(db.checkpoints) >= size
  {
    var r := MerkleRoot(db, size, log);
    if r.None? { return false; }
    if r.value.root != hash { return false; }
    FromScratchIsHonest(log, size);
    db.WriteCheckpoint(size, r.value.range);
    return true;
  }

  // ----- runs -----

  datatype State = State(log: seq<Bytes>, checkpoints: map<nat, seq<Digest>>)

  /** More leaves are cloned, or a checkpoint is verified, incrementally, and stored. */
  datatype Step = Cloned(data: seq<Bytes>) | Verified(size: nat, hash: Digest)

  /** The root and range as the database computes them from its latest checkpoint. */
  ghost function Incremental(s: State, size: nat): Option<Computed> {
    var latest := Latest(s.checkpoints);
    var usable := latest.Some? && size >= latest.value.0;
    var from := if usable then latest.value.0 else 0;
    var cr := if usable then NewRange(0, from, latest.value.1) else Some(NewEmptyRange(0));
    if cr.None? || size > |s.log| then None else
    var all := AppendAll(cr.value, LeafDigests(s.log[from..size]));
    Some(Computed(GetRootHash(all), all.Hashes()))
  }

  ghost function Next(s: State, step: Step): State {
    match step
    case Cloned(data) => s.(log := s.log + data)
    case Verified(size, hash) =>
      var r := Incremental(s, size);
      if r.Some? && r.value.root == hash && size > LargestSize(s.checkpoints)
      then s.(checkpoints := s.checkpoints[size := r.value.range]) else s
  }

  ghost function Run(steps: seq<Step>): State {
    if steps == [] then State([], map[]) else Next(Run(steps[..|steps| - 1]), steps[|steps| - 1])
  }

  lemma FastIsSlow(s: State, size: nat)
    requires CheckpointsOK(s.checkpoints, s.log)
    ensures Incremental(s, size) == FromScratch(s.log, size)
  {
    var latest := Latest(s.checkpoints);
    if latest.Some? && size >= latest.value.0 {
      NewRangeHonest(LeafDigests(s.log), 0, latest.value.0);
      if size <= |s.log| { FinishFrom(s.log, latest.value.0, size); }
    } else if size <= |s.log| {
      assert s.log[0..size] == s.log[..size];
    }
  }

  lemma IncrementalIsHonest(s: State, size: nat)
    requires CheckpointsOK(s.checkpoints, s.log) && size <= |s.log|
    ensures Incremental(s, size).Some? && Incremental(s, size).value.range == RangeHashes(LeafDigests(s.log), 0, size)
  {
    FastIsSlow(s, size);
    FromScratchIsHonest(s.log, size);
  }

  lemma CheckpointsSurvive(checkpoints: map<nat, seq<Digest>>, log: seq<Bytes>, data: seq<Bytes>)
    requires CheckpointsOK(checkpoints, log)
    ensures CheckpointsOK(checkpoints, log + data)
  {
    forall size | size in checkpoints
      ensures size <= |log + data| && checkpoints[size] == RangeHashes(LeafDigests(log + data), 0, size)
    {
      assert LeafDigests(log + data)[..|log|] == LeafDigests(log);
      SpineOfPrefix(LeafDigests(log + data), |log|, 0, size);
    }
  }

  lemma LargestPut(checkpoints: map<nat, seq<Digest>>, size: nat, range: seq<Digest>)
    ensures LargestSize(checkpoints[size := range]) >= LargestSize(checkpoints)
  {
    assert checkpoints[size := range].Keys == checkpoints.Keys + {size};
  }

  lemma NextKeepsCheckpoints(s: State, step: Step)
    requires CheckpointsOK(s.checkpoints, s.log)
    ensures CheckpointsOK(Next(s, step).checkpoints, Next(s, step).log)
    ensures LargestSize(Next(s, step).checkpoints) >= LargestSize(s.checkpoints)
  {
    match step
    case Cloned(data) => CheckpointsSurvive(s.checkpoints, s.log, data);
    case Verified(size, hash) =>
      if size <= |s.log| {
        IncrementalIsHonest(s, size);
        LargestPut(s.checkpoints, size, RangeHashes(LeafDigests(s.log), 0, size));
      }
  }

  /** In every run of cloning and verifying, for every requested size, the incremental root is
      the root from scratch: for a size > 0 that is there, the RFC 6962 root of that many
      leaves.  The latest checkpoint never gets smaller. */
  lemma {:induction false} EveryRun(steps: seq<Step>, size: nat)
    ensures var s := Run(steps);
            CheckpointsOK(s.checkpoints, s.log)
            && Incremental(s, size) == FromScratch(s.log, size)
            && (0 < size <= |s.log| ==> Incremental(s, size).value.root == Mth(s.log[..size]))
            && (steps != [] ==> LargestSize(s.checkpoints) >= LargestSize(Run(steps[..|steps| - 1]).checkpoints))
    decreases |steps|
  {
    if steps != [] {
      var init := steps[..|steps| - 1];
      EveryRun(init, size);
      NextKeepsCheckpoints(Run(init), steps[|steps| - 1]);
    }
    var s := Run(steps);
    FastIsSlow(s, size);
    if 0 < size <= |s.log| { FromScratchIsHonest(s.log, size); }
  }
}
