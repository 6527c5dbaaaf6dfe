/** The database of a cloned log: a table of leaves and a table of verified checkpoints with
    their compact ranges. */
module LogDb {
  import opened Merkle
  import opened CompactRange

  type LeafTable = map<nat, Bytes>

  /** The leaves table holds exactly the entries of `log`, without a gap. */
  ghost predicate HoldsLog(leaves: LeafTable, log: seq<Bytes>) {
    (forall i: nat :: i in leaves <==> i < |log|) && forall i: nat :: i < |log| ==> leaves[i] == log[i]
  }

  class Database {
    var leaves: LeafTable
    var checkpoints: map<nat, seq<Digest>>

    constructor ()
      ensures leaves == map[] && checkpoints == map[]
    {
      leaves, checkpoints := map[], map[];
    }

    /** Insert a run of leaves in one transaction, which may fail as a whole, and does if it
        is begun after a cancellation. */
    method WriteLeaves(cancelled: bool, start: nat, data: seq<Bytes>, ghost log: seq<Bytes>) returns (ok: bool)
      modifies this`leaves
      ensures (cancelled ==> !ok) && (!ok ==> leaves == old(leaves))
      ensures ok && old(HoldsLog(leaves, log)) && start == |log| ==> HoldsLog(leaves, log + data)
    {
      ok := *;
      if cancelled { ok := false; }
      if !ok { return; }
      for li := 0 to |data|
        invariant old(HoldsLog(leaves, log)) && start == |log| ==> HoldsLog(leaves, log + data[..li])
      {
        if start + li !in leaves { leaves := leaves[start + li := data[li]]; }
        assert (log + data[..li + 1])[..|log| + li] == log + data[..li];
      }
      assert data[..|data|] == data;
    }

    /** The largest index in the leaves table. */
    method Head() returns (head: Option<nat>)
      ensures head.None? <==> leaves == map[]
      ensures head.Some? ==> head.value in leaves && forall i :: i in leaves ==> i <= head.value
    {
      head := None;
      var keys := leaves.Keys;
      while keys != {}
        invariant keys <= leaves.Keys
        invariant head.None? ==> keys == leaves.Keys
        invariant head.Some? ==> head.value in leaves && forall i :: i in leaves && i !in keys ==> i <= head.value
        decreases keys
      {
        var k :| k in keys;
        if head.None? || head.value < k { head := Some(k); }
        keys := keys - {k};
      }
      if leaves != map[] {
        var k :| k in leaves.Keys;
      }
    }

    /** The leaves with indices in [start, end), in order. */
    method StreamLeaves(start: nat, end: nat, ghost log: seq<Bytes>) returns (data: seq<Bytes>)
      ensures HoldsLog(leaves, log) && start <= |log| ==>
                data == if start <= end then log[start..if end < |log| then end else |log|] else []
    {
      data := [];
      var i := start;
      while i < end
        invariant if start <= end then start <= i <= end else i == start
        invariant HoldsLog(leaves, log) && start <= |log| ==> data == log[start..if i < |log| then i else |log|]
      {
        if i in leaves { data := data + [leaves[i]]; }
        i := i + 1;
      }
      assert start <= |log| ==> log[start..start] == [];
    }

    /** Store a checkpoint, unless one of at least its size is there already. */
    method WriteCheckpoint(size: nat, range: seq<Digest>)
      modifies this`checkpoints
      ensures checkpoints
           == if size <= LargestSize(old(checkpoints)) then old(checkpoints) else old(checkpoints)[size := range]
    {
      var latest := LatestSize();
      if size <= latest { return; }
      checkpoints := checkpoints[size := range];
    }

    method LatestSize() returns (max: nat)
      ensures max == LargestSize(checkpoints)
    {
      max := 0;
      var keys := checkpoints.Keys;
      while keys != {}
        invariant keys <= checkpoints.Keys && (max == 0 || max in checkpoints)
        invariant forall k :: k in checkpoints && k !in keys ==> k <= max
        decreases keys
      {
        var k :| k in keys;
        if max < k { max := k; }
        keys := keys - {k};
      }
      LargestIsMax(checkpoints, max);
    }

    method GetLatestCheckpoint() returns (r: Option<(nat, seq<Digest>)>)
      ensures r == Latest(checkpoints)
    {
      if checkpoints == map[] { return None; }
      var max := LatestSize();
      LargestPresent(checkpoints);
      return Some((max, checkpoints[max]));
    }
  }

  /** The largest of the keys, 0 if there are none. */
  predicate IsLargest(keys: set<nat>, max: nat) {
    (max == 0 || max in keys) && forall k :: k in keys ==> k <= max
  }

  /** The largest size in the checkpoints table, 0 if it is empty. */
  ghost function LargestSize(checkpoints: map<nat, seq<Digest>>): (max: nat)
    ensures IsLargest(checkpoints.Keys, max)
  {
    LargestExists(checkpoints.Keys);
    var max: nat :| IsLargest(checkpoints.Keys, max);
    max
  }

  lemma {:induction false} LargestExists(keys: set<nat>)
    ensures exists max: nat :: IsLargest(keys, max)
    decreases keys
  {
    if keys == {} {
      assert IsLargest(keys, 0);
    } else {
      var x :| x in keys;
      LargestExists(keys - {x});
      var m: nat :| IsLargest(keys - {x}, m);
      var max := if x > m then x else m;
      forall k | k in keys ensures k <= max {
        if k != x { assert k in keys - {x}; }
      }
      assert IsLargest(keys, max);
    }
  }

  lemma LargestIsMax(checkpoints: map<nat, seq<Digest>>, max: nat)
    requires IsLargest(checkpoints.Keys, max)
    ensures LargestSize(checkpoints) == max
  {
  }

  lemma LargestPresent(checkpoints: map<nat, seq<Digest>>)
    requires checkpoints != map[]
    ensures LargestSize(checkpoints) in checkpoints
  {
    var k :| k in checkpoints;
  }

  ghost function Latest(checkpoints: map<nat, seq<Digest>>): Option<(nat, seq<Digest>)> {
    if checkpoints == map[] then None
    else
      LargestPresent(checkpoints);
      Some((LargestSize(checkpoints), checkpoints[LargestSize(checkpoints)]))
  }
}
