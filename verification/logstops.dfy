/** How a tiled log can stop for good: an integration dies and leaves behind a temporary link, a
    temporary checkpoint, or links that do not resolve.  Then nothing is published any more. */
module LogStops {
  import opened Merkle
  import opened CompactRange
  import opened Layout
  import opened TileStore
  import opened Client
  import opened Integrate
  import opened LogRun
  import opened LogFiles

  /** The tile is full in the tree that was being stored and not in the published one, and
      there is a temporary link for it that is not the running integration's. */
  ghost predicate Blocked(s: LogState, k: TileKey) {
    k in s.links && LeavesOf(k, Size(s)) < LeavesOf(k, s.high) == 256
    && (s.job.Some? ==>
          var stage := s.job.value.stage;
          if stage.Relinking? && stage.key == k then !stage.made else k in s.job.value.todo)
  }

  /** There is a temporary checkpoint that is not the running integration's. */
  predicate CheckpointLeft(s: LogState) { s.cpTmp && !InStage(s, Publishing) }

  /** No integration runs, and a partial tile of the published tree does not resolve. */
  ghost predicate Dangling(s: LogState) { s.job.None? && !Readable(s.files, s.absolute, Size(s)) }

  ghost predicate Stuck(s: LogState) { (exists k :: Blocked(s, k)) || CheckpointLeft(s) || Dangling(s) }

  // ----- stuck for good -----

  lemma StartStaysBlocked(s: LogState, o: Outcome, k: TileKey)
    requires Inv(s) && Blocked(s, k) && s.job.None? && o.Updated? && Size(s) <= |s.entries|
    requires Computes(s.entries, Size(s), Reader(s, Size(s)), o)
    ensures Blocked(Started(s, o), k)
  {
    StartKeepsInv(s, o);
    LeavesMonotone(k, s.high, |s.entries|);
    LeavesAtMostTile(k, |s.entries|);
  }

  lemma WriteStaysBlocked(s: LogState, k: TileKey, k': TileKey)
    requires Blocked(s, k) && InStage(s, Ready) && JobOK(s, s.job.value) && k' in s.job.value.todo
    ensures Blocked(Wrote(s, k'), k)
  {
    assert k' == k ==> s.job.value.todo[k'].numLeaves == 256;
    assert Size(Wrote(s, k')) == Size(s);
  }

  lemma RelinkingStaysBlocked(s: LogState, s': LogState, k: TileKey)
    requires Blocked(s, k) && (LinkStep(s, s') || RenameStep(s, s') || TileDoneStep(s, s'))
    ensures Blocked(s', k) && s'.published == s.published
  {
    assert Size(s') == Size(s);
    if RenameStep(s, s') { assert s.job.value.stage.key != k; }
  }

  lemma StepStaysBlocked(s: LogState, s': LogState, k: TileKey)
    requires Inv(s) && Blocked(s, k) && Step(s, s')
    ensures Blocked(s', k) && s'.published == s.published
  {
    if StartStep(s, s') {
      var o: Outcome :| o.Updated? && Computes(s.entries, Size(s), Reader(s, Size(s)), o) && s' == Started(s, o);
      StartStaysBlocked(s, o, k);
    } else if WriteStep(s, s') {
      var k' :| k' in s.job.value.todo && s' == Wrote(s, k');
      WriteStaysBlocked(s, k, k');
    } else if LinkStep(s, s') || RenameStep(s, s') || TileDoneStep(s, s') {
      RelinkingStaysBlocked(s, s', k);
    } else {
      OtherStepStaysBlocked(s, s', k);
    }
  }

  /** An integration that is blocked does not get as far as publishing. */
  lemma OtherStepStaysBlocked(s: LogState, s': LogState, k: TileKey)
    requires Blocked(s, k) && PublishingOK(s)
    requires SequenceStep(s, s') || StopStep(s, s') || CheckpointStep(s, s') || PublishStep(s, s')
    ensures Blocked(s', k) && s'.published == s.published
  {
    assert !InStage(s, Publishing) && !CheckpointStep(s, s');
    assert Size(s') == Size(s);
  }

  lemma StepKeepsCheckpointLeft(s: LogState, s': LogState)
    requires CheckpointLeft(s) && Step(s, s')
    ensures CheckpointLeft(s') && s'.published == s.published
  {
  }

  lemma StepKeepsDangling(s: LogState, s': LogState)
    requires Inv(s) && Dangling(s) && Step(s, s')
    ensures Dangling(s') && s'.published == s.published
  {
    if StartStep(s, s') {
      var o: Outcome :| o.Updated? && Computes(s.entries, Size(s), Reader(s, Size(s)), o) && s' == Started(s, o);
      StartCanRead(s, o);
    }
    assert Size(s') == Size(s);
  }

  lemma StepStaysStuck(s: LogState, s': LogState)
    requires Inv(s) && Stuck(s) && Step(s, s')
    ensures Stuck(s') && s'.published == s.published
  {
    if CheckpointLeft(s) {
      StepKeepsCheckpointLeft(s, s');
    } else if Dangling(s) {
      StepKeepsDangling(s, s');
    } else {
      var k :| Blocked(s, k);
      StepStaysBlocked(s, s', k);
    }
  }

  /** From a stuck state on, nothing is published any more in any continuation of the run. */
  lemma {:induction false} StuckForGood(b: seq<LogState>, i: nat, j: nat)
    requires Behavior(b) && i <= j < |b| && Stuck(b[i])
    ensures Stuck(b[j]) && b[j].published == b[i].published
    decreases j
  {
    if i < j {
      StuckForGood(b, i, j - 1);
      StuckNext(b, j);
    }
  }

  lemma StuckNext(b: seq<LogState>, j: nat)
    requires Behavior(b) && 0 < j < |b| && Stuck(b[j - 1])
    ensures Stuck(b[j]) && b[j].published == b[j - 1].published
  {
    BehaviorKeepsInv(b, j - 1);
    PathStep(b, j);
    StepStaysStuck(b[j - 1], b[j]);
  }

  // ----- whatever is left behind makes the log stuck -----

  /** Every temporary link is that of the running integration, or blocks. */
  ghost predicate LinkInv(s: LogState) {
    forall k :: k in s.links ==> Blocked(s, k) || OwnLink(s, k)
  }

  predicate OwnLink(s: LogState, k: TileKey) { InRelinking(s, true) && s.job.value.stage.key == k }

  /** An integration that stops between making a link and renaming it leaves it behind. */
  lemma StopBetweenBlocks(s: LogState, k: TileKey)
    requires OwnLink(s, k) && StageOK(s, s.job.value.stage)
    ensures StopStep(s, s.(job := None)) && Blocked(s.(job := None), k)
  {
    assert Size(s.(job := None)) == Size(s);
  }

  lemma StepKeepsLink(s: LogState, s': LogState, k: TileKey)
    requires Inv(s) && LinkInv(s) && Step(s, s') && k in s'.links
    ensures Blocked(s', k) || OwnLink(s', k)
  {
    if k !in s.links {
      NewLinkIsOwn(s, s', k);
    } else if Blocked(s, k) {
      StepStaysBlocked(s, s', k);
    } else if StopStep(s, s') {
      StopBetweenBlocks(s, k);
    } else {
      OwnLinkStays(s, s', k);
    }
  }

  lemma NewLinkIsOwn(s: LogState, s': LogState, k: TileKey)
    requires Step(s, s') && k !in s.links && k in s'.links
    ensures OwnLink(s', k)
  {
  }

  lemma OwnLinkStays(s: LogState, s': LogState, k: TileKey)
    requires Step(s, s') && !StopStep(s, s') && OwnLink(s, k) && k in s'.links
    ensures OwnLink(s', k)
  {
  }

  lemma {:induction false} BehaviorKeepsLinks(b: seq<LogState>, i: nat)
    requires Behavior(b) && i < |b|
    ensures Inv(b[i]) && LinkInv(b[i])
    decreases i
  {
    BehaviorKeepsInv(b, i);
    if i > 0 {
      BehaviorKeepsLinks(b, i - 1);
      PathStep(b, i);
      forall k | k in b[i].links ensures Blocked(b[i], k) || OwnLink(b[i], k) {
        StepKeepsLink(b[i - 1], b[i], k);
      }
    }
  }

  /** Nothing is left behind, and the published tree can be read. */
  ghost predicate Clear(s: LogState) {
    s.links == {} && !s.cpTmp && Readable(s.files, s.absolute, Size(s))
  }

  /** When no integration runs, the log is stuck exactly if something is left behind. */
  lemma StuckOrClear(s: LogState)
    requires LinkInv(s) && s.job.None?
    ensures Stuck(s) <==> !Clear(s)
  {
    if s.links != {} {
      var k :| k in s.links;
      assert Blocked(s, k);
    }
  }
}
