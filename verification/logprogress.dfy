/** When a tiled log can go on.  A log on which no integration runs can publish another
    checkpoint exactly if nothing is left behind and its tree can be read.  Runs are built that
    publish, that lose a tree, and that get the log stuck in each of the possible ways. */
module LogProgress {
  import opened Merkle
  import opened CompactRange
  import opened Layout
  import opened TileStore
  import opened Client
  import opened Integrate
  import opened LogRun
  import opened LogFiles
  import opened LogStops
  import Witness

  // ----- a tree can be read when it is published -----

  predicate Resolves(s: LogState, f: TileFile) { f in s.files && (s.absolute || s.files[f].Regular?) }

  /** Every tile of the tree that is being stored can be read or is still to be written. */
  ghost predicate JobReads(s: LogState) {
    s.job.Some? ==> forall k :: LeavesOf(k, s.high) > 0 && k !in s.job.value.todo ==> Resolves(s, FileFor(k, s.high))
  }

  lemma StartReads(s: LogState, o: Outcome)
    requires Inv(s) && s.job.None? && o.Updated? && Size(s) <= |s.entries|
    requires Computes(s.entries, Size(s), Reader(s, Size(s)), o)
    ensures JobReads(Started(s, o))
  {
    var s', n := Started(s, o), |s.entries|;
    StartCanRead(s, o);
    assert DirtyTiles(LeafDigests(s.entries), Size(s), o.dirty) by { StartKeepsInv(s, o); }
    forall k | LeavesOf(k, n) > 0 && k !in o.dirty ensures Resolves(s', FileFor(k, n)) {
      CleanTileResolves(s, LeafDigests(s.entries), o.dirty, k);
    }
  }

  /** A tile that is not dirty has the file that the published tree needs. */
  lemma CleanTileResolves(s: LogState, row: seq<Digest>, dirty: map<TileKey, Tile>, k: TileKey)
    requires Size(s) <= |row| && Readable(s.files, s.absolute, Size(s)) && DirtyTiles(row, Size(s), dirty)
    requires LeavesOf(k, |row|) > 0 && k !in dirty
    ensures Resolves(s, FileFor(k, |row|))
  {
    LeavesMonotone(k, Size(s), |row|);
    FileForLeaves(k, |row|);
    FileForLeaves(k, Size(s));
  }

  lemma WriteReads(s: LogState, k: TileKey)
    requires s.job.Some? && JobOK(s, s.job.value) && JobReads(s) && k in s.job.value.todo
    ensures JobReads(Wrote(s, k))
  {
    FileForLeaves(k, s.high);
    var s' := Wrote(s, k);
    forall k' | LeavesOf(k', s.high) > 0 && k' !in s'.job.value.todo ensures Resolves(s', FileFor(k', s.high)) {
      if k' != k { assert Resolves(s, FileFor(k', s.high)); }
    }
  }

  /** Links take the place of partial tiles, which the new tree has no use for. */
  lemma RenameReads(s: LogState, p: nat)
    requires InRelinking(s, true) && StageOK(s, s.job.value.stage) && JobReads(s) && p in s.job.value.stage.partials
    ensures JobReads(Renamed(s, p))
  {
    var s', key := Renamed(s, p), s.job.value.stage.key;
    FileForLeaves(key, s.high);
    assert p != 0;
    forall k | LeavesOf(k, s.high) > 0 && k !in s'.job.value.todo ensures Resolves(s', FileFor(k, s.high)) {
      assert Resolves(s, FileFor(k, s.high));
    }
  }

  lemma StepKeepsReads(s: LogState, s': LogState)
    requires Inv(s) && JobReads(s) && Step(s, s')
    ensures JobReads(s')
  {
    if StartStep(s, s') {
      var o: Outcome :| o.Updated? && Computes(s.entries, Size(s), Reader(s, Size(s)), o) && s' == Started(s, o);
      StartReads(s, o);
    } else if WriteStep(s, s') {
      var k :| k in s.job.value.todo && s' == Wrote(s, k);
      WriteReads(s, k);
    } else if RenameStep(s, s') {
      var p :| p in s.job.value.stage.partials && s' == Renamed(s, p);
      RenameReads(s, p);
    } else {
      OtherStepReads(s, s');
    }
  }

  lemma OtherStepReads(s: LogState, s': LogState)
    requires JobReads(s) && s'.files == s.files && s'.absolute == s.absolute
    requires s'.job.Some? ==> s.job.Some? && s'.high == s.high && s'.job.value.todo == s.job.value.todo
    ensures JobReads(s')
  {
    if s'.job.Some? {
      forall k | LeavesOf(k, s.high) > 0 && k !in s'.job.value.todo ensures Resolves(s', FileFor(k, s.high)) {
        assert Resolves(s, FileFor(k, s.high));
      }
    }
  }

  ghost predicate Sound(s: LogState) { Inv(s) && LinkInv(s) && JobReads(s) }

  lemma StepKeepsSound(s: LogState, s': LogState)
    requires Sound(s) && Step(s, s')
    ensures Sound(s')
  {
    StepKeepsInv(s, s');
    StepKeepsReads(s, s');
    forall k | k in s'.links ensures Blocked(s', k) || OwnLink(s', k) { StepKeepsLink(s, s', k); }
  }

  lemma EmptyIsSound(absolute: bool)
    ensures Sound(Empty(absolute)) && Clear(Empty(absolute))
  {
    forall k ensures LeavesOf(k, 0) == 0 { ShrZero(k.level * 8); }
  }

  /** Publishing leaves a log that can go on. */
  lemma PublishLeavesClear(s: LogState)
    requires Sound(s) && InStage(s, Publishing)
    ensures Clear(PublishedState(s))
  {
    var s' := PublishedState(s);
    assert Size(s') == s.high;
    forall k | LeavesOf(k, s.high) > 0 ensures Resolves(s', FileFor(k, s.high)) {
      assert Resolves(s, FileFor(k, s.high));
    }
    forall k ensures k !in s.links { assert !Blocked(s, k) && !OwnLink(s, k); }
  }

  // ----- paths -----

  /** There is a run from one state to the other. */
  ghost predicate Leads(s: LogState, s': LogState) {
    exists b :: Path(b) && b[0] == s && b[|b| - 1] == s'
  }

  lemma LeadsToItself(s: LogState)
    ensures Leads(s, s)
  {
    var b := [s];
    assert Path(b) && b[0] == s && b[|b| - 1] == s;
  }

  lemma LeadsOn(s: LogState, s': LogState, s'': LogState)
    requires Leads(s, s') && Leads(s', s'')
    ensures Leads(s, s'')
  {
    var a :| Path(a) && a[0] == s && a[|a| - 1] == s';
    var c :| Path(c) && c[0] == s' && c[|c| - 1] == s'';
    var b := a + c[1..];
    PathsJoin(a, c);
    assert Path(b) && b[0] == s && b[|b| - 1] == s'';
  }

  lemma PathsJoin(a: seq<LogState>, c: seq<LogState>)
    requires Path(a) && Path(c) && a[|a| - 1] == c[0]
    ensures Path(a + c[1..])
  {
    var b := a + c[1..];
    forall i: nat | i + 1 < |b| ensures StepAt(b, i) { StepOfJoin(a, c, i); }
  }

  lemma StepOfJoin(a: seq<LogState>, c: seq<LogState>, i: nat)
    requires Path(a) && Path(c) && a[|a| - 1] == c[0] && i < |a| + |c| - 2
    ensures Step((a + c[1..])[i], (a + c[1..])[i + 1])
  {
    var b := a + c[1..];
    if i < |a| - 1 {
      assert StepAt(a, i) && b[i] == a[i] && b[i + 1] == a[i + 1];
    } else {
      var j := i - (|a| - 1);
      assert StepAt(c, j) && b[i] == c[j] && b[i + 1] == c[j + 1];
    }
  }

  lemma StepLeads(s: LogState, s': LogState)
    requires Step(s, s')
    ensures Leads(s, s')
  {
    var b := [s, s'];
    assert Path(b) && b[0] == s && b[|b| - 1] == s';
  }

  lemma {:induction false} PathKeepsSound(s: LogState, b: seq<LogState>, i: nat)
    requires Sound(s) && Path(b) && b[0] == s && i < |b|
    ensures Sound(b[i])
    decreases i
  {
    if i > 0 {
      PathKeepsSound(s, b, i - 1);
      PathStep(b, i);
      StepKeepsSound(b[i - 1], b[i]);
    }
  }

  lemma LeadsKeepsSound(s: LogState, s': LogState)
    requires Sound(s) && Leads(s, s')
    ensures Sound(s')
  {
    var b :| Path(b) && b[0] == s && b[|b| - 1] == s';
    PathKeepsSound(s, b, |b| - 1);
  }

  lemma {:induction false} PathStaysStuck(s: LogState, b: seq<LogState>, i: nat)
    requires Sound(s) && Stuck(s) && Path(b) && b[0] == s && i < |b|
    ensures Stuck(b[i]) && b[i].published == s.published
    decreases i
  {
    if i > 0 {
      PathStaysStuck(s, b, i - 1);
      PathKeepsSound(s, b, i - 1);
      PathStep(b, i);
      StepStaysStuck(b[i - 1], b[i]);
    }
  }

  lemma StuckLeadsNowhere(s: LogState)
    requires Sound(s) && Stuck(s)
    ensures !CanPublish(s)
  {
    forall b: seq<LogState> | Path(b) && b[0] == s ensures b[|b| - 1].published == s.published {
      PathStaysStuck(s, b, |b| - 1);
    }
  }

  lemma RunTo(s: LogState) returns (b: seq<LogState>)
    requires Leads(Empty(s.absolute), s)
    ensures Behavior(b) && b[0].absolute == s.absolute && b[|b| - 1] == s
  {
    b :| Path(b) && b[0] == Empty(s.absolute) && b[|b| - 1] == s;
  }

  // ----- an integration that finishes -----

  lemma {:induction false} SequenceAll(s: LogState, more: seq<Bytes>)
    ensures Leads(s, s.(entries := s.entries + more))
    decreases |more|
  {
    if more == [] {
      LeadsToItself(s);
      assert s.entries + more == s.entries;
    } else {
      var init, e := more[..|more| - 1], more[|more| - 1];
      var s1 := s.(entries := s.entries + init);
      SequenceAll(s, init);
      assert s.entries + more == s1.entries + [e];
      StepLeads(s1, s1.(entries := s1.entries + [e]));
      LeadsOn(s, s1, s.(entries := s.entries + more));
    }
  }

  /** An integration begins. */
  lemma Begin(s: LogState) returns (s': LogState)
    requires Inv(s) && s.job.None? && Readable(s.files, s.absolute, Size(s)) && Size(s) < |s.entries|
    ensures Leads(s, s') && InStage(s', Ready) && s'.job.value.cp == Witness.Checkpoint(|s.entries|, Mth(s.entries))
    ensures s' == s.(high := |s.entries|, job := s'.job)
    ensures DirtyTiles(LeafDigests(s.entries), Size(s), s'.job.value.todo)
  {
    SizeCovered(s);
    FilesFetchOK(s.files, s.absolute, LeafDigests(s.entries), s.high, Size(s), Reader(s, Size(s)));
    var o := OutcomeExists(s.entries, Size(s), Reader(s, Size(s)));
    s' := Started(s, o);
    assert StartStep(s, s');
    StepLeads(s, s');
  }

  /** All partial versions of a full tile are replaced. */
  lemma {:induction false} RelinkRest(s: LogState) returns (s': LogState)
    requires InRelinking(s, false) && s.links == {}
    ensures Leads(s, s') && s' == InNewStage(s.(files := s'.files), Ready)
    decreases |s.job.value.stage.partials|
  {
    var partials := s.job.value.stage.partials;
    if partials == {} {
      s' := InNewStage(s, Ready);
      StepLeads(s, s');
    } else {
      var p :| p in partials;
      var s2 := RelinkOne(s, p);
      s' := RelinkRest(s2);
      LeadsOn(s, s2, s');
    }
  }

  lemma RelinkOne(s: LogState, p: nat) returns (s': LogState)
    requires InRelinking(s, false) && s.links == {} && p in s.job.value.stage.partials
    ensures Leads(s, s') && s' == Renamed(Linked(s), p) && s'.links == {}
  {
    s' := Renamed(Linked(s), p);
    StepLeads(s, Linked(s));
    assert RenameStep(Linked(s), s');
    StepLeads(Linked(s), s');
    LeadsOn(s, Linked(s), s');
  }

  /** All dirty tiles are stored. */
  lemma {:induction false} WriteAll(s: LogState) returns (s': LogState)
    requires InStage(s, Ready) && s.links == {}
    ensures Leads(s, s') && s' == s.(files := s'.files, job := Some(s.job.value.(todo := map[])))
    decreases |s.job.value.todo|
  {
    var todo := s.job.value.todo;
    if todo == map[] {
      LeadsToItself(s);
      return s;
    }
    var k :| k in todo;
    var s1 := Wrote(s, k);
    assert WriteStep(s, s1);
    StepLeads(s, s1);
    var s2 := s1;
    if s1.job.value.stage.Relinking? {
      s2 := RelinkRest(s1);
      LeadsOn(s, s1, s2);
    }
    FewerKeys(todo, k);
    s' := WriteAll(s2);
    LeadsOn(s, s2, s');
  }

  lemma FewerKeys<K, V>(m: map<K, V>, k: K)
    requires k in m
    ensures |m - {k}| < |m|
  {
    assert (m - {k}).Keys == m.Keys - {k};
    assert |(m - {k}).Keys| == |m - {k}| && |m.Keys| == |m|;
  }

  /** From a clear state, the checkpoint gets written to its temporary file. */
  lemma AlmostPublish(s: LogState) returns (s': LogState)
    requires Inv(s) && s.job.None? && Clear(s) && Size(s) < |s.entries|
    ensures Leads(s, s') && InStage(s', Publishing)
    ensures s'.job.value.cp == Witness.Checkpoint(|s.entries|, Mth(s.entries))
    ensures s' == s.(files := s'.files, cpTmp := true, high := |s.entries|, job := s'.job)
  {
    var s1 := Begin(s);
    var s2 := WriteAll(s1);
    LeadsOn(s, s1, s2);
    s' := InNewStage(s2.(cpTmp := true), Publishing);
    StepLeads(s2, s');
    LeadsOn(s, s2, s');
  }

  /** From a clear state, an integration can publish the tree of all entries. */
  lemma Publish(s: LogState) returns (s': LogState)
    requires Sound(s) && s.job.None? && Clear(s) && Size(s) < |s.entries|
    ensures Leads(s, s') && Sound(s') && Clear(s')
    ensures var cp := Witness.Checkpoint(|s.entries|, Mth(s.entries));
            s' == s.(files := s'.files, published := s.published + [cp], high := |s.entries|)
  {
    var s1 := AlmostPublish(s);
    s' := PublishedState(s1);
    LeadsKeepsSound(s, s1);
    PublishLeavesClear(s1);
    StepLeads(s1, s');
    LeadsOn(s, s1, s');
    LeadsKeepsSound(s, s');
  }

  lemma MoreSequenced(s: LogState, more: seq<Bytes>)
    requires Sound(s) && Clear(s)
    ensures var s' := s.(entries := s.entries + more); Leads(s, s') && Sound(s') && Clear(s')
  {
    var s' := s.(entries := s.entries + more);
    SequenceAll(s, more);
    LeadsKeepsSound(s, s');
    StaysClear(s, more);
  }

  lemma StaysClear(s: LogState, more: seq<Bytes>)
    requires Clear(s)
    ensures Clear(s.(entries := s.entries + more))
  {
    assert Size(s.(entries := s.entries + more)) == Size(s);
  }

  // ----- exactly when the log goes on -----

  /** Some continuation publishes another checkpoint. */
  ghost predicate CanPublish(s: LogState) {
    exists s' :: Leads(s, s') && s'.published != s.published
  }

  lemma ClearGoesOn(s: LogState)
    requires Sound(s) && s.job.None? && Clear(s)
    ensures CanPublish(s)
  {
    var s1 := s.(entries := s.entries + [[]]);
    MoreSequenced(s, [[]]);
    SizeWithin(s);
    var s2 := Publish(s1);
    LeadsOn(s, s1, s2);
  }

  lemma SizeWithin(s: LogState)
    requires Inv(s)
    ensures Size(s) <= |s.entries|
  {
    if s.published != [] { assert Published(s, s.published[|s.published| - 1]); }
  }

  lemma WhenSoundLogGoesOn(s: LogState)
    requires Sound(s) && s.job.None?
    ensures CanPublish(s) <==> Clear(s)
  {
    StuckOrClear(s);
    if Clear(s) {
      ClearGoesOn(s);
    } else {
      StuckLeadsNowhere(s);
    }
  }

  lemma {:induction false} BehaviorKeepsSound(b: seq<LogState>, i: nat)
    requires Behavior(b) && i < |b|
    ensures Sound(b[i])
    decreases i
  {
    EmptyIsSound(b[0].absolute);
    if i > 0 {
      BehaviorKeepsSound(b, i - 1);
      PathStep(b, i);
      StepKeepsSound(b[i - 1], b[i]);
    }
  }

  /** In every state of every run in which no integration runs: another checkpoint can be
      published exactly if no temporary file or link is left behind and the published tree can
      be read. */
  lemma WhenTheLogGoesOn(b: seq<LogState>, i: nat)
    requires Behavior(b) && i < |b| && b[i].job.None?
    ensures CanPublish(b[i]) <==> Clear(b[i])
  {
    BehaviorKeepsSound(b, i);
    WhenSoundLogGoesOn(b[i]);
  }

  /** Whenever a checkpoint has just been published, the log is clear. */
  lemma EveryPublicationIsClear(b: seq<LogState>, i: nat)
    requires Behavior(b) && 0 < i < |b| && b[i].published != b[i - 1].published
    ensures b[i].job.None? && Clear(b[i])
  {
    BehaviorKeepsSound(b, i - 1);
    PathStep(b, i);
    OnlyPublishing(b[i - 1], b[i]);
    PublishLeavesClear(b[i - 1]);
  }

  lemma OnlyPublishing(s: LogState, s': LogState)
    requires Step(s, s') && s'.published != s.published
    ensures PublishStep(s, s')
  {
  }

  // ----- ways to get stuck -----

  /** The tile is partial in the published tree and full with all entries. */
  ghost predicate Fills(s: LogState, k: TileKey) {
    0 < LeavesOf(k, Size(s)) < 256 == LeavesOf(k, |s.entries|)
  }

  /** A tile that has become full is written, and the first link is made. */
  lemma WriteAndLink(s: LogState, k: TileKey, p: nat) returns (s': LogState)
    requires InStage(s, Ready) && s.links == {} && k in s.job.value.todo && s.job.value.todo[k].numLeaves == 256
    requires p != 0 && TileFile(k, p) in s.files
    ensures Leads(s, s') && OwnLink(s', k) && p in s'.job.value.stage.partials && TileFile(k, p) in s'.files
    ensures s' == s.(files := s'.files, links := {k}, job := s'.job)
  {
    var s1 := Wrote(s, k);
    assert WriteStep(s, s1);
    StepLeads(s, s1);
    assert TileFile(k, p) in s1.files && p in PartialsOf(s1.files, k);
    assert s1.job.value.stage == Relinking(k, PartialsOf(s1.files, k), false);
    s' := Linked(s1);
    assert LinkStep(s1, s');
    StepLeads(s1, s');
    LeadsOn(s, s1, s');
  }

  lemma PartialFile(k: TileKey, n: nat)
    requires 0 < LeavesOf(k, n) < 256
    ensures FileFor(k, n) == TileFile(k, LeavesOf(k, n))
  {
    FileForLeaves(k, n);
  }

  lemma FilledIsDirty(row: seq<Digest>, size: nat, dirty: map<TileKey, Tile>, k: TileKey)
    requires DirtyTiles(row, size, dirty) && LeavesOf(k, size) < 256 == LeavesOf(k, |row|)
    ensures k in dirty && dirty[k].numLeaves == 256
  {
  }

  /** An integration that fills a partial tile gets as far as having made a link. */
  lemma LinkMade(s: LogState, k: TileKey) returns (s': LogState)
    requires Inv(s) && s.job.None? && Clear(s) && Size(s) < |s.entries| && Fills(s, k)
    ensures Leads(s, s') && OwnLink(s', k) && LeavesOf(k, Size(s)) in s'.job.value.stage.partials
    ensures FileFor(k, Size(s)) == TileFile(k, LeavesOf(k, Size(s))) && FileFor(k, Size(s)) in s'.files
    ensures s' == s.(files := s'.files, links := {k}, high := |s.entries|, job := s'.job)
  {
    PartialFile(k, Size(s));
    assert FileFor(k, Size(s)) in s.files;
    var s1 := Begin(s);
    FilledIsDirty(LeafDigests(s.entries), Size(s), s1.job.value.todo, k);
    s' := WriteAndLink(s1, k, LeavesOf(k, Size(s)));
    LeadsOn(s, s1, s');
  }

  lemma Stops(s: LogState)
    ensures Leads(s, s.(job := None))
  {
    StepLeads(s, s.(job := None));
  }

  /** Every integration that fills a partial tile can leave its link behind. */
  lemma LinkCanBeLeft(s: LogState, k: TileKey) returns (s': LogState)
    requires Sound(s) && s.job.None? && Clear(s) && Size(s) < |s.entries| && Fills(s, k)
    ensures Leads(s, s') && Blocked(s', k) && s' == s.(files := s'.files, links := {k}, high := |s.entries|)
  {
    var s1 := LinkMade(s, k);
    s' := s1.(job := None);
    LeadsKeepsSound(s, s1);
    StopBetweenBlocks(s1, k);
    Stops(s1);
    LeadsOn(s, s1, s');
  }

  /** With a relative storage directory it can also leave the published tree unreadable. */
  lemma TreeCanDangle(s: LogState, k: TileKey) returns (s': LogState)
    requires Sound(s) && s.job.None? && Clear(s) && Size(s) < |s.entries| && Fills(s, k) && !s.absolute
    ensures Leads(s, s') && Dangling(s') && s' == s.(files := s'.files, high := |s.entries|)
  {
    var p := LeavesOf(k, Size(s));
    var s1 := LinkMade(s, k);
    var s2 := Renamed(s1, p);
    assert RenameStep(s1, s2);
    StepLeads(s1, s2);
    LeadsOn(s, s1, s2);
    s' := s2.(job := None);
    Stops(s2);
    LeadsOn(s, s2, s');
    assert Size(s') == Size(s);
    LinkDangles(s', k);
  }

  lemma LinkDangles(s: LogState, k: TileKey)
    requires s.job.None? && !s.absolute && LeavesOf(k, Size(s)) > 0
    requires FileFor(k, Size(s)) in s.files && s.files[FileFor(k, Size(s))].Link?
    ensures Dangling(s)
  {
  }

  /** Every integration can leave its temporary checkpoint behind. */
  lemma CheckpointCanBeLeft(s: LogState) returns (s': LogState)
    requires Sound(s) && s.job.None? && Clear(s) && Size(s) < |s.entries|
    ensures Leads(s, s') && CheckpointLeft(s') && s' == s.(files := s'.files, cpTmp := true, high := |s.entries|)
  {
    var s1 := AlmostPublish(s);
    s' := s1.(job := None);
    Stops(s1);
    LeadsOn(s, s1, s');
  }

  // ----- runs from the empty log -----

  lemma OnePublished(absolute: bool, e: Bytes) returns (s: LogState)
    ensures Leads(Empty(absolute), s) && Sound(s) && Clear(s) && s.job.None? && s.absolute == absolute
    ensures s.entries == [e] && s.published == [Witness.Checkpoint(1, Mth([e]))]
  {
    var s1 := Empty(absolute).(entries := [e]);
    OneSequenced(absolute, e);
    s := Publish(s1);
    LeadsOn(Empty(absolute), s1, s);
  }

  lemma OneSequenced(absolute: bool, e: Bytes)
    ensures var s := Empty(absolute).(entries := [e]); Leads(Empty(absolute), s) && Sound(s) && Clear(s)
  {
    EmptyIsSound(absolute);
    MoreSequenced(Empty(absolute), [e]);
    assert Empty(absolute).entries + [e] == [e];
  }

  /** One entry is published, then others are sequenced. */
  lemma OneThenMore(absolute: bool, entries: seq<Bytes>) returns (s: LogState)
    requires entries != []
    ensures Leads(Empty(absolute), s) && Sound(s) && Clear(s) && s.job.None? && s.absolute == absolute
    ensures s.entries == entries && s.published == [Witness.Checkpoint(1, Mth([entries[0]]))]
  {
    var s1 := OnePublished(absolute, entries[0]);
    MoreSequenced(s1, entries[1..]);
    s := s1.(entries := s1.entries + entries[1..]);
    LeadsOn(Empty(absolute), s1, s);
    assert [entries[0]] + entries[1..] == entries;
  }

  /** The first tile is filled by 256 entries. */
  lemma FirstTileFills(s: LogState)
    requires Size(s) == 1 && |s.entries| == 256
    ensures Fills(s, TileKey(0, 0))
  {
  }

  /** For any 256 entries there is a run that publishes the first one and leaves a temporary
      link behind. */
  lemma RunLeavesLink(absolute: bool, entries: seq<Bytes>) returns (b: seq<LogState>)
    requires |entries| == 256
    ensures Behavior(b) && b[0].absolute == absolute
    ensures var s := b[|b| - 1]; s.entries == entries && |s.published| == 1 && Blocked(s, TileKey(0, 0))
  {
    var s := OneThenMore(absolute, entries);
    FirstTileFills(s);
    var s' := LinkCanBeLeft(s, TileKey(0, 0));
    LeadsOn(Empty(absolute), s, s');
    b := RunTo(s');
  }

  /** With a relative directory there is one that leaves the published tree unreadable. */
  lemma RunLeavesDanglingTree(entries: seq<Bytes>) returns (b: seq<LogState>)
    requires |entries| == 256
    ensures Behavior(b) && !b[0].absolute
    ensures var s := b[|b| - 1]; s.entries == entries && |s.published| == 1 && Dangling(s) && !TreeReadable(s, 1)
  {
    var s := OneThenMore(false, entries);
    FirstTileFills(s);
    var s' := TreeCanDangle(s, TileKey(0, 0));
    LeadsOn(Empty(false), s, s');
    LeadsKeepsSound(s, s');
    OneTreeDangles(s');
    b := RunTo(s');
  }

  lemma OneTreeDangles(s: LogState)
    requires Inv(s) && |s.published| == 1 && s.published[0].size == 1 && Dangling(s)
    ensures 1 <= |s.entries| && !TreeReadable(s, 1)
  {
    assert Published(s, s.published[0]);
    WhenReadable(s, s.published[0]);
  }

  /** There is one that leaves a temporary checkpoint behind. */
  lemma RunLeavesCheckpoint(absolute: bool, entries: seq<Bytes>) returns (b: seq<LogState>)
    requires |entries| > 1
    ensures Behavior(b) && b[0].absolute == absolute
    ensures var s := b[|b| - 1]; s.entries == entries && |s.published| == 1 && CheckpointLeft(s)
  {
    var s := OneThenMore(absolute, entries);
    var s' := CheckpointCanBeLeft(s);
    LeadsOn(Empty(absolute), s, s');
    b := RunTo(s');
  }

  /** With a relative directory a run without any failure publishes a tree and loses it. */
  lemma RunLosesTree(entries: seq<Bytes>) returns (b: seq<LogState>)
    requires |entries| == 256
    ensures Behavior(b) && !b[0].absolute
    ensures var s := b[|b| - 1];
            s.entries == entries && Clear(s) && |s.published| == 2 && s.published[0].size == 1 && !TreeReadable(s, 1)
  {
    var s := OneThenMore(false, entries);
    FirstTileFills(s);
    var s' := Publish(s);
    LeadsOn(Empty(false), s, s');
    b := RunTo(s');
    FirstTreeIsLost(b);
  }

  lemma FirstTreeIsLost(b: seq<LogState>)
    requires Behavior(b)
    requires var s := b[|b| - 1];
             !s.absolute && |s.published| == 2 && s.published[0].size == 1 && s.published[1].size == 256
    ensures 1 <= |b[|b| - 1].entries| && !TreeReadable(b[|b| - 1], 1)
  {
    assert LeavesOf(TileKey(0, 0), 1) == 1 && LeavesOf(TileKey(0, 0), 256) == 256;
    FilledTreesAreLost(b, |b| - 1, 0);
  }
}
