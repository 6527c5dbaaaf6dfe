/** What the files of a tiled log hold over whole runs: every tile reads back as it was stored,
    and partial versions of tiles that were full when a checkpoint was published are links.  So
    it is known which trees a relative storage directory loses. */
module LogFiles {
  import opened Merkle
  import opened CompactRange
  import opened Layout
  import opened TileStore
  import opened Client
  import opened Integrate
  import opened LogRun
  import Codec

  // ----- every file reads back -----

  ghost predicate FilesBuilt(files: Files) {
    forall f :: f in files && files[f].Regular? ==> Built(files[f].tile) && Persisted(files[f].tile) == files[f].tile
  }

  ghost predicate BuiltInv(s: LogState) {
    FilesBuilt(s.files) && (s.job.Some? ==> forall k :: k in s.job.value.todo ==> Built(s.job.value.todo[k]))
  }

  lemma PersistedTwice(t: Tile)
    requires Built(t)
    ensures Built(Persisted(t)) && Persisted(Persisted(t)) == Persisted(t)
  {
  }

  lemma StartKeepsBuilt(s: LogState, o: Outcome)
    requires BuiltInv(s) && o.Updated? && Size(s) <= |s.entries|
    requires Computes(s.entries, Size(s), Reader(s, Size(s)), o)
    ensures BuiltInv(Started(s, o))
  {
    assert forall k :: Reader(s, Size(s))(k).Some? ==> Built(Reader(s, Size(s))(k).value);
  }

  lemma WriteKeepsBuilt(s: LogState, k: TileKey)
    requires BuiltInv(s) && s.job.Some? && k in s.job.value.todo
    ensures BuiltInv(Wrote(s, k))
  {
    PersistedTwice(s.job.value.todo[k]);
  }

  lemma RenameKeepsBuilt(s: LogState, p: nat)
    requires BuiltInv(s) && InRelinking(s, true)
    ensures BuiltInv(Renamed(s, p))
  {
  }

  lemma StepKeepsBuilt(s: LogState, s': LogState)
    requires BuiltInv(s) && Step(s, s')
    ensures BuiltInv(s')
  {
    if StartStep(s, s') {
      var o: Outcome :| o.Updated? && Computes(s.entries, Size(s), Reader(s, Size(s)), o) && s' == Started(s, o);
      StartKeepsBuilt(s, o);
    } else if WriteStep(s, s') {
      var k :| k in s.job.value.todo && s' == Wrote(s, k);
      WriteKeepsBuilt(s, k);
    } else if RenameStep(s, s') {
      var p :| p in s.job.value.stage.partials && s' == Renamed(s, p);
      RenameKeepsBuilt(s, p);
    } else {
      assert s'.files == s.files && (s'.job.Some? ==> s.job.Some? && s'.job.value.todo == s.job.value.todo);
    }
  }

  lemma {:induction false} BehaviorKeepsBuilt(b: seq<LogState>, i: nat)
    requires Behavior(b) && i < |b|
    ensures BuiltInv(b[i])
    decreases i
  {
    if i > 0 {
      BehaviorKeepsBuilt(b, i - 1);
      PathStep(b, i);
      StepKeepsBuilt(b[i - 1], b[i]);
    }
  }

  /** In every state of every run, the text of every tile file parses as the tile it holds. */
  lemma EveryFileReadsBack(b: seq<LogState>, i: nat, f: TileFile, hash: Digest -> Bytes)
    requires Behavior(b) && i < |b| && f in b[i].files && b[i].files[f].Regular? && Codec.BytesOfDigests(hash)
    ensures var text := Codec.TextOf(b[i].files[f].tile, hash);
            Codec.ParseTile(Codec.Join(Codec.TileLines(text))) == Codec.Parsed(text)
  {
    BehaviorKeepsBuilt(b, i);
    Codec.BuiltTileReadsBack(b[i].files[f].tile, hash);
  }

  // ----- which partial tiles are links -----

  /** All partial versions of the tile are links, but for those that are still to be done. */
  ghost predicate Relinked(files: Files, k: TileKey, todo: set<nat>) {
    forall f :: f in files && f.key == k && f.partial != 0 && f.partial !in todo ==> files[f].Link?
  }

  /** The versions of a tile that an integration still has to replace. */
  function Undone(stage: Stage, k: TileKey): set<nat> {
    if stage.Relinking? && stage.key == k then stage.partials else {}
  }

  /** Partial versions are links when the tile is full in the published tree, and when it is
      full in the tree that is being stored and has been dealt with. */
  ghost predicate RelinkInv(s: LogState) {
    (forall k :: LeavesOf(k, Size(s)) == 256 ==> Relinked(s.files, k, {}))
    && (s.job.Some? ==> forall k :: LeavesOf(k, s.high) == 256 && k !in s.job.value.todo ==>
          Relinked(s.files, k, Undone(s.job.value.stage, k)))
  }

  lemma StartKeepsRelinked(s: LogState, o: Outcome)
    requires Inv(s) && RelinkInv(s) && s.job.None? && o.Updated? && Size(s) <= |s.entries|
    requires Computes(s.entries, Size(s), Reader(s, Size(s)), o)
    ensures RelinkInv(Started(s, o))
  {
    StartKeepsInv(s, o);
    var s' := Started(s, o);
    assert Size(s') == Size(s);
    forall k | LeavesOf(k, s'.high) == 256 && k !in o.dirty ensures Relinked(s'.files, k, {}) {
      LeavesMonotone(k, Size(s), s'.high);
    }
  }

  lemma WriteKeepsRelinked(s: LogState, k: TileKey)
    requires Inv(s) && RelinkInv(s) && InStage(s, Ready) && k in s.job.value.todo
    ensures RelinkInv(Wrote(s, k))
  {
    var s' := Wrote(s, k);
    assert Size(s') == Size(s);
    forall k' | LeavesOf(k', Size(s)) == 256 ensures Relinked(s'.files, k', {}) { FullIsKept(s, k, k'); }
    forall k' | LeavesOf(k', s.high) == 256 && k' !in s'.job.value.todo
      ensures Relinked(s'.files, k', Undone(s'.job.value.stage, k'))
    {
      DealtWithIsKept(s, k, k');
    }
  }

  lemma FullIsKept(s: LogState, k: TileKey, k': TileKey)
    requires Inv(s) && RelinkInv(s) && s.job.Some? && k in s.job.value.todo && LeavesOf(k', Size(s)) == 256
    ensures Relinked(Wrote(s, k).files, k', {})
  {
    LeavesAtMostTile(k, s.high);
    assert k' != k && Relinked(s.files, k', {});
  }

  lemma DealtWithIsKept(s: LogState, k: TileKey, k': TileKey)
    requires Inv(s) && RelinkInv(s) && InStage(s, Ready) && k in s.job.value.todo
    requires LeavesOf(k', s.high) == 256 && (k' == k || k' !in s.job.value.todo)
    ensures Relinked(Wrote(s, k).files, k', Undone(Wrote(s, k).job.value.stage, k'))
  {
    if k' != k { assert Relinked(s.files, k', {}); }
  }

  lemma RenameKeepsRelinked(s: LogState, p: nat)
    requires RelinkInv(s) && InRelinking(s, true) && p in s.job.value.stage.partials
    ensures RelinkInv(Renamed(s, p))
  {
    var s', stage := Renamed(s, p), s.job.value.stage;
    assert Size(s') == Size(s);
    forall k | LeavesOf(k, Size(s)) == 256 ensures Relinked(s'.files, k, {}) { assert Relinked(s.files, k, {}); }
    forall k | LeavesOf(k, s.high) == 256 && k !in s'.job.value.todo
      ensures Relinked(s'.files, k, Undone(s'.job.value.stage, k))
    {
      assert Relinked(s.files, k, Undone(stage, k));
    }
  }

  lemma StepKeepsRelinked(s: LogState, s': LogState)
    requires Inv(s) && RelinkInv(s) && Step(s, s')
    ensures RelinkInv(s')
  {
    if StartStep(s, s') {
      var o: Outcome :| o.Updated? && Computes(s.entries, Size(s), Reader(s, Size(s)), o) && s' == Started(s, o);
      StartKeepsRelinked(s, o);
    } else if WriteStep(s, s') {
      var k :| k in s.job.value.todo && s' == Wrote(s, k);
      WriteKeepsRelinked(s, k);
    } else if RenameStep(s, s') {
      var p :| p in s.job.value.stage.partials && s' == Renamed(s, p);
      RenameKeepsRelinked(s, p);
    } else if PublishStep(s, s') {
      PublishKeepsRelinked(s);
    } else {
      OtherKeepsRelinked(s, s');
    }
  }

  lemma PublishKeepsRelinked(s: LogState)
    requires Inv(s) && RelinkInv(s) && InStage(s, Publishing)
    ensures RelinkInv(PublishedState(s))
  {
    assert Size(PublishedState(s)) == s.high;
    forall k | LeavesOf(k, s.high) == 256 ensures Relinked(s.files, k, {}) { assert Undone(Publishing, k) == {}; }
  }

  /** Steps that change neither files nor tiles, nor forget about a partial version. */
  lemma OtherKeepsRelinked(s: LogState, s': LogState)
    requires RelinkInv(s) && s'.files == s.files && s'.published == s.published && s'.high == s.high
    requires s'.job.Some? ==> s.job.Some? && s'.job.value.todo == s.job.value.todo
                              && forall k :: Undone(s'.job.value.stage, k) == Undone(s.job.value.stage, k)
    ensures RelinkInv(s')
  {
    assert Size(s') == Size(s);
  }

  lemma {:induction false} BehaviorKeepsRelinked(b: seq<LogState>, i: nat)
    requires Behavior(b) && i < |b|
    ensures Inv(b[i]) && RelinkInv(b[i])
    decreases i
  {
    BehaviorKeepsInv(b, i);
    if i == 0 {
      forall k ensures LeavesOf(k, 0) == 0 { ShrZero(k.level * 8); }
    } else {
      BehaviorKeepsRelinked(b, i - 1);
      PathStep(b, i);
      StepKeepsRelinked(b[i - 1], b[i]);
    }
  }

  // ----- which trees a relative storage directory loses -----

  /** A tile that is partial in the tree of `size` entries is full in that of n. */
  ghost predicate SomeTileFilled(size: nat, n: nat) {
    exists k :: 0 < LeavesOf(k, size) < 256 == LeavesOf(k, n)
  }

  /** Only tiles that are full in the largest tree are linked. */
  lemma LinkedIsFull(s: LogState, f: TileFile)
    requires Inv(s) && f in s.files && s.files[f].Link?
    ensures LeavesOf(f.key, s.high) == 256
  {
    var full := TileFile(f.key, 0);
    assert Written(LeafDigests(s.entries), s.high, full, s.files[full].tile);
    var n: nat :| n <= s.high && WrittenFor(LeafDigests(s.entries), n, full, s.files[full].tile);
    LeavesMonotone(f.key, n, s.high);
    LeavesAtMostTile(f.key, s.high);
  }

  lemma LeavesAtMostTile(k: TileKey, n: nat)
    ensures LeavesOf(k, n) <= 256
  {
  }

  /** With a relative storage directory, a published tree is lost in every state in which a
      checkpoint has been published that fills one of its partial tiles. */
  lemma FilledTreesAreLost(b: seq<LogState>, i: nat, c: nat)
    requires Behavior(b) && i < |b| && c < |b[i].published| && !b[i].absolute
    requires SomeTileFilled(b[i].published[c].size, Size(b[i]))
    ensures b[i].published[c].size <= |b[i].entries| && !TreeReadable(b[i], b[i].published[c].size)
  {
    var s, cp := b[i], b[i].published[c];
    BehaviorKeepsRelinked(b, i);
    assert Published(s, cp);
    WhenReadable(s, cp);
    var k :| 0 < LeavesOf(k, cp.size) < 256 == LeavesOf(k, Size(s));
    FileForLeaves(k, cp.size);
    assert Relinked(s.files, k, {}) && FileFor(k, cp.size) in s.files;
  }

  /** It can be read in every state in which no integration has begun to store such a tree. */
  lemma UnfilledTreesAreKept(b: seq<LogState>, i: nat, c: nat)
    requires Behavior(b) && i < |b| && c < |b[i].published|
    requires !SomeTileFilled(b[i].published[c].size, b[i].high)
    ensures b[i].published[c].size <= |b[i].entries| && TreeReadable(b[i], b[i].published[c].size)
  {
    var s, cp := b[i], b[i].published[c];
    BehaviorKeepsInv(b, i);
    assert Published(s, cp);
    WhenReadable(s, cp);
    if !Readable(s.files, s.absolute, cp.size) {
      var k := UnreadableTile(s.files, s.absolute, LeafDigests(s.entries), s.high, cp.size);
      LinkedIsFull(s, FileFor(k, cp.size));
    }
  }

  /** So with a relative storage directory, whenever the largest tree begun is the one last
      published, a published tree can be read exactly if none of its partial tiles is full. */
  lemma WhenTreesAreKept(b: seq<LogState>, i: nat, c: nat)
    requires Behavior(b) && i < |b| && c < |b[i].published| && !b[i].absolute && b[i].high == Size(b[i])
    ensures b[i].published[c].size <= |b[i].entries|
    ensures TreeReadable(b[i], b[i].published[c].size) <==> !SomeTileFilled(b[i].published[c].size, Size(b[i]))
  {
    if SomeTileFilled(b[i].published[c].size, Size(b[i])) {
      FilledTreesAreLost(b, i, c);
    } else {
      UnfilledTreesAreKept(b, i, c);
    }
  }
}
