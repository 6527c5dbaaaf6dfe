/** The life of a tiled log on disk: entries are sequenced, integrations write tile files one
    by one, may stop at any point and are run again, partial tiles are relinked, and
    checkpoints are published.  Every node of every published tree stays readable if the
    storage directory is given by an absolute path; otherwise exactly as long as no partial
    tile of the tree has been relinked. */
module LogRun {
  import opened Merkle
  import opened CompactRange
  import opened Layout
  import opened TileStore
  import opened Client
  import opened Witness
  import opened Integrate

  /** What an integration is doing: about to write a tile, replacing the partial versions of a
      tile that has become full by links, or publishing.  Links and checkpoints are made under
      a temporary name, then renamed. */
  datatype Stage = Ready | Relinking(key: TileKey, partials: set<nat>, made: bool) | Publishing

  /** An integration that has computed its tiles and is storing them. */
  datatype Job = Job(cp: Checkpoint, todo: map<TileKey, Tile>, stage: Stage)

  /** `absolute` says how the storage directory is given; `links` are the tiles with a temporary
      link, and `cpTmp` says whether there is a temporary checkpoint file; `high` is the size of
      the largest tree any integration has begun to store. */
  datatype LogState = LogState(
    absolute: bool,
    entries: seq<Bytes>,
    files: Files,
    links: set<TileKey>,
    published: seq<Checkpoint>,
    cpTmp: bool,
    high: nat,
    job: Option<Job>)

  /** The size of the latest checkpoint, from which integration starts. */
  function Size(s: LogState): nat {
    if s.published == [] then 0 else s.published[|s.published| - 1].size
  }

  function Reader(s: LogState, size: nat): GetTileFunc {
    (k: TileKey) => GetTile(s.files, s.absolute, k, size)
  }

  function Empty(absolute: bool): LogState { LogState(absolute, [], map[], {}, [], false, 0, None) }

  predicate Init(s: LogState) { s == Empty(s.absolute) }

  ghost predicate Step(s: LogState, s': LogState) {
    SequenceStep(s, s') || StartStep(s, s') || WriteStep(s, s') || LinkStep(s, s') || RenameStep(s, s')
    || TileDoneStep(s, s') || StopStep(s, s') || CheckpointStep(s, s') || PublishStep(s, s')
  }

  /** Another entry gets the next sequence number. */
  ghost predicate SequenceStep(s: LogState, s': LogState) {
    exists e :: s' == s.(entries := s.entries + [e])
  }

  /** An integration reads the log and computes the dirty tiles. */
  ghost predicate StartStep(s: LogState, s': LogState) {
    s.job.None? && Size(s) <= |s.entries|
    && exists o: Outcome ::
         o.Updated? && Computes(s.entries, Size(s), Reader(s, Size(s)), o) && s' == Started(s, o)
  }

  function Started(s: LogState, o: Outcome): LogState
    requires o.Updated?
  {
    s.(high := |s.entries|, job := Some(Job(o.cp, o.dirty, Ready)))
  }

  predicate InStage(s: LogState, stage: Stage) { s.job.Some? && s.job.value.stage == stage }

  /** One dirty tile is written, in any order. */
  ghost predicate WriteStep(s: LogState, s': LogState) {
    InStage(s, Ready) && exists k :: k in s.job.value.todo && s' == Wrote(s, k)
  }

  function Wrote(s: LogState, k: TileKey): LogState
    requires s.job.Some? && k in s.job.value.todo
  {
    var job, t := s.job.value, s.job.value.todo[k];
    var files := Put(s.files, k, t);
    var stage := if t.numLeaves == 256 then Relinking(k, PartialsOf(files, k), false) else Ready;
    s.(files := files, job := Some(Job(job.cp, job.todo - {k}, stage)))
  }

  function InNewStage(s: LogState, stage: Stage): LogState
    requires s.job.Some?
  {
    s.(job := Some(s.job.value.(stage := stage)))
  }

  predicate InRelinking(s: LogState, made: bool) {
    s.job.Some? && s.job.value.stage.Relinking? && s.job.value.stage.made == made
  }

  function Linked(s: LogState): LogState
    requires InRelinking(s, false)
  {
    var stage := s.job.value.stage;
    InNewStage(s.(links := s.links + {stage.key}), stage.(made := true))
  }

  /** A temporary link to the full tile is made; this cannot be done if there is one. */
  ghost predicate LinkStep(s: LogState, s': LogState) {
    InRelinking(s, false) && s.job.value.stage.partials != {} && s.job.value.stage.key !in s.links && s' == Linked(s)
  }

  /** It is renamed over a partial tile. */
  ghost predicate RenameStep(s: LogState, s': LogState) {
    InRelinking(s, true) && exists p :: p in s.job.value.stage.partials && s' == Renamed(s, p)
  }

  function Renamed(s: LogState, p: nat): LogState
    requires InRelinking(s, true)
  {
    var stage := s.job.value.stage;
    var files := Relink(s.files, TileFile(stage.key, p));
    InNewStage(s.(links := s.links - {stage.key}, files := files), Relinking(stage.key, stage.partials - {p}, false))
  }

  /** All partial versions are done; a temporary link left by another integration would have
      been taken for one of them, and failed. */
  ghost predicate TileDoneStep(s: LogState, s': LogState) {
    InRelinking(s, false) && s.job.value.stage.partials == {} && s.job.value.stage.key !in s.links
    && s' == InNewStage(s, Ready)
  }

  /** The integration dies or fails; what it has written stays. */
  ghost predicate StopStep(s: LogState, s': LogState) {
    s' == s.(job := None)
  }

  /** All tiles are stored, and the new checkpoint is written to a temporary file; this cannot
      be done if there is one. */
  ghost predicate CheckpointStep(s: LogState, s': LogState) {
    InStage(s, Ready) && s.job.value.todo == map[] && !s.cpTmp && s' == InNewStage(s.(cpTmp := true), Publishing)
  }

  /** It is renamed. */
  ghost predicate PublishStep(s: LogState, s': LogState) {
    InStage(s, Publishing) && s' == PublishedState(s)
  }

  function PublishedState(s: LogState): LogState
    requires s.job.Some?
  {
    s.(published := s.published + [s.job.value.cp], cpTmp := false, job := None)
  }

  ghost predicate StepAt(b: seq<LogState>, i: nat) { i + 1 < |b| && Step(b[i], b[i + 1]) }

  ghost predicate Path(b: seq<LogState>) {
    b != [] && forall i: nat :: i + 1 < |b| ==> StepAt(b, i)
  }

  /** A run of the log. */
  ghost predicate Behavior(b: seq<LogState>) { Path(b) && Init(b[0]) }

  // ----- the invariant -----

  ghost predicate Inv(s: LogState) {
    s.high <= |s.entries| && FilesOK(s.files, LeafDigests(s.entries), s.high)
    && (forall i :: 0 <= i < |s.published| ==> Published(s, s.published[i]))
    && (forall i, j :: 0 <= i < j < |s.published| ==> s.published[i].size < s.published[j].size)
    && (s.job.Some? ==> JobOK(s, s.job.value) && StageOK(s, s.job.value.stage)) && PublishingOK(s)
  }

  /** The checkpoint is that of a prefix of the entries, and all its tiles have files. */
  ghost predicate Published(s: LogState, cp: Checkpoint) {
    0 < cp.size <= s.high && cp.size <= |s.entries| && cp.hash == Mth(s.entries[..cp.size]) && Covers(s.files, cp.size)
  }

  ghost predicate JobOK(s: LogState, job: Job) {
    var n := job.cp.size;
    Size(s) < n == s.high && n <= |s.entries| && job.cp.hash == Mth(s.entries[..n])
    && (forall k :: k in job.todo ==>
          job.todo[k].numLeaves == LeavesOf(k, n) > LeavesOf(k, Size(s))
          && Complete(LeafDigests(s.entries), n, k, job.todo[k]))
    && (forall k :: LeavesOf(k, n) > 0 ==> k in job.todo || FileFor(k, n) in s.files)
  }

  /** Links are made for a tile that has become full, to its full file, and for partial files. */
  ghost predicate StageOK(s: LogState, stage: Stage) {
    stage.Relinking? ==>
      LeavesOf(stage.key, Size(s)) < LeavesOf(stage.key, s.high) == 256
      && TileFile(stage.key, 0) in s.files && stage.partials <= PartialsOf(s.files, stage.key)
      && (stage.made ==> stage.key in s.links)
  }

  ghost predicate PublishingOK(s: LogState) {
    InStage(s, Publishing) ==> s.job.value.todo == map[] && s.cpTmp
  }

  lemma EntriesGrow(entries: seq<Bytes>, e: Bytes)
    ensures LeafDigests(entries + [e])[..|entries|] == LeafDigests(entries)
  {
  }

  lemma CompleteWithMoreEntries(row: seq<Digest>, more: seq<Digest>, n: nat, k: TileKey, t: Tile)
    requires n <= |row| <= |more| && more[..|row|] == row && Complete(row, n, k, t)
    ensures Complete(more, n, k, t)
  {
    forall id: NodeId | TileOf(id) == k && id.index < Shr(n, id.level)
      ensures id.index < Shr(|more|, id.level) && HoldsNode(more, t, id)
    {
      ShrMonotone(n, |row|, id.level);
      NodeAtPrefix(more, |row|, id.level, id.index);
      assert HoldsNode(row, t, id);
    }
  }

  lemma SequenceKeepsInv(s: LogState, e: Bytes)
    requires Inv(s)
    ensures Inv(s.(entries := s.entries + [e]))
  {
    var s' := s.(entries := s.entries + [e]);
    var row, more := LeafDigests(s.entries), LeafDigests(s'.entries);
    EntriesGrow(s.entries, e);
    FilesKeepWithMoreEntries(s.files, row, more, s.high);
    assert forall n :: 0 <= n <= |s.entries| ==> s'.entries[..n] == s.entries[..n];
    forall i | 0 <= i < |s'.published| ensures Published(s', s'.published[i]) {
      assert Published(s, s.published[i]);
    }
    if s.job.Some? {
      forall k | k in s.job.value.todo ensures Complete(more, s.job.value.cp.size, k, s.job.value.todo[k]) {
        CompleteWithMoreEntries(row, more, s.job.value.cp.size, k, s.job.value.todo[k]);
      }
    }
  }

  lemma SizeCovered(s: LogState)
    requires Inv(s)
    ensures Size(s) <= s.high && Covers(s.files, Size(s))
  {
    if s.published == [] {
      forall k ensures LeavesOf(k, 0) == 0 { ShrZero(k.level * 8); }
    } else {
      assert Published(s, s.published[|s.published| - 1]);
    }
  }

  lemma {:induction false} ShrZero(level: nat)
    ensures Shr(0, level) == 0
    decreases level
  {
    if level > 0 { ShrZero(level - 1); }
  }

  /** An integration gets as far as an update only if it can read the published tree. */
  lemma StartCanRead(s: LogState, o: Outcome)
    requires Inv(s) && o.Updated? && Size(s) <= |s.entries|
    requires Computes(s.entries, Size(s), Reader(s, Size(s)), o)
    ensures Size(s) <= s.high && Covers(s.files, Size(s)) && Readable(s.files, s.absolute, Size(s))
  {
    SizeCovered(s);
    if !Readable(s.files, s.absolute, Size(s)) {
      var k := UnreadableTile(s.files, s.absolute, LeafDigests(s.entries), s.high, Size(s));
    }
  }

  lemma StartKeepsInv(s: LogState, o: Outcome)
    requires Inv(s) && s.job.None? && o.Updated? && Size(s) <= |s.entries|
    requires Computes(s.entries, Size(s), Reader(s, Size(s)), o)
    ensures Inv(Started(s, o)) && DirtyTiles(LeafDigests(s.entries), Size(s), o.dirty)
  {
    var s', row, old', n := Started(s, o), LeafDigests(s.entries), Size(s), |s.entries|;
    StartCanRead(s, o);
    FilesFetchOK(s.files, s.absolute, row, s.high, old', Reader(s, old'));
    FilesOKLater(s.files, row, s.high, n);
    assert s.entries[..n] == s.entries;
    PublishedKept(s, s');
    forall k | LeavesOf(k, n) > 0
      ensures k in o.dirty || FileFor(k, n) in s.files
    {
      LeavesMonotone(k, old', n);
      if k !in o.dirty { SameLeavesSameFile(s.files, k, old', n); }
    }
  }

  /** A step of an integration that publishes nothing. */
  lemma JobStepKeepsInv(s: LogState, s': LogState)
    requires Inv(s) && s'.entries == s.entries && s'.published == s.published && s'.high == s.high
    requires FilesOK(s'.files, LeafDigests(s.entries), s.high) && s.files.Keys <= s'.files.Keys
    requires s'.job.Some? && JobOK(s', s'.job.value) && StageOK(s', s'.job.value.stage) && PublishingOK(s')
    ensures Inv(s')
  {
    PublishedKept(s, s');
  }

  lemma WriteKeepsInv(s: LogState, k: TileKey)
    requires Inv(s) && s.job.Some? && k in s.job.value.todo
    ensures Inv(Wrote(s, k))
  {
    PutKeepsFiles(s.files, LeafDigests(s.entries), s.high, s.high, k, s.job.value.todo[k]);
    WriteKeepsJob(s, k);
    WriteStage(s, k);
    JobStepKeepsInv(s, Wrote(s, k));
  }

  lemma WriteStage(s: LogState, k: TileKey)
    requires s.job.Some? && JobOK(s, s.job.value) && k in s.job.value.todo
    ensures StageOK(Wrote(s, k), Wrote(s, k).job.value.stage)
  {
    assert Size(Wrote(s, k)) == Size(s);
  }

  lemma WriteKeepsJob(s: LogState, k: TileKey)
    requires Inv(s) && s.job.Some? && k in s.job.value.todo
    ensures JobOK(Wrote(s, k), Wrote(s, k).job.value)
  {
    FileForLeaves(k, s.high);
    var s' := Wrote(s, k);
    assert Size(s') == Size(s) && FileFor(k, s.high) in s'.files && s.files.Keys <= s'.files.Keys;
  }

  lemma PublishedKept(s: LogState, s': LogState)
    requires Inv(s) && s'.published == s.published && s'.entries == s.entries
    requires s.high <= s'.high && s.files.Keys <= s'.files.Keys
    ensures forall i :: 0 <= i < |s'.published| ==> Published(s', s'.published[i])
  {
    forall i | 0 <= i < |s'.published| ensures Published(s', s'.published[i]) {
      assert Published(s, s.published[i]);
      CoversMore(s.files, s'.files, s.published[i].size);
    }
  }

  lemma StageKeepsInv(s: LogState, s': LogState)
    requires Inv(s) && s.job.Some? && s' == s.(links := s'.links, cpTmp := s'.cpTmp, job := s'.job)
    requires s'.job.Some? && s'.job.value == s.job.value.(stage := s'.job.value.stage)
    requires StageOK(s', s'.job.value.stage) && PublishingOK(s')
    ensures Inv(s')
  {
    SameJob(s, s');
    JobStepKeepsInv(s, s');
  }

  lemma SameJob(s: LogState, s': LogState)
    requires s.job.Some? && s'.job.Some? && JobOK(s, s.job.value)
    requires s'.job.value.cp == s.job.value.cp && s'.job.value.todo == s.job.value.todo
    requires s'.entries == s.entries && s'.published == s.published && s'.high == s.high
             && s'.files.Keys == s.files.Keys
    ensures JobOK(s', s'.job.value)
  {
    assert Size(s') == Size(s);
  }

  lemma RenameKeepsInv(s: LogState, p: nat)
    requires Inv(s) && InRelinking(s, true) && p in s.job.value.stage.partials
    ensures Inv(Renamed(s, p))
  {
    RenameKeepsJob(s, p);
    RelinkKeepsFiles(s.files, LeafDigests(s.entries), s.high, TileFile(s.job.value.stage.key, p));
    JobStepKeepsInv(s, Renamed(s, p));
  }

  lemma RenameKeepsJob(s: LogState, p: nat)
    requires InRelinking(s, true) && JobOK(s, s.job.value) && StageOK(s, s.job.value.stage)
    requires p in s.job.value.stage.partials
    ensures p != 0 && TileFile(s.job.value.stage.key, p) in s.files && Renamed(s, p).files.Keys == s.files.Keys
    ensures JobOK(Renamed(s, p), Renamed(s, p).job.value) && StageOK(Renamed(s, p), Renamed(s, p).job.value.stage)
  {
    var s' := Renamed(s, p);
    assert TileFile(s.job.value.stage.key, p) in s.files;
    assert s'.files.Keys == s.files.Keys && Size(s') == Size(s);
    SameJob(s, s');
    assert PartialsOf(s'.files, s.job.value.stage.key) == PartialsOf(s.files, s.job.value.stage.key);
  }

  lemma PublishKeepsInv(s: LogState)
    requires Inv(s) && InStage(s, Publishing)
    ensures Inv(PublishedState(s))
  {
    var s' := PublishedState(s);
    forall i | 0 <= i < |s'.published| ensures Published(s', s'.published[i]) {
      if i < |s.published| { assert Published(s, s.published[i]); }
    }
  }

  lemma LinkKeepsInv(s: LogState)
    requires Inv(s) && InRelinking(s, false)
    ensures Inv(Linked(s))
  {
    assert Size(Linked(s)) == Size(s);
    StageKeepsInv(s, Linked(s));
  }

  lemma StepKeepsInv(s: LogState, s': LogState)
    requires Inv(s) && Step(s, s')
    ensures Inv(s')
  {
    if SequenceStep(s, s') {
      var e :| s' == s.(entries := s.entries + [e]);
      SequenceKeepsInv(s, e);
    } else if StartStep(s, s') {
      var o: Outcome :| o.Updated? && Computes(s.entries, Size(s), Reader(s, Size(s)), o) && s' == Started(s, o);
      StartKeepsInv(s, o);
    } else if WriteStep(s, s') {
      var k :| k in s.job.value.todo && s' == Wrote(s, k);
      WriteKeepsInv(s, k);
    } else if PublishStep(s, s') {
      PublishKeepsInv(s);
    } else if StopStep(s, s') {
      PublishedKept(s, s');
    } else if LinkStep(s, s') {
      LinkKeepsInv(s);
    } else if RenameStep(s, s') {
      var p :| p in s.job.value.stage.partials && s' == Renamed(s, p);
      RenameKeepsInv(s, p);
    } else {
      StageKeepsInv(s, s');
    }
  }

  lemma {:induction false} BehaviorKeepsInv(b: seq<LogState>, i: nat)
    requires Behavior(b) && i < |b|
    ensures Inv(b[i])
    decreases i
  {
    if i > 0 {
      BehaviorKeepsInv(b, i - 1);
      PathStep(b, i);
      StepKeepsInv(b[i - 1], b[i]);
    }
  }

  lemma PathStep(b: seq<LogState>, j: nat)
    requires Path(b) && 0 < j < |b|
    ensures Step(b[j - 1], b[j])
  {
    assert StepAt(b, j - 1);
  }

  // ----- reading published trees -----

  /** Every perfect node of the tree of the first `size` entries is read, through the tile
      files, with its hash. */
  ghost predicate TreeReadable(s: LogState, size: nat)
    requires size <= |s.entries|
  {
    forall id: NodeId :: id.index < Shr(size, id.level) ==>
      (ShrMonotone(size, |s.entries|, id.level);
       NodeInFetched(GetTile(s.files, s.absolute, TileOf(id), size), id)
       == Some(NodeAt(LeafDigests(s.entries), id.level, id.index)))
  }

  /** A published tree can be read exactly when none of its tiles is a link that does not
      resolve. */
  lemma WhenReadable(s: LogState, cp: Checkpoint)
    requires Inv(s) && Published(s, cp)
    ensures TreeReadable(s, cp.size) <==> Readable(s.files, s.absolute, cp.size)
  {
    var row := LeafDigests(s.entries);
    if Readable(s.files, s.absolute, cp.size) {
      FilesFetchOK(s.files, s.absolute, row, s.high, cp.size, Reader(s, cp.size));
      forall id: NodeId | id.index < Shr(cp.size, id.level)
        ensures id.index < Shr(|row|, id.level)
        ensures NodeInFetched(GetTile(s.files, s.absolute, TileOf(id), cp.size), id)
             == Some(NodeAt(row, id.level, id.index))
      {
        PerfectNodeRead(Reader(s, cp.size), row, cp.size, id);
      }
    } else {
      var k := UnreadableTile(s.files, s.absolute, row, s.high, cp.size);
      var id := BottomNode(k, 0);
      BottomNodeInTile(k, 0, cp.size);
      assert id.index < Shr(cp.size, id.level) && TileOf(id) == k;
    }
  }

  /** In every state of every run, for every checkpoint published so far, the root is that of
      the entries it covers; and with an absolute storage directory every perfect node of its
      tree is read with its hash. */
  lemma PublishedTreesStayReadable(b: seq<LogState>, i: nat, c: nat)
    requires Behavior(b) && i < |b| && c < |b[i].published|
    ensures var s, cp := b[i], b[i].published[c];
            0 < cp.size <= |s.entries| && cp.hash == Mth(s.entries[..cp.size])
            && (s.absolute ==> TreeReadable(s, cp.size))
  {
    BehaviorKeepsInv(b, i);
    assert Published(b[i], b[i].published[c]);
    WhenReadable(b[i], b[i].published[c]);
  }
}
