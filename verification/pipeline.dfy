/** Hashing all complete tiles of the log: one goroutine per tile level, each reading the
    roots of the level below from a bounded channel and sending the roots of its own tiles on.
    Every schedule stores the true hashes, and none gets stuck. */
module Pipeline {
  import opened Merkle
  import opened CompactRange
  import opened Layout
  import opened Audit

  /** `row` is the leaf hashes of the log, `width` is 2^height, and levels run from 0 to
      `top`; a channel holds up to `width` roots. */
  datatype Job = Job(height: nat, width: nat, top: nat, row: seq<Digest>)
  {
    ghost predicate Valid() {
      height >= 1 && width == Pow2(height) && Shr(|row|, (top + 2) * height) == 0
    }

    /** The row at the bottom of the tiles of a level. */
    function Base(level: nat): seq<Digest> { LiftN(row, level * height) }

    /** The number of complete tiles of a level. */
    function Tiles(level: nat): nat { Shr(|row|, (level + 1) * height) }
  }

  /** A goroutine: the tile it works on, the roots received for it so far, and the root of a
      finished tile that is still to be sent. */
  datatype Worker = Worker(offset: nat, buf: seq<Digest>, pending: Option<Digest>)

  datatype State = State(workers: seq<Worker>, chans: seq<seq<Digest>>, db: map<(nat, nat), seq<Digest>>, failed: bool)

  datatype Act = HashLeafTile | Receive(level: nat) | FinishTile(level: nat) | Send(level: nat)

  /** The root of a tile that starts at `begin` of its row; None if the hashes do not
      combine into a single one. */
  function TileRoot(begin: nat, hs: seq<Digest>): Option<Digest> {
    var root := AppendAll(NewEmptyRange(begin), hs).Hashes();
    if |root| == 1 then Some(root[0]) else None
  }

  predicate Enabled(j: Job, s: State, a: Act)
    requires |s.workers| == |s.chans| == j.top + 1
  {
    match a
    case HashLeafTile => s.workers[0].pending.None? && s.workers[0].offset < j.Tiles(0)
    case Receive(l) => 0 < l <= j.top && s.workers[l].pending.None? && s.workers[l].offset < j.Tiles(l)
                       && |s.workers[l].buf| < j.width && s.chans[l - 1] != []
    case FinishTile(l) => 0 < l <= j.top && s.workers[l].pending.None? && |s.workers[l].buf| == j.width
    case Send(l) => l <= j.top && s.workers[l].pending.Some? && |s.chans[l]| < j.width
  }

  /** A tile that is already stored is kept. */
  function Keep(db: map<(nat, nat), seq<Digest>>, key: (nat, nat), tile: seq<Digest>): map<(nat, nat), seq<Digest>> {
    if key in db then db else db[key := tile]
  }

  /** One step of one goroutine.  A leaf tile is hashed from the log if it is not stored yet. */
  function Next(j: Job, s: State, a: Act): State
    requires |s.workers| == |s.chans| == j.top + 1 && Enabled(j, s, a)
  {
    match a
    case HashLeafTile =>
      var w := s.workers[0];
      var key := (0, w.offset);
      if key !in s.db && (w.offset + 1) * j.width > |j.row| then s.(failed := true) else
      var tile := if key in s.db then s.db[key] else Block(j.row, j.width, w.offset);
      var root := TileRoot(w.offset * j.width, tile);
      if root.None? then s.(failed := true)
      else s.(workers := s.workers[0 := w.(pending := root)], db := Keep(s.db, key, tile))
    case Receive(l) =>
      var w, h := s.workers[l], s.chans[l - 1][0];
      var key := (l, w.offset);
      if key in s.db && (|w.buf| >= |s.db[key]| || s.db[key][|w.buf|] != h) then s.(failed := true)
      else s.(workers := s.workers[l := w.(buf := w.buf + [h])], chans := s.chans[l - 1 := s.chans[l - 1][1..]])
    case FinishTile(l) =>
      var w := s.workers[l];
      var root := TileRoot(w.offset * j.width, w.buf);
      if root.None? then s.(failed := true)
      else s.(workers := s.workers[l := w.(buf := [], pending := root)], db := Keep(s.db, (l, w.offset), w.buf))
    case Send(l) =>
      var w := s.workers[l];
      s.(workers := s.workers[l := Worker(w.offset + 1, [], None)],
         chans := s.chans[l := s.chans[l] + [w.pending.value]])
  }

  // ----- the invariant -----

  /** How many roots of the level below a goroutine has received. */
  function Taken(w: Worker, width: nat): nat {
    (w.offset + if w.pending.Some? then 1 else 0) * width + |w.buf|
  }

  /** How many roots of a level have been read; nobody reads those of the top level. */
  function Read(j: Job, s: State, level: nat): nat
    requires |s.workers| == j.top + 1 && level <= j.top
  {
    if level == j.top then 0 else Taken(s.workers[level + 1], j.width)
  }

  ghost predicate WorkerOK(j: Job, level: nat, w: Worker) {
    w.offset <= j.Tiles(level) && |w.buf| <= j.width && (level == 0 ==> w.buf == [])
    && (w.buf != [] ==> w.offset < j.Tiles(level) && w.offset * j.width + |w.buf| <= |j.Base(level)|
                        && w.buf == j.Base(level)[w.offset * j.width..w.offset * j.width + |w.buf|])
    && (w.pending.Some? ==> w.offset < j.Tiles(level) && w.buf == [] && w.pending.value == j.Base(level + 1)[w.offset])
  }

  /** A channel holds the roots that were sent and not read, in order. */
  ghost predicate ChanOK(j: Job, s: State, level: nat)
    requires |s.workers| == |s.chans| == j.top + 1 && level <= j.top
  {
    |s.chans[level]| <= j.width && Read(j, s, level) <= s.workers[level].offset <= |j.Base(level + 1)|
    && s.chans[level] == j.Base(level + 1)[Read(j, s, level)..s.workers[level].offset]
  }

  /** A stored tile is the block of its row. */
  ghost predicate EntryOK(j: Job, key: (nat, nat), tile: seq<Digest>) {
    (key.1 + 1) * j.width <= |j.Base(key.0)| && tile == Block(j.Base(key.0), j.width, key.1)
  }

  /** How many tiles a goroutine has hashed. */
  function Hashed(w: Worker): nat { w.offset + if w.pending.Some? then 1 else 0 }

  ghost predicate Inv(j: Job, s: State) {
    |s.workers| == |s.chans| == j.top + 1 && !s.failed
    && (forall l :: 0 <= l <= j.top ==> WorkerOK(j, l, s.workers[l]))
    && (forall l :: 0 <= l <= j.top ==> ChanOK(j, s, l))
    && (forall key :: key in s.db ==> EntryOK(j, key, s.db[key]))
    && (forall l, o :: 0 <= l <= j.top && 0 <= o < Hashed(s.workers[l]) ==> (l, o) in s.db)
  }

  // ----- tile roots -----

  lemma NextBase(j: Job, level: nat)
    ensures j.Base(level + 1) == LiftN(j.Base(level), j.height) && |j.Base(level + 1)| == j.Tiles(level)
  {
    NextLevel(level, j.height);
    LiftAdd(j.row, level * j.height, j.height);
  }

  /** A tile is counted exactly when it is complete. */
  lemma TileCounted(j: Job, level: nat, o: nat)
    requires j.Valid()
    ensures o < j.Tiles(level) <==> (o + 1) * j.width <= |j.Base(level)|
  {
    NextBase(j, level);
    BelowShr(o, |j.Base(level)|, j.height);
  }

  lemma BlockRange(base: seq<Digest>, k: nat, w: nat, o: nat, begin: nat)
    requires w == Pow2(k) && (o + 1) * w <= |base| && begin == o * w
    ensures o < Shr(|base|, k) && TileRoot(begin, Block(base, w, o)) == Some(NodeAt(base, k, o))
  {
    NextBlock(o, w);
    AppendAllHonest(base, begin, Block(base, w, o));
    AlignedRange(base, k, o, begin, begin + w);
  }

  /** The root of a complete tile is the node above it. */
  lemma TileRootIsNext(j: Job, level: nat, o: nat)
    requires j.Valid() && (o + 1) * j.width <= |j.Base(level)|
    ensures o < |j.Base(level + 1)|
    ensures TileRoot(o * j.width, Block(j.Base(level), j.width, o)) == Some(j.Base(level + 1)[o])
  {
    NextBase(j, level);
    BlockRange(j.Base(level), j.height, j.width, o, o * j.width);
    NodeAtRow(j.Base(level), j.height, o);
  }

  // ----- every step keeps the invariant -----

  /** A goroutine that has finished a tile stores its true hashes and holds its true root. */
  ghost predicate Finished(j: Job, s: State, s': State, l: nat) {
    |s.workers| == |s.chans| == j.top + 1 && l <= j.top
    && var w := s.workers[l];
       (w.offset + 1) * j.width <= |j.Base(l)| && w.offset < |j.Base(l + 1)|
       && s' == s.(workers := s.workers[l := Worker(w.offset, [], Some(j.Base(l + 1)[w.offset]))],
                   db := Keep(s.db, (l, w.offset), Block(j.Base(l), j.width, w.offset)))
  }

  lemma HashFinishes(j: Job, s: State)
    requires j.Valid() && Inv(j, s) && Enabled(j, s, HashLeafTile)
    ensures Finished(j, s, Next(j, s, HashLeafTile), 0)
  {
    var w := s.workers[0];
    TileCounted(j, 0, w.offset);
    TileRootIsNext(j, 0, w.offset);
    assert j.Base(0) == j.row;
    assert (0, w.offset) in s.db ==> EntryOK(j, (0, w.offset), s.db[(0, w.offset)]);
    assert WorkerOK(j, 0, w);
  }

  lemma FinishFinishes(j: Job, s: State, l: nat)
    requires j.Valid() && Inv(j, s) && Enabled(j, s, FinishTile(l))
    ensures Finished(j, s, Next(j, s, FinishTile(l)), l)
  {
    var w := s.workers[l];
    assert WorkerOK(j, l, w);
    NextBlock(w.offset, j.width);
    assert w.buf == Block(j.Base(l), j.width, w.offset);
    TileRootIsNext(j, l, w.offset);
  }

  lemma FinishedKeepsInv(j: Job, s: State, s': State, l: nat)
    requires j.Valid() && Inv(j, s) && Finished(j, s, s', l) && s.workers[l].pending.None?
    requires l == 0 || |s.workers[l].buf| == j.width
    ensures Inv(j, s')
  {
    var w := s.workers[l];
    TileCounted(j, l, w.offset);
    forall m | 0 <= m <= j.top ensures ChanOK(j, s', m) && WorkerOK(j, m, s'.workers[m]) {
      assert ChanOK(j, s, m) && WorkerOK(j, m, s.workers[m]);
      FinishedKeepsChan(j, s, l, m, s'.workers[l].pending, s'.db);
    }
    FinishedKeepsTiles(j, s, l, s'.workers[l].pending, s'.db);
  }

  /** The state when a tile is finished. */
  function Pending(s: State, l: nat, root: Option<Digest>, db: map<(nat, nat), seq<Digest>>): State
    requires l < |s.workers|
  {
    s.(workers := s.workers[l := Worker(s.workers[l].offset, [], root)], db := db)
  }

  /** Every tile is stored right, up to the one that a goroutine works on. */
  lemma FinishedKeepsTiles(j: Job, s: State, l: nat, root: Option<Digest>, db: map<(nat, nat), seq<Digest>>)
    requires |s.workers| == j.top + 1 && l <= j.top && s.workers[l].pending.None?
    requires s.db.Keys <= db.Keys && (l, s.workers[l].offset) in db
    requires forall m, o :: 0 <= m <= j.top && 0 <= o < Hashed(s.workers[m]) ==> (m, o) in s.db
    ensures var s' := Pending(s, l, root, db);
            forall m, o :: 0 <= m <= j.top && 0 <= o < Hashed(s'.workers[m]) ==> (m, o) in s'.db
  {
  }

  /** Finishing a tile takes no root. */
  lemma FinishedKeepsChan(j: Job, s: State, l: nat, m: nat, root: Option<Digest>, db: map<(nat, nat), seq<Digest>>)
    requires |s.workers| == |s.chans| == j.top + 1 && l <= j.top && m <= j.top && ChanOK(j, s, m)
    requires s.workers[l].pending.None? && root.Some? && (l == 0 || |s.workers[l].buf| == j.width)
    ensures ChanOK(j, Pending(s, l, root, db), m)
  {
    NextBlock(s.workers[l].offset, j.width);
    if l > 0 { assert Taken(Pending(s, l, root, db).workers[l], j.width) == Taken(s.workers[l], j.width); }
  }

  lemma ReceiveResult(j: Job, s: State, l: nat)
    requires j.Valid() && Inv(j, s) && Enabled(j, s, Receive(l))
    ensures var w, at := s.workers[l], s.workers[l].offset * j.width + |s.workers[l].buf|;
            at < |j.Base(l)| && s.chans[l - 1][0] == j.Base(l)[at] && at == Read(j, s, l - 1)
            && Next(j, s, Receive(l)) == s.(workers := s.workers[l := w.(buf := w.buf + [j.Base(l)[at]])],
                                            chans := s.chans[l - 1 := s.chans[l - 1][1..]])
  {
    var w := s.workers[l];
    var at := w.offset * j.width + |w.buf|;
    assert ChanOK(j, s, l - 1);
    assert at == Read(j, s, l - 1) && s.chans[l - 1][0] == j.Base(l)[at];
    if (l, w.offset) in s.db {
      StoredMatches(j, (l, w.offset), s.db[(l, w.offset)], |w.buf|, at);
    }
  }

  lemma StoredMatches(j: Job, key: (nat, nat), tile: seq<Digest>, i: nat, at: nat)
    requires EntryOK(j, key, tile) && i < j.width && at == key.1 * j.width + i
    ensures i < |tile| && at < |j.Base(key.0)| && tile[i] == j.Base(key.0)[at]
  {
    BlockAt(j.Base(key.0), j.width, key.1, i);
  }

  lemma BlockAt(base: seq<Digest>, w: nat, o: nat, i: nat)
    requires (o + 1) * w <= |base| && i < w
    ensures |Block(base, w, o)| == w && o * w + i < |base| && Block(base, w, o)[i] == base[o * w + i]
  {
    NextBlock(o, w);
  }

  lemma ReceiveKeepsInv(j: Job, s: State, l: nat)
    requires j.Valid() && Inv(j, s) && Enabled(j, s, Receive(l))
    ensures Inv(j, Next(j, s, Receive(l)))
  {
    var s' := Next(j, s, Receive(l));
    ReceiveResult(j, s, l);
    ReceiveKeepsWorker(j, s, l);
    forall m | 0 <= m <= j.top ensures ChanOK(j, s', m) { ReceiveKeepsChan(j, s, l, m); }
  }

  lemma ReceiveKeepsWorker(j: Job, s: State, l: nat)
    requires j.Valid() && Inv(j, s) && Enabled(j, s, Receive(l))
    ensures WorkerOK(j, l, Next(j, s, Receive(l)).workers[l])
  {
    var w := s.workers[l];
    ReceiveResult(j, s, l);
    assert WorkerOK(j, l, w);
    ReceivedNext(j.Base(l), w.offset * j.width, w.buf, s.chans[l - 1][0]);
  }

  lemma ReceiveKeepsChan(j: Job, s: State, l: nat, m: nat)
    requires j.Valid() && Inv(j, s) && Enabled(j, s, Receive(l)) && m <= j.top
    ensures ChanOK(j, Next(j, s, Receive(l)), m)
  {
    ReceiveResult(j, s, l);
    assert ChanOK(j, s, m) && WorkerOK(j, l, s.workers[l]);
    if m == l - 1 { assert Next(j, s, Receive(l)).chans[m] == s.chans[m][1..]; }
  }

  lemma ReceivedNext(base: seq<Digest>, begin: nat, buf: seq<Digest>, h: Digest)
    requires begin + |buf| < |base| && h == base[begin + |buf|] && (buf != [] ==> buf == base[begin..begin + |buf|])
    ensures buf + [h] == base[begin..begin + |buf| + 1]
  {
  }

  lemma SendKeepsInv(j: Job, s: State, l: nat)
    requires j.Valid() && Inv(j, s) && Enabled(j, s, Send(l))
    ensures Inv(j, Next(j, s, Send(l)))
  {
    var s' := Next(j, s, Send(l));
    forall m | 0 <= m <= j.top ensures ChanOK(j, s', m) { SendKeepsChan(j, s, l, m); }
    assert WorkerOK(j, l, s.workers[l]);
  }

  /** Sending does not change how many roots have been taken. */
  lemma SendKeepsRead(j: Job, s: State, l: nat, m: nat)
    requires |s.workers| == |s.chans| == j.top + 1 && Enabled(j, s, Send(l)) && m <= j.top && s.workers[l].buf == []
    ensures Read(j, Next(j, s, Send(l)), m) == Read(j, s, m)
  {
    assert Taken(Next(j, s, Send(l)).workers[l], j.width) == Taken(s.workers[l], j.width);
  }

  lemma SendKeepsChan(j: Job, s: State, l: nat, m: nat)
    requires j.Valid() && Inv(j, s) && Enabled(j, s, Send(l)) && m <= j.top
    ensures ChanOK(j, Next(j, s, Send(l)), m)
  {
    assert WorkerOK(j, l, s.workers[l]) && ChanOK(j, s, m);
    SendKeepsRead(j, s, l, m);
    if m == l {
      NextBase(j, l);
      SentNext(j.Base(l + 1), Read(j, s, l), s.workers[l].offset);
    }
  }

  lemma SentNext(base: seq<Digest>, from: nat, to: nat)
    requires from <= to < |base|
    ensures base[from..to] + [base[to]] == base[from..to + 1]
  {
  }

  lemma NextKeepsInv(j: Job, s: State, a: Act)
    requires j.Valid() && Inv(j, s) && Enabled(j, s, a)
    ensures Inv(j, Next(j, s, a))
  {
    match a
    case HashLeafTile =>
      HashFinishes(j, s);
      FinishedKeepsInv(j, s, Next(j, s, a), 0);
    case Receive(l) => ReceiveKeepsInv(j, s, l);
    case FinishTile(l) =>
      FinishFinishes(j, s, l);
      FinishedKeepsInv(j, s, Next(j, s, a), l);
    case Send(l) => SendKeepsInv(j, s, l);
  }

  // ----- no schedule gets stuck -----

  predicate DoneLevel(j: Job, s: State, l: nat)
    requires |s.workers| == j.top + 1 && l <= j.top
  {
    s.workers[l].offset == j.Tiles(l)
  }

  /** A level whose output channel is empty and which has tiles left can be fed. */
  lemma {:induction false} FeedLevel(j: Job, s: State, l: nat) returns (a: Act)
    requires j.Valid() && Inv(j, s) && l <= j.top && !DoneLevel(j, s, l)
             && (s.workers[l].pending.Some? ==> |s.chans[l]| < j.width)
    ensures Enabled(j, s, a)
    decreases l
  {
    var w := s.workers[l];
    assert WorkerOK(j, l, w);
    if w.pending.Some? {
      a := Send(l);
    } else if l == 0 {
      a := HashLeafTile;
    } else if |w.buf| == j.width {
      a := FinishTile(l);
    } else if s.chans[l - 1] != [] {
      a := Receive(l);
    } else {
      assert ChanOK(j, s, l - 1) && WorkerOK(j, l - 1, s.workers[l - 1]);
      RootsLeft(j, l, w);
      a := FeedLevel(j, s, l - 1);
    }
  }

  /** A goroutine in the middle of a tile has not received all roots of the level below. */
  lemma RootsLeft(j: Job, l: nat, w: Worker)
    requires j.Valid() && l > 0 && w.pending.None? && w.offset < j.Tiles(l) && |w.buf| < j.width
    ensures Taken(w, j.width) < j.Tiles(l - 1)
  {
    TileCounted(j, l, w.offset);
    NextBase(j, l - 1);
    NextBlock(w.offset, j.width);
  }

  /** What a finished level leaves unread of the level below fits into the channel. */
  lemma UnreadFits(j: Job, s: State, l: nat)
    requires j.Valid() && Inv(j, s) && l <= j.top && s.workers[l].offset < j.Tiles(l)
    requires l < j.top ==> DoneLevel(j, s, l + 1)
    ensures |s.chans[l]| < j.width
  {
    assert ChanOK(j, s, l);
    var t := j.Tiles(l + 1);
    NextBase(j, l);
    TileCounted(j, l + 1, t);
    NextBlock(t, j.width);
    if l < j.top {
      assert WorkerOK(j, l + 1, s.workers[l + 1]);
    }
  }

  /** Unless all levels are done, some goroutine can take a step. */
  lemma {:induction false} SomeStepEnabled(j: Job, s: State, l: nat) returns (a: Act)
    requires j.Valid() && Inv(j, s) && l <= j.top
    requires forall m :: l < m <= j.top ==> DoneLevel(j, s, m)
    requires exists m :: 0 <= m <= l && !DoneLevel(j, s, m)
    ensures Enabled(j, s, a)
    decreases l
  {
    assert WorkerOK(j, l, s.workers[l]);
    if DoneLevel(j, s, l) {
      a := SomeStepEnabled(j, s, l - 1);
    } else {
      UnreadFits(j, s, l);
      a := FeedLevel(j, s, l);
    }
  }

  // ----- every schedule ends -----

  /** Steps a goroutine has still to take, at most. */
  function Work(tiles: nat, width: nat, w: Worker): int {
    (tiles - w.offset) * (width + 2) - |w.buf| - if w.pending.Some? then width + 1 else 0
  }

  function TotalWork(j: Job, workers: seq<Worker>, n: nat): int
    requires n <= |workers|
  {
    if n == 0 then 0 else TotalWork(j, workers, n - 1) + Work(j.Tiles(n - 1), j.width, workers[n - 1])
  }

  lemma {:induction false} TotalWorkUpdate(j: Job, workers: seq<Worker>, n: nat, l: nat, w: Worker)
    requires l < |workers| && n <= |workers|
    ensures TotalWork(j, workers[l := w], n)
         == TotalWork(j, workers, n)
            + if l < n then Work(j.Tiles(l), j.width, w) - Work(j.Tiles(l), j.width, workers[l]) else 0
    decreases n
  {
    if n > 0 { TotalWorkUpdate(j, workers, n - 1, l, w); }
  }

  lemma {:induction false} TotalWorkNonNegative(j: Job, s: State, n: nat)
    requires Inv(j, s) && n <= j.top + 1
    ensures TotalWork(j, s.workers, n) >= 0
    decreases n
  {
    if n > 0 {
      TotalWorkNonNegative(j, s, n - 1);
      var w, t := s.workers[n - 1], j.Tiles(n - 1);
      assert WorkerOK(j, n - 1, w);
      WorkNonNegative(t, j.width, w);
    }
  }

  lemma WorkNonNegative(tiles: nat, width: nat, w: Worker)
    requires w.offset <= tiles && |w.buf| <= width && (w.buf != [] ==> w.offset < tiles && w.pending.None?)
    requires w.pending.Some? ==> w.offset < tiles
    ensures Work(tiles, width, w) >= 0
  {
    if w.offset < tiles { AtLeastOnce(tiles - w.offset, width + 2); }
  }

  lemma AtLeastOnce(a: nat, b: nat)
    requires a > 0
    ensures a * b >= b
  {
  }

  /** The worker received a root, finished a tile or sent a root. */
  predicate Advances(width: nat, w: Worker, w': Worker) {
    (w'.offset == w.offset && w'.pending == w.pending && |w'.buf| == |w.buf| + 1)
    || (w'.offset == w.offset && w.pending.None? && w'.pending.Some? && w'.buf == [] && |w.buf| <= width)
    || (w'.offset == w.offset + 1 && w.pending.Some? && w'.pending.None? && w'.buf == w.buf == [])
  }

  lemma StepAdvances(j: Job, s: State, a: Act, l: nat)
    requires j.Valid() && Inv(j, s) && Enabled(j, s, a) && l == if a.HashLeafTile? then 0 else a.level
    ensures var s' := Next(j, s, a);
            |s'.workers| == |s.workers| && s'.workers == s.workers[l := s'.workers[l]]
            && Advances(j.width, s.workers[l], s'.workers[l])
  {
    assert WorkerOK(j, l, s.workers[l]);
    match a
    case HashLeafTile => HashFinishes(j, s);
    case Receive(_) => ReceiveResult(j, s, l);
    case FinishTile(_) => FinishFinishes(j, s, l);
    case Send(_) =>
  }

  /** A worker that advances has less to do. */
  lemma WorkDrops(tiles: nat, width: nat, w: Worker, w': Worker)
    requires Advances(width, w, w')
    ensures Work(tiles, width, w') < Work(tiles, width, w)
  {
    NextTile(tiles, w.offset, width);
  }

  /** Each step leaves less to do. */
  lemma StepMakesProgress(j: Job, s: State, a: Act)
    requires j.Valid() && Inv(j, s) && Enabled(j, s, a)
    ensures var s' := Next(j, s, a);
            |s'.workers| == j.top + 1 && TotalWork(j, s'.workers, j.top + 1) < TotalWork(j, s.workers, j.top + 1)
  {
    var s' := Next(j, s, a);
    var l := if a.HashLeafTile? then 0 else a.level;
    StepAdvances(j, s, a, l);
    WorkDrops(j.Tiles(l), j.width, s.workers[l], s'.workers[l]);
    TotalWorkUpdate(j, s.workers, j.top + 1, l, s'.workers[l]);
  }

  lemma NextTile(tiles: nat, offset: nat, width: nat)
    ensures (tiles - (offset + 1)) * (width + 2) == (tiles - offset) * (width + 2) - (width + 2)
  {
  }

  // ----- schedules -----

  /** Nothing is done yet; some tiles may be stored already. */
  function Start(j: Job, db: map<(nat, nat), seq<Digest>>): State {
    State(seq(j.top + 1, _ => Worker(0, [], None)), seq(j.top + 1, _ => []), db, false)
  }

  ghost predicate Schedule(j: Job, s: State, acts: seq<Act>)
    requires |s.workers| == |s.chans| == j.top + 1
    decreases |acts|
  {
    acts == [] || (Enabled(j, s, acts[0]) && var s' := Next(j, s, acts[0]);
                   |s'.workers| == |s'.chans| == j.top + 1 && Schedule(j, s', acts[1..]))
  }

  function Final(j: Job, s: State, acts: seq<Act>): State
    requires |s.workers| == |s.chans| == j.top + 1 && Schedule(j, s, acts)
    decreases |acts|
  {
    if acts == [] then s else Final(j, Next(j, s, acts[0]), acts[1..])
  }

  lemma {:induction false} ScheduleKeepsInv(j: Job, s: State, acts: seq<Act>)
    requires j.Valid() && Inv(j, s) && Schedule(j, s, acts)
    ensures Inv(j, Final(j, s, acts)) && |acts| <= TotalWork(j, s.workers, j.top + 1)
    decreases |acts|
  {
    if acts == [] {
      TotalWorkNonNegative(j, s, j.top + 1);
    } else {
      NextKeepsInv(j, s, acts[0]);
      StepMakesProgress(j, s, acts[0]);
      ScheduleKeepsInv(j, Next(j, s, acts[0]), acts[1..]);
    }
  }

  lemma StartOK(j: Job, db: map<(nat, nat), seq<Digest>>)
    requires j.Valid() && forall key :: key in db ==> EntryOK(j, key, db[key])
    ensures Inv(j, Start(j, db))
  {
    var s := Start(j, db);
    forall l | 0 <= l <= j.top ensures ChanOK(j, s, l) {
      assert j.Base(l + 1)[0..0] == [];
    }
  }

  /** The database as the root check reads it. */
  function DbReader(db: map<(nat, nat), seq<Digest>>): TileDb {
    (level: nat, offset: nat) => if (level, offset) in db then Some(db[(level, offset)]) else None
  }

  /** Any schedule, however the goroutines interleave, stores only true hashes and never fails;
      it cannot go on forever; and where it can go no further, every complete tile of the log
      is stored with its true hashes. */
  lemma EverySchedule(j: Job, db: map<(nat, nat), seq<Digest>>, acts: seq<Act>)
    requires j.Valid() && (forall key :: key in db ==> EntryOK(j, key, db[key]))
    requires Schedule(j, Start(j, db), acts)
    ensures var s := Final(j, Start(j, db), acts);
            Inv(j, s) && |acts| <= TotalWork(j, Start(j, db).workers, j.top + 1)
            && ((forall a :: !Enabled(j, s, a)) ==> CorrectDb(DbReader(s.db), j.row, j.height))
  {
    StartOK(j, db);
    ScheduleKeepsInv(j, Start(j, db), acts);
    var s := Final(j, Start(j, db), acts);
    if forall a :: !Enabled(j, s, a) {
      if exists m :: 0 <= m <= j.top && !DoneLevel(j, s, m) {
        var a := SomeStepEnabled(j, s, j.top);
      }
      DoneStoresAll(j, s);
    }
  }

  /** In every state of every schedule, slot i of the tile at (level, offset) holds the tree
      hash of the leaves [x * width^level, (x + 1) * width^level), x being offset * width + i. */
  lemma StoredHashesAreTreeHashes(j: Job, db: map<(nat, nat), seq<Digest>>, acts: seq<Act>, level: nat, offset: nat,
                                  i: nat, x: nat, w: nat)
    requires j.Valid() && (forall key :: key in db ==> EntryOK(j, key, db[key])) && Schedule(j, Start(j, db), acts)
    requires (level, offset) in Final(j, Start(j, db), acts).db && i < j.width
    requires x == offset * j.width + i && w == Pow2(level * j.height)
    ensures var tile := Final(j, Start(j, db), acts).db[(level, offset)];
            |tile| == j.width && x * w < (x + 1) * w <= |j.row| && tile[i] == TreeHash(j.row[x * w..(x + 1) * w])
  {
    EverySchedule(j, db, acts);
    EntryIsTreeHashes(j, level, offset, Final(j, Start(j, db), acts).db[(level, offset)], i, x, w);
  }

  lemma EntryIsTreeHashes(j: Job, level: nat, offset: nat, tile: seq<Digest>, i: nat, x: nat, w: nat)
    requires j.Valid() && EntryOK(j, (level, offset), tile) && i < j.width
    requires x == offset * j.width + i && w == Pow2(level * j.height)
    ensures |tile| == j.width && x * w < (x + 1) * w <= |j.row| && tile[i] == TreeHash(j.row[x * w..(x + 1) * w])
  {
    TileRowIsTreeHash(j.row, j.height, level, offset, i, x, w);
  }

  lemma DoneStoresAll(j: Job, s: State)
    requires j.Valid() && Inv(j, s) && forall m :: 0 <= m <= j.top ==> DoneLevel(j, s, m)
    ensures CorrectDb(DbReader(s.db), j.row, j.height)
  {
    forall level: nat, offset: nat | (offset + 1) * Pow2(j.height) <= Shr(|j.row|, level * j.height)
      ensures DbReader(s.db)(level, offset) == Some(TileRow(j.row, j.height, level, offset))
    {
      TileCounted(j, level, offset);
      if level > j.top { NoTilesAbove(j, level); }
      assert DoneLevel(j, s, level) && (level, offset) in s.db;
      assert EntryOK(j, (level, offset), s.db[(level, offset)]);
    }
  }

  lemma NoTilesAbove(j: Job, level: nat)
    requires j.Valid() && level > j.top
    ensures j.Tiles(level) == 0
  {
    LevelsAdd(j.top + 2, level - 1 - j.top, j.height);
    ShrAdd(|j.row|, (j.top + 2) * j.height, (level - 1 - j.top) * j.height);
  }

  lemma LevelsAdd(a: nat, b: nat, height: nat)
    ensures (a + b) * height == a * height + b * height
  {
  }

  /** The goroutines that are started: one for each level, told the number of its tiles. */
  method PlanLevels(row: seq<Digest>, height: nat) returns (j: Job, counts: seq<nat>)
    requires height >= 1
    ensures j.Valid() && j.row == row && j.height == height && |counts| == j.top + 1
    ensures forall l :: 0 <= l <= j.top ==> counts[l] == j.Tiles(l)
  {
    var tileWidth := Pow2(height);
    ModBelow(|row|, tileWidth);
    var tileCount := |row| / tileWidth;
    counts := [tileCount];
    var levels := GetLevelsForLeafCount(|row|, height);
    var top := if levels < 0 then 0 else levels;
    j := Job(height, tileWidth, top, row);
    BelowShr(0, |row|, (top + 2) * height);
    if levels < 0 { NothingAtTop(|row|, height); }
    ShrIsDiv(|row|, height);
    var i := 1;
    while i <= levels
      invariant 1 <= i <= top + 1 && |counts| == i && tileCount == j.Tiles(i - 1)
      invariant forall l :: 0 <= l < i ==> counts[l] == j.Tiles(l)
    {
      NextLevel(i, height);
      ShrAdd(|row|, i * height, height);
      ShrIsDiv(tileCount, height);
      tileCount := tileCount / tileWidth;
      counts := counts + [tileCount];
      i := i + 1;
    }
  }

  lemma NothingAtTop(n: nat, height: nat)
    requires n < Pow2(height)
    ensures Shr(n, 2 * height) == 0
  {
    BelowShr(0, n, height);
    ShrAdd(n, height, height);
    assert Shr(n, height) == 0;
    BelowShr(0, 0, height);
  }
}
