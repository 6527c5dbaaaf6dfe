/** Bulk download: workers fetch batches of leaves in parallel, each handing its batches one
    at a time to a collector that visits the workers in turn and emits the leaves. */
module Bulk {
  import opened Merkle
  import opened Layout

  /** Leaves [first, treeSize) of a remote log are fetched by `workers` workers, `batch` leaves
      at a time. */
  datatype Config = Config(log: seq<Bytes>, first: nat, treeSize: nat, workers: nat, batch: nat)
  {
    predicate Valid() { first < treeSize <= |log| && workers >= 1 && batch >= 1 }

    /** A batch that starts here or later is the last one. */
    function LastStart(): nat { if treeSize > batch then treeSize - batch else 0 }

    /** The end of the batch that starts here. */
    function BatchEnd(start: nat): nat { if start + batch < treeSize then start + batch else treeSize }

    /** A single batch is enough. */
    predicate OneBatch() { treeSize - first <= batch }
  }

  /** A worker is fetching the batch at `start`, holds its result, or has closed its channel. */
  datatype Worker = Fetching(start: nat) | Ready(start: nat, ok: bool) | Closed

  /** The collector waits for worker `cur`, or has closed its output, with or without an error. */
  datatype Collector = Waiting(cur: nat) | Finished(ok: bool)

  datatype State = State(workers: seq<Worker>, collector: Collector, out: seq<Bytes>, cancelled: bool)

  datatype Act = Fetch(i: nat) | Fail(i: nat) | Exit(i: nat) | Drop(i: nat) | Collect | Cancel | Observe

  function Init(c: Config): State {
    State(seq(c.workers, i requires 0 <= i < c.workers => Fetching(c.first + i * c.batch)), Waiting(0), [], false)
  }

  function After(c: Config, cur: nat): nat { if cur + 1 >= c.workers then 0 else cur + 1 }

  /** One step; a step that is not possible changes nothing.  A worker whose fetch is done
      may see the cancellation instead of delivering, and closes its channel; reading a closed
      channel gives the collector an empty result that starts at 0. */
  function Next(c: Config, s: State, a: Act): State {
    match a
    case Fetch(i) =>
      if i < |s.workers| && s.workers[i].Fetching? && s.workers[i].start < c.treeSize
      then s.(workers := s.workers[i := Ready(s.workers[i].start, true)]) else s
    case Fail(i) =>
      if i < |s.workers| && s.workers[i].Fetching? && s.workers[i].start < c.treeSize
      then s.(workers := s.workers[i := Ready(s.workers[i].start, false)]) else s
    case Exit(i) =>
      if i < |s.workers| && s.workers[i].Fetching? && s.workers[i].start >= c.treeSize
      then s.(workers := s.workers[i := Closed]) else s
    case Drop(i) =>
      if i < |s.workers| && s.workers[i].Ready? && s.cancelled then s.(workers := s.workers[i := Closed]) else s
    case Collect =>
      if s.collector.Waiting? && s.collector.cur < |s.workers| then CollectFrom(c, s, s.collector.cur) else s
    case Cancel => s.(cancelled := true)
    case Observe => if s.collector.Waiting? && s.cancelled then s.(collector := Finished(false)) else s
  }

  function CollectFrom(c: Config, s: State, cur: nat): State
    requires cur < |s.workers|
  {
    match s.workers[cur]
    case Fetching(_) => s
    case Closed => s.(collector := if c.LastStart() == 0 then Finished(true) else Waiting(After(c, cur)))
    case Ready(start, ok) =>
      var s' := s.(workers := s.workers[cur := Fetching(start + c.workers * c.batch)]);
      if !ok then s'.(collector := Finished(false))
      else
        var leaves := if start <= c.BatchEnd(start) <= |c.log| then c.log[start..c.BatchEnd(start)] else [];
        s'.(out := s.out + leaves,
            collector := if start >= c.LastStart() then Finished(true) else Waiting(After(c, cur)))
  }

  function Exec(c: Config, s: State, acts: seq<Act>): State
    decreases |acts|
  {
    if acts == [] then s else Exec(c, Next(c, s, acts[0]), acts[1..])
  }

  function Run(c: Config, acts: seq<Act>): State { Exec(c, Init(c), acts) }

  /** What was emitted is the beginning of the wanted leaves, in order. */
  ghost predicate InOrder(c: Config, s: State)
    requires c.Valid()
  {
    s.out <= c.log[c.first..c.treeSize]
  }

  ghost predicate AllEmitted(c: Config, s: State)
    requires c.Valid()
  {
    s.out == c.log[c.first..c.treeSize]
  }

  // ----- without cancellation -----

  /** How many turns until the collector visits worker i. */
  function Turns(c: Config, cur: nat, i: nat): nat
    requires cur < c.workers && i < c.workers
  {
    if i >= cur then i - cur else i + c.workers - cur
  }

  /** The batch a worker is on, when `base` is the start of the next batch to be collected. */
  function Expected(c: Config, base: nat, cur: nat, i: nat): nat
    requires cur < c.workers && i < c.workers
  {
    base + Turns(c, cur, i) * c.batch
  }

  ghost predicate WorkerOK(c: Config, base: nat, cur: nat, i: nat, w: Worker)
    requires cur < c.workers && i < c.workers
  {
    if w.Closed? then Expected(c, base, cur, i) >= c.treeSize else w.start == Expected(c, base, cur, i)
  }

  /** Every batch before `base` has been emitted and nothing else. */
  ghost predicate Collecting(c: Config, s: State, base: nat) {
    c.Valid() && |s.workers| == c.workers && s.collector.Waiting? && s.collector.cur < c.workers
    && c.first <= base < c.treeSize && s.out == c.log[c.first..base]
    && forall i :: 0 <= i < c.workers ==> WorkerOK(c, base, s.collector.cur, i, s.workers[i])
  }

  ghost predicate Inv(c: Config, s: State) {
    c.Valid() && if s.collector.Waiting? then Collecting(c, s, c.first + |s.out|)
                 else if s.collector.ok then AllEmitted(c, s) else InOrder(c, s)
  }

  lemma InitOK(c: Config)
    requires c.Valid()
    ensures Inv(c, Init(c))
  {
    assert c.log[c.first..c.first] == [];
  }

  /** After a batch is collected every other worker is one turn closer, and the worker just
      visited is on its next batch. */
  lemma TurnPasses(c: Config, base: nat, cur: nat, i: nat)
    requires c.Valid() && cur < c.workers && i < c.workers
    ensures Expected(c, base + c.batch, After(c, cur), i)
         == if i == cur then base + c.workers * c.batch else Expected(c, base, cur, i)
  {
    var t := Turns(c, cur, i);
    if i == cur {
      assert Turns(c, After(c, cur), i) == c.workers - 1;
      assert c.batch + (c.workers - 1) * c.batch == c.workers * c.batch;
    } else {
      assert Turns(c, After(c, cur), i) == t - 1;
      assert c.batch + (t - 1) * c.batch == t * c.batch;
    }
  }

  lemma CollectKeepsInv(c: Config, s: State)
    requires Inv(c, s) && s.collector.Waiting?
    ensures Inv(c, CollectFrom(c, s, s.collector.cur))
  {
    var cur, base := s.collector.cur, c.first + |s.out|;
    var w, s' := s.workers[cur], CollectFrom(c, s, cur);
    assert WorkerOK(c, base, cur, cur, w);
    if w.Ready? && w.ok {
      assert s'.out == c.log[c.first..c.BatchEnd(base)];
      if s'.collector.Waiting? {
        forall i | 0 <= i < c.workers ensures WorkerOK(c, base + c.batch, s'.collector.cur, i, s'.workers[i]) {
          assert WorkerOK(c, base, cur, i, s.workers[i]);
          TurnPasses(c, base, cur, i);
        }
      }
    }
  }

  lemma NextKeepsInv(c: Config, s: State, a: Act)
    requires Inv(c, s) && !s.cancelled && !a.Cancel?
    ensures Inv(c, Next(c, s, a)) && !Next(c, s, a).cancelled
  {
    if a.Collect? && s.collector.Waiting? { CollectKeepsInv(c, s); }
  }

  lemma {:induction false} ExecKeepsInv(c: Config, s: State, acts: seq<Act>)
    requires Inv(c, s) && !s.cancelled && Cancel !in acts
    ensures Inv(c, Exec(c, s, acts)) && !Exec(c, s, acts).cancelled
    decreases |acts|
  {
    if acts != [] {
      NextKeepsInv(c, s, acts[0]);
      ExecKeepsInv(c, Next(c, s, acts[0]), acts[1..]);
    }
  }

  /** Unless cancelled, every schedule emits the leaves in order, each once; the output is
      closed without an error only after the last one. */
  lemma EveryUncancelledRun(c: Config, acts: seq<Act>)
    requires c.Valid() && Cancel !in acts
    ensures InOrder(c, Run(c, acts))
    ensures Run(c, acts).collector == Finished(true) ==> AllEmitted(c, Run(c, acts))
  {
    InitOK(c);
    ExecKeepsInv(c, Init(c), acts);
  }

  /** The collector is never stuck: the worker it waits for can fetch or deliver. */
  lemma NeverStuck(c: Config, s: State)
    requires Inv(c, s) && s.collector.Waiting?
    ensures Next(c, s, Fetch(s.collector.cur)) != s || Next(c, s, Collect) != s
  {
    var cur := s.collector.cur;
    assert WorkerOK(c, c.first + |s.out|, cur, cur, s.workers[cur]);
  }

  function CountFetching(ws: seq<Worker>): nat {
    if ws == [] then 0 else CountFetching(ws[..|ws| - 1]) + if ws[|ws| - 1].Fetching? then 1 else 0
  }

  lemma {:induction false} CountFetchingUpdate(ws: seq<Worker>, i: nat, w: Worker)
    requires i < |ws|
    ensures CountFetching(ws[i := w])
         == CountFetching(ws) + (if w.Fetching? then 1 else 0) - (if ws[i].Fetching? then 1 else 0)
    decreases |ws|
  {
    var init := ws[..|ws| - 1];
    if i < |ws| - 1 {
      CountFetchingUpdate(init, i, w);
      assert ws[i := w][..|ws| - 1] == init[i := w];
    } else {
      assert ws[i := w][..|ws| - 1] == init;
    }
  }

  /** An upper bound on the steps still to come. */
  function Measure(c: Config, s: State): int {
    (if s.collector.Waiting? then 3 * (c.treeSize - c.first - |s.out|) + 1 else 0) + CountFetching(s.workers)
  }

  /** Every step that changes anything brings an uncancelled run closer to its end. */
  lemma StepsRunOut(c: Config, s: State, a: Act)
    requires Inv(c, s) && !s.cancelled && !a.Cancel? && Next(c, s, a) != s
    ensures 0 <= Measure(c, Next(c, s, a)) < Measure(c, s)
  {
    var s' := Next(c, s, a);
    NextKeepsInv(c, s, a);
    if a.Fetch? || a.Fail? || a.Exit? {
      CountFetchingUpdate(s.workers, a.i, s'.workers[a.i]);
    } else if a.Collect? {
      var cur := s.collector.cur;
      assert WorkerOK(c, c.first + |s.out|, cur, cur, s.workers[cur]);
      CountFetchingUpdate(s.workers, cur, s'.workers[cur]);
      assert s'.workers == s.workers[cur := s'.workers[cur]];
    }
  }

  // ----- without cancellation and errors -----

  predicate ErrorFree(a: Act) { !a.Cancel? && !a.Fail? }

  ghost predicate NoErrors(s: State) {
    !s.cancelled && s.collector != Finished(false)
    && forall i :: 0 <= i < |s.workers| && s.workers[i].Ready? ==> s.workers[i].ok
  }

  /** Every step of the schedule changes something. */
  predicate Effective(c: Config, s: State, acts: seq<Act>)
    decreases |acts|
  {
    acts == [] || (Next(c, s, acts[0]) != s && Effective(c, Next(c, s, acts[0]), acts[1..]))
  }

  lemma {:induction false} ErrorFreeExec(c: Config, s: State, acts: seq<Act>)
    requires Inv(c, s) && NoErrors(s) && Effective(c, s, acts) && forall a :: a in acts ==> ErrorFree(a)
    ensures Inv(c, Exec(c, s, acts)) && NoErrors(Exec(c, s, acts))
    ensures Measure(c, Exec(c, s, acts)) >= 0 && |acts| <= Measure(c, s) - Measure(c, Exec(c, s, acts))
    decreases |acts|
  {
    if acts == [] {
      MeasureNonNegative(c, s);
    } else {
      assert ErrorFree(acts[0]);
      NextKeepsInv(c, s, acts[0]);
      StepsRunOut(c, s, acts[0]);
      ErrorFreeNext(c, s, acts[0]);
      ErrorFreeExec(c, Next(c, s, acts[0]), acts[1..]);
    }
  }

  lemma ErrorFreeNext(c: Config, s: State, a: Act)
    requires NoErrors(s) && ErrorFree(a)
    ensures NoErrors(Next(c, s, a))
  {
  }

  lemma MeasureNonNegative(c: Config, s: State)
    requires Inv(c, s)
    ensures Measure(c, s) >= 0
  {
  }

  /** Without fetch errors and cancellation every schedule, however workers and collector
      interleave, emits the leaves in order and never an error; it cannot go on forever; and
      where it can go no further all leaves have been emitted and the output is closed. */
  lemma EveryErrorFreeRun(c: Config, acts: seq<Act>)
    requires c.Valid() && Effective(c, Init(c), acts) && forall a :: a in acts ==> ErrorFree(a)
    ensures var s := Run(c, acts);
            InOrder(c, s) && s.collector != Finished(false) && |acts| <= Measure(c, Init(c))
            && ((forall a :: ErrorFree(a) ==> Next(c, s, a) == s) ==> s.collector == Finished(true) && AllEmitted(c, s))
  {
    InitOK(c);
    ErrorFreeExec(c, Init(c), acts);
    var s := Run(c, acts);
    if s.collector.Waiting? {
      NeverStuck(c, s);
      assert ErrorFree(Fetch(s.collector.cur)) && ErrorFree(Collect);
    }
  }

  // ----- where batches start -----

  /** Every batch starts a whole number of batches after the first leaf. */
  ghost predicate Aligned(c: Config, s: State)
    requires c.batch >= 1
  {
    forall i :: 0 <= i < |s.workers| && !s.workers[i].Closed? ==>
      s.workers[i].start >= c.first && (s.workers[i].start - c.first) % c.batch == 0
  }

  lemma AddBatches(x: nat, k: nat, b: nat)
    requires b > 0 && x % b == 0
    ensures (x + k * b) % b == 0
  {
    var q := x / b;
    assert x + k * b == (q + k) * b;
    DivModUnique(q + k, 0, b);
  }

  lemma {:induction false} BatchesStayAligned(c: Config, s: State, acts: seq<Act>)
    requires c.batch >= 1 && Aligned(c, s)
    ensures Aligned(c, Exec(c, s, acts))
    decreases |acts|
  {
    if acts != [] {
      StepStaysAligned(c, s, acts[0]);
      BatchesStayAligned(c, Next(c, s, acts[0]), acts[1..]);
    }
  }

  lemma StepStaysAligned(c: Config, s: State, a: Act)
    requires c.batch >= 1 && Aligned(c, s)
    ensures Aligned(c, Next(c, s, a))
  {
    var s' := Next(c, s, a);
    if a.Collect? && s.collector.Waiting? && s.collector.cur < |s.workers| && s.workers[s.collector.cur].Ready? {
      NextBatchAligned(c, s.workers[s.collector.cur].start);
      var cur := s.collector.cur;
      assert s'.workers == s.workers[cur := Fetching(s.workers[cur].start + c.workers * c.batch)];
    }
  }

  lemma NextBatchAligned(c: Config, start: nat)
    requires c.batch >= 1 && start >= c.first && (start - c.first) % c.batch == 0
    ensures start + c.workers * c.batch >= c.first && (start + c.workers * c.batch - c.first) % c.batch == 0
  {
    AddBatches(start - c.first, c.workers, c.batch);
  }

  /** If the first leaf is on a batch boundary, so is every batch any worker ever fetches. */
  lemma FetchesOnBoundaries(c: Config, acts: seq<Act>, i: nat)
    requires c.batch >= 1 && c.first % c.batch == 0
    requires i < |Run(c, acts).workers| && !Run(c, acts).workers[i].Closed?
    ensures Run(c, acts).workers[i].start % c.batch == 0
  {
    forall k | 0 <= k < c.workers ensures (k * c.batch) % c.batch == 0 { AddBatches(0, k, c.batch); }
    assert Aligned(c, Init(c));
    BatchesStayAligned(c, Init(c), acts);
    var start := Run(c, acts).workers[i].start;
    SumAligned(c.first, start - c.first, c.batch);
  }

  lemma SumAligned(a: nat, b: nat, m: nat)
    requires m > 0 && a % m == 0 && b % m == 0
    ensures (a + b) % m == 0
  {
    var q := b / m;
    assert b == q * m;
    AddBatches(a, q, m);
  }

  // ----- with cancellation -----

  /** The configurations in which a cancellation cannot make the collector skip a batch. */
  predicate CannotSkip(c: Config) { c.workers == 1 || c.OneBatch() }

  /** The invariant of such configurations under cancellation. */
  ghost predicate SafeInv(c: Config, s: State) {
    c.Valid() && CannotSkip(c) && |s.workers| == c.workers && InOrder(c, s)
    && match s.collector
       case Finished(ok) => ok && c.treeSize > c.batch ==> AllEmitted(c, s)
       case Waiting(cur) =>
         cur < c.workers && c.first + |s.out| < c.treeSize
         && (s.workers[0].Closed? || (cur == 0 && s.workers[0].start == c.first + |s.out|))
         && (c.workers > 1 ==> s.out == [] && OthersIdle(c, s))
  }

  /** Only the first worker has a batch to fetch. */
  predicate OthersIdle(c: Config, s: State)
    requires |s.workers| == c.workers
  {
    forall i :: 1 <= i < c.workers ==>
      s.workers[i].Closed? || (s.workers[i].Fetching? && s.workers[i].start >= c.treeSize)
  }

  lemma SafeInit(c: Config)
    requires c.Valid() && CannotSkip(c)
    ensures SafeInv(c, Init(c))
  {
    forall i | 1 <= i < c.workers ensures Init(c).workers[i].start >= c.first + c.batch {
      LaterBatch(i, c.batch);
    }
  }

  lemma LaterBatch(i: nat, batch: nat)
    requires i >= 1
    ensures i * batch >= batch
  {
  }

  lemma SafeNext(c: Config, s: State, a: Act)
    requires SafeInv(c, s)
    ensures SafeInv(c, Next(c, s, a))
  {
    if a.Collect? && s.collector.Waiting? {
      var cur, base := s.collector.cur, c.first + |s.out|;
      var w, s' := s.workers[cur], Next(c, s, a);
      if w.Ready? && w.ok {
        assert cur == 0 && w.start == base;
        assert s.out == c.log[c.first..base];
        assert s'.out == c.log[c.first..c.BatchEnd(base)];
      }
    }
  }

  lemma {:induction false} SafeExec(c: Config, s: State, acts: seq<Act>)
    requires SafeInv(c, s)
    ensures SafeInv(c, Exec(c, s, acts))
    decreases |acts|
  {
    if acts != [] {
      SafeNext(c, s, acts[0]);
      SafeExec(c, Next(c, s, acts[0]), acts[1..]);
    }
  }

  lemma {:induction false} ExecConcat(c: Config, s: State, a: seq<Act>, b: seq<Act>)
    ensures Exec(c, s, a + b) == Exec(c, Exec(c, s, a), b)
    decreases |a|
  {
    if a == [] {
      assert a + b == b;
    } else {
      assert (a + b)[0] == a[0] && (a + b)[1..] == a[1..] + b;
      ExecConcat(c, Next(c, s, a[0]), a[1..], b);
    }
  }

  /** All workers are fetching, none has been told to stop. */
  ghost predicate Fresh(c: Config, s: State, base: nat) {
    Collecting(c, s, base) && !s.cancelled && forall i :: 0 <= i < c.workers ==> s.workers[i].Fetching?
  }

  /** The collector can get past any number of batches that are not the last. */
  lemma {:induction false} ReachBatch(c: Config, k: nat) returns (acts: seq<Act>)
    requires c.Valid() && c.first + k * c.batch < c.treeSize
    ensures Fresh(c, Run(c, acts), c.first + k * c.batch)
    decreases k
  {
    InitOK(c);
    if k == 0 {
      acts := [];
    } else {
      OneMore(k - 1, c.batch);
      var before := ReachBatch(c, k - 1);
      var s := Run(c, before);
      var cur, base := s.collector.cur, c.first + (k - 1) * c.batch;
      acts := before + [Fetch(cur), Collect];
      ExecConcat(c, Init(c), before, [Fetch(cur), Collect]);
      TwoSteps(c, s, Fetch(cur), Collect);
      DeliverOne(c, s, base);
    }
  }

  lemma OneMore(k: nat, b: nat)
    ensures (k + 1) * b == k * b + b
  {
  }

  lemma TwoSteps(c: Config, s: State, a: Act, b: Act)
    ensures Exec(c, s, [a, b]) == Next(c, Next(c, s, a), b)
  {
    assert [a, b][1..] == [b] && [b][1..] == [];
    assert Exec(c, Next(c, s, a), [b]) == Next(c, Next(c, s, a), b);
  }

  lemma DeliverOne(c: Config, s: State, base: nat)
    requires Fresh(c, s, base) && base + c.batch < c.treeSize
    ensures Fresh(c, Next(c, Next(c, s, Fetch(s.collector.cur)), Collect), base + c.batch)
  {
    var cur := s.collector.cur;
    var s1 := Next(c, s, Fetch(cur));
    assert WorkerOK(c, base, cur, cur, s.workers[cur]);
    assert |s.out| == base - c.first;
    assert Collecting(c, s1, base);
    CollectKeepsInv(c, s1);
    assert |Next(c, s1, Collect).out| == base + c.batch - c.first;
  }

  /** A cancelled worker drops its batch, and the collector goes on to the next worker. */
  lemma SkipBatch(c: Config, s: State, base: nat) returns (acts: seq<Act>)
    requires Fresh(c, s, base)
    ensures var cur, s' := s.collector.cur, Exec(c, s, acts);
            s' == State(s.workers[cur := Closed],
                        if c.LastStart() == 0 then Finished(true) else Waiting(After(c, cur)), s.out, true)
  {
    var cur := s.collector.cur;
    acts := [Fetch(cur), Cancel] + [Drop(cur), Collect];
    ExecConcat(c, s, [Fetch(cur), Cancel], [Drop(cur), Collect]);
    TwoSteps(c, s, Fetch(cur), Cancel);
    var s1 := Exec(c, s, [Fetch(cur), Cancel]);
    TwoSteps(c, s1, Drop(cur), Collect);
    assert WorkerOK(c, base, cur, cur, s.workers[cur]);
    assert Next(c, s1, Drop(cur)).workers == s.workers[cur := Closed];
  }

  /** After the skip the next worker delivers the following batch. */
  lemma SkipAndDeliver(c: Config, s: State, base: nat) returns (acts: seq<Act>)
    requires Fresh(c, s, base) && base + c.batch < c.treeSize && c.workers >= 2
    ensures var s', next := Exec(c, s, acts), base + c.batch;
            s'.out == s.out + c.log[next..c.BatchEnd(next)]
            && (next >= c.LastStart() ==> s'.collector == Finished(true))
  {
    var cur := s.collector.cur;
    var next := After(c, cur);
    var skip := SkipBatch(c, s, base);
    acts := skip + [Fetch(next), Collect];
    ExecConcat(c, s, skip, [Fetch(next), Collect]);
    var s1 := Exec(c, s, skip);
    TwoSteps(c, s1, Fetch(next), Collect);
    assert WorkerOK(c, base, cur, next, s.workers[next]);
    assert Turns(c, cur, next) == 1;
    DeliverNext(c, s1, next, base + c.batch);
  }

  lemma DeliverNext(c: Config, s: State, i: nat, start: nat)
    requires c.Valid() && i < |s.workers| && s.workers[i] == Fetching(start) && s.collector == Waiting(i)
             && start < c.treeSize
    ensures var s' := Next(c, Next(c, s, Fetch(i)), Collect);
            s'.out == s.out + c.log[start..c.BatchEnd(start)]
            && (start >= c.LastStart() ==> s'.collector == Finished(true))
  {
    var s1 := Next(c, s, Fetch(i));
    assert s1.workers[i] == Ready(start, true);
  }

  /** Under cancellation, in every schedule and for every log, what is emitted is an in-order
      prefix exactly if there is one worker or one batch. */
  lemma OrderUnderCancellation(first: nat, treeSize: nat, workers: nat, batch: nat)
    requires first < treeSize && workers >= 1 && batch >= 1
    ensures (forall log, acts :: |log| >= treeSize ==>
               var c := Config(log, first, treeSize, workers, batch); InOrder(c, Run(c, acts)))
       <==> workers == 1 || treeSize - first <= batch
  {
    if workers == 1 || treeSize - first <= batch {
      forall log, acts | |log| >= treeSize
        ensures var c := Config(log, first, treeSize, workers, batch); InOrder(c, Run(c, acts))
      {
        var c := Config(log, first, treeSize, workers, batch);
        SafeInit(c);
        SafeExec(c, Init(c), acts);
      }
    } else {
      var log, acts := SkipBreaksOrder(first, treeSize, workers, batch);
    }
  }

  /** A log and a schedule that show it: the first batch is skipped, and its first leaf is
      unlike the others. */
  lemma SkipBreaksOrder(first: nat, treeSize: nat, workers: nat, batch: nat) returns (log: seq<Bytes>, acts: seq<Act>)
    requires first < treeSize && workers >= 2 && 1 <= batch < treeSize - first
    ensures |log| >= treeSize && !InOrder(Config(log, first, treeSize, workers, batch),
                                          Run(Config(log, first, treeSize, workers, batch), acts))
  {
    log := seq(treeSize, i => if i == first then [1] else [0]);
    var c := Config(log, first, treeSize, workers, batch);
    InitOK(c);
    acts := SkipAndDeliver(c, Init(c), first);
    assert Run(c, acts).out[0] == [0] && log[first..treeSize][0] == [1];
  }

  /** Under cancellation, closing without an error means that all leaves were emitted exactly
      if, moreover, the tree is larger than a batch. */
  lemma CleanCloseUnderCancellation(log: seq<Bytes>, first: nat, treeSize: nat, workers: nat, batch: nat)
    requires first < treeSize <= |log| && workers >= 1 && batch >= 1
    ensures var c := Config(log, first, treeSize, workers, batch);
            (forall acts :: Run(c, acts).collector == Finished(true) ==> AllEmitted(c, Run(c, acts)))
            <==> treeSize > batch && (workers == 1 || treeSize - first <= batch)
  {
    var c := Config(log, first, treeSize, workers, batch);
    if CannotSkip(c) && treeSize > batch {
      forall acts | Run(c, acts).collector == Finished(true) ensures AllEmitted(c, Run(c, acts)) {
        SafeInit(c);
        SafeExec(c, Init(c), acts);
      }
    } else if treeSize <= batch {
      InitOK(c);
      var acts := SkipBatch(c, Init(c), first);
      assert Run(c, acts).collector == Finished(true) && !AllEmitted(c, Run(c, acts));
    } else {
      var k := SecondToLast(c);
      var before := ReachBatch(c, k);
      var s := Run(c, before);
      var rest := SkipAndDeliver(c, s, first + k * batch);
      ExecConcat(c, Init(c), before, rest);
      assert Run(c, before + rest).collector == Finished(true) && !AllEmitted(c, Run(c, before + rest));
    }
  }

  lemma SecondToLast(c: Config) returns (k: nat)
    requires c.Valid() && !c.OneBatch()
    ensures c.first + k * c.batch + c.batch < c.treeSize <= c.first + k * c.batch + 2 * c.batch
  {
    k := 0;
    while c.first + k * c.batch + 2 * c.batch < c.treeSize
      invariant c.first + k * c.batch + c.batch < c.treeSize
      decreases c.treeSize - k * c.batch
    {
      OneMore(k, c.batch);
      k := k + 1;
    }
  }

  // ----- what was emitted before a cancellation -----

  function BeforeCancel(acts: seq<Act>): (r: seq<Act>)
    ensures r <= acts && Cancel !in r && (Cancel !in acts ==> r == acts)
  {
    if acts == [] || acts[0].Cancel? then [] else [acts[0]] + BeforeCancel(acts[1..])
  }

  /** The number of leaves emitted before the run was cancelled, if it was. */
  function Live(c: Config, acts: seq<Act>): nat { |Run(c, BeforeCancel(acts)).out| }

  lemma {:induction false} OutputOnlyGrows(c: Config, s: State, acts: seq<Act>)
    ensures s.out <= Exec(c, s, acts).out
    decreases |acts|
  {
    if acts != [] { OutputOnlyGrows(c, Next(c, s, acts[0]), acts[1..]); }
  }

  lemma SplitRun(c: Config, acts: seq<Act>) returns (rest: seq<Act>)
    ensures Run(c, acts) == Exec(c, Run(c, BeforeCancel(acts)), rest)
  {
    var before := BeforeCancel(acts);
    rest := acts[|before|..];
    assert acts == before + rest;
    ExecConcat(c, Init(c), before, rest);
  }

  /** In every schedule, what was emitted before the cancellation is an in-order prefix. */
  lemma LiveIsInOrder(c: Config, acts: seq<Act>)
    requires c.Valid()
    ensures Live(c, acts) <= |Run(c, acts).out| && Run(c, acts).out[..Live(c, acts)] <= c.log[c.first..c.treeSize]
    ensures Cancel !in acts ==> Live(c, acts) == |Run(c, acts).out|
  {
    var before := BeforeCancel(acts);
    EveryUncancelledRun(c, before);
    var rest := SplitRun(c, acts);
    OutputOnlyGrows(c, Run(c, before), rest);
  }

  ghost predicate ReadyInRange(c: Config, s: State) {
    forall i :: 0 <= i < |s.workers| && s.workers[i].Ready? ==> s.workers[i].start < c.treeSize
  }

  lemma {:induction false} ReadyStaysInRange(c: Config, s: State, acts: seq<Act>)
    requires ReadyInRange(c, s)
    ensures ReadyInRange(c, Exec(c, s, acts))
    decreases |acts|
  {
    if acts != [] { ReadyStaysInRange(c, Next(c, s, acts[0]), acts[1..]); }
  }

  /** A collector that finishes after some point has emitted something after it, unless the
      tree is no larger than a batch. */
  lemma {:induction false} FinishingEmits(c: Config, s: State, acts: seq<Act>)
    requires c.Valid() && ReadyInRange(c, s) && c.treeSize > c.batch && s.collector.Waiting?
    requires Exec(c, s, acts).collector == Finished(true)
    ensures |Exec(c, s, acts).out| > |s.out|
    decreases |acts|
  {
    var s' := Next(c, s, acts[0]);
    OutputOnlyGrows(c, s', acts[1..]);
    if s'.collector.Waiting? {
      FinishingEmits(c, s', acts[1..]);
    } else {
      FinishedStays(c, s', acts[1..]);
    }
  }

  lemma {:induction false} FinishedStays(c: Config, s: State, acts: seq<Act>)
    requires s.collector.Finished?
    ensures Exec(c, s, acts).collector == s.collector && Exec(c, s, acts).out == s.out
    decreases |acts|
  {
    if acts != [] { FinishedStays(c, Next(c, s, acts[0]), acts[1..]); }
  }

  /** A run that closes without an error and has emitted nothing since it was cancelled has
      emitted everything. */
  lemma SilentCloseIsComplete(c: Config, acts: seq<Act>)
    requires c.Valid() && Run(c, acts).collector == Finished(true) && |Run(c, acts).out| == Live(c, acts)
    requires c.treeSize > c.batch || Cancel !in acts
    ensures AllEmitted(c, Run(c, acts))
  {
    var before := BeforeCancel(acts);
    var s := Run(c, before);
    InitOK(c);
    ExecKeepsInv(c, Init(c), before);
    ReadyStaysInRange(c, Init(c), before);
    var rest := SplitRun(c, acts);
    if s.collector.Waiting? {
      if Cancel in acts { FinishingEmits(c, s, rest); }
    } else {
      FinishedStays(c, s, rest);
    }
  }

  /** That it has emitted everything holds in every schedule exactly if the tree is larger
      than a batch. */
  lemma SilentCloseUnderCancellation(log: seq<Bytes>, first: nat, treeSize: nat, workers: nat, batch: nat)
    requires first < treeSize <= |log| && workers >= 1 && batch >= 1
    ensures var c := Config(log, first, treeSize, workers, batch);
            (forall acts :: Run(c, acts).collector == Finished(true) && |Run(c, acts).out| == Live(c, acts) ==>
              AllEmitted(c, Run(c, acts)))
            <==> treeSize > batch
  {
    var c := Config(log, first, treeSize, workers, batch);
    if treeSize > batch {
      forall acts | Run(c, acts).collector == Finished(true) && |Run(c, acts).out| == Live(c, acts)
        ensures AllEmitted(c, Run(c, acts))
      {
        SilentCloseIsComplete(c, acts);
      }
    } else {
      InitOK(c);
      var acts := SkipBatch(c, Init(c), first);
      LiveIsInOrder(c, acts);
      assert Run(c, acts).out == [] && !AllEmitted(c, Run(c, acts));
    }
  }
}
