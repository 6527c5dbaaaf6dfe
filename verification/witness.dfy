/** The witness: it cosigns a checkpoint only after checking that it extends the last
    checkpoint it cosigned for the same log.  The decision is a function of a snapshot of the
    stored state; what is stored is replaced by compare-and-swap, so that concurrent updates
    cannot fork the history. */
module Witness {
  import opened Merkle
  import opened CompactRange
  import opened Consistency

  type LogId = string
  type Key = nat

  datatype Checkpoint = Checkpoint(size: nat, hash: Digest)

  /** A checkpoint note: its text, which may have further lines, and the keys that have signed
      it. */
  datatype Note = Garbage | Note(origin: string, cp: Checkpoint, ext: string, signers: set<Key>)

  datatype LogInfo = LogInfo(key: Key, origin: string, useCompact: bool)

  datatype Config = Config(signer: Key, logs: map<LogId, LogInfo>)

  /** What is persisted for a log: the cosigned checkpoint and, for compact-range logs, the
      hashes of its compact range. */
  datatype Stored = Stored(chkpt: Note, range: seq<Digest>)

  datatype Code = NotFound | InvalidArgument | AlreadyExists | FailedPrecondition | Internal

  datatype Reply = Reply(chkpt: Option<Note>, err: Option<Code>)

  /** A note parses when it is well formed, has the expected origin and is signed by the log. */
  function Parse(info: LogInfo, raw: Note): Option<Checkpoint> {
    if raw.Note? && raw.origin == info.origin && info.key in raw.signers then Some(raw.cp) else None
  }

  function Cosign(cfg: Config, raw: Note): Note {
    if raw.Note? then raw.(signers := raw.signers + {cfg.signer}) else raw
  }

  predicate VerifyRangeHash(root: Digest, r: Range)
    requires r.begin == 0
  {
    GetRootHash(r) == root
  }

  /** Check the stored range against the stored checkpoint, extend it with the given hashes
      and check the result against the new checkpoint. */
  function VerifyRange(next: Checkpoint, prev: Checkpoint, stored: seq<Digest>,
                       delta: seq<Digest>): Option<seq<Digest>> {
    var rng := NewRange(0, prev.size, stored);
    if rng.None? || !VerifyRangeHash(prev.hash, rng.value) then None else
    var d := NewRange(prev.size, next.size, delta);
    if d.None? then None else
    var merged := AppendRange(rng.value, d.value);
    if VerifyRangeHash(next.hash, merged) then Some(merged.Hashes()) else None
  }

  /** Reading back the stored range: the empty encoding is rejected. */
  function UnmarshalRange(stored: seq<Digest>): Option<seq<Digest>> {
    if stored == [] then None else Some(stored)
  }

  datatype Decision = Answer(reply: Reply) | Store(state: Stored)

  function Refuse(chkpt: Option<Note>, code: Code): Decision {
    Answer(Reply(chkpt, Some(code)))
  }

  /** What `Update` does with the state it has read. */
  function Decide(cfg: Config, id: LogId, nextRaw: Note, proof: seq<Digest>, snapshot: Option<Stored>): Decision {
    if id !in cfg.logs then Refuse(None, NotFound) else
    var info := cfg.logs[id];
    var next := Parse(info, nextRaw);
    if next.None? then Refuse(None, InvalidArgument)
    else if snapshot.None? then DecideFirst(cfg, info, nextRaw, next.value, proof)
    else
      var prevRaw := snapshot.value.chkpt;
      var prev := Parse(info, prevRaw);
      if prev.None? then Refuse(None, Internal)
      else if info.useCompact && UnmarshalRange(snapshot.value.range).None? then Refuse(None, InvalidArgument)
      else if next.value.size < prev.value.size then Refuse(Some(prevRaw), AlreadyExists)
      else if next.value.size == prev.value.size then
        if next.value.hash != prev.value.hash then Refuse(Some(prevRaw), FailedPrecondition)
        else Answer(Reply(Some(prevRaw), None))
      else if info.useCompact then
        var r := VerifyRange(next.value, prev.value, snapshot.value.range, proof);
        if r.None? then Refuse(Some(prevRaw), FailedPrecondition)
        else Store(Stored(Cosign(cfg, nextRaw), r.value))
      else if !VerifyConsistency(prev.value.size, next.value.size, proof, prev.value.hash, next.value.hash) then
        Refuse(Some(prevRaw), FailedPrecondition)
      else Store(Stored(Cosign(cfg, nextRaw), []))
  }

  /** Trust on first use: a compact range must match the checkpoint it comes with. */
  function DecideFirst(cfg: Config, info: LogInfo, nextRaw: Note, next: Checkpoint, proof: seq<Digest>): Decision {
    if info.useCompact then
      var rng := NewRange(0, next.size, proof);
      if rng.None? || !VerifyRangeHash(next.hash, rng.value) then Refuse(None, Internal)
      else Store(Stored(Cosign(cfg, nextRaw), proof))
    else Store(Stored(Cosign(cfg, nextRaw), []))
  }

  // ----- what an accepted range proves -----

  /** If arbitrary hashes are accepted, they are the hashes of every log that has the new
      root, and that log starts with a log that has the old root. */
  lemma VerifyRangeSound(next: Checkpoint, prev: Checkpoint, stored: seq<Digest>, delta: seq<Digest>, log: seq<Bytes>)
    requires VerifyRange(next, prev, stored, delta).Some?
    requires |log| == next.size > 0 && Mth(log) == next.hash
    ensures prev.size <= next.size
    ensures prev.size > 0 ==> Mth(log[..prev.size]) == prev.hash
    ensures var row := LeafDigests(log);
            VerifyRange(next, prev, stored, delta) == Some(RangeHashes(row, 0, next.size))
            && stored == RangeHashes(row, 0, prev.size)
            && delta == RangeHashes(row, prev.size, next.size)
  {
    var row, m, n := LeafDigests(log), prev.size, next.size;
    var rng, d := NewRange(0, m, stored).value, NewRange(m, n, delta).value;
    assert log[..n] == log;
    RootFixesRange(log, n, AppendRange(rng, d));
    PartsOfHonest(row, rng, d);
    ToSeqFromSeq(0, m, stored);
    ToSeqFromSeq(m, n, delta);
    if m > 0 { HonestRootIsMth(log, m); }
  }

  /** A range with the root of a log is the range of that log. */
  lemma RootFixesRange(log: seq<Bytes>, n: nat, r: Range)
    requires 0 < n <= |log| && r.Valid() && r.begin == 0 && r.end == n && GetRootHash(r) == Mth(log[..n])
    ensures r == Honest(LeafDigests(log), 0, n)
  {
    HonestRootIsMth(log, n);
    RootInjective(0, n, r.spine, None, SpineOf(LeafDigests(log), 0, n), None);
  }

  /** Ranges that merge into the range of a tree are ranges of that tree. */
  lemma PartsOfHonest(row: seq<Digest>, a: Range, b: Range)
    requires a.Valid() && b.Valid() && a.begin == 0 && a.end == b.begin && b.end <= |row|
    requires AppendRange(a, b) == Honest(row, 0, b.end)
    ensures a == Honest(row, 0, a.end) && b == Honest(row, a.end, b.end)
  {
    var m, n := a.end, b.end;
    MergeHonest(0, row, 0, m, n);
    MergeInjective(0, 0, m, n, a.spine, b.spine, SpineOf(row, 0, m), SpineOf(row, m, n));
  }

  /** The hashes of the log itself are accepted. */
  lemma VerifyRangeComplete(log: seq<Bytes>, m: nat, n: nat)
    requires 0 < m <= n <= |log|
    ensures var row := LeafDigests(log);
            VerifyRange(Checkpoint(n, Mth(log[..n])), Checkpoint(m, Mth(log[..m])), RangeHashes(row, 0, m),
                        RangeHashes(row, m, n))
            == Some(RangeHashes(row, 0, n))
  {
    var row := LeafDigests(log);
    NewRangeHonest(row, 0, m);
    NewRangeHonest(row, m, n);
    AppendRangeHonest(row, 0, m, n);
    HonestRootIsMth(log, m);
    HonestRootIsMth(log, n);
  }

  // ----- histories -----

  /** Every log with the root of `b` starts with a log that has the root of `a`. */
  ghost predicate Extends(a: Checkpoint, b: Checkpoint) {
    a.size <= b.size
    && (a.size > 0 ==> forall log :: |log| == b.size && Mth(log) == b.hash ==> Mth(log[..a.size]) == a.hash)
  }

  lemma ExtendsTransitive(a: Checkpoint, b: Checkpoint, c: Checkpoint)
    requires Extends(a, b) && Extends(b, c)
    ensures Extends(a, c)
  {
    forall log | a.size > 0 && |log| == c.size && Mth(log) == c.hash
      ensures Mth(log[..a.size]) == a.hash
    {
      assert Mth(log[..b.size]) == b.hash;
      assert log[..b.size][..a.size] == log[..a.size];
    }
  }

  /** A stored state that `Update` can have produced for the log. */
  ghost predicate Sane(cfg: Config, info: LogInfo, s: Stored) {
    Parse(info, s.chkpt).Some? && cfg.signer in s.chkpt.signers
    && (info.useCompact ==> RangeFor(s.chkpt.cp, s.range))
  }

  /** The range has the shape and the root of the checkpoint. */
  predicate RangeFor(cp: Checkpoint, range: seq<Digest>) {
    var r := NewRange(0, cp.size, range);
    r.Some? && VerifyRangeHash(cp.hash, r.value)
  }

  /** The committed states of one log: sizes grow strictly, and every state extends all
      earlier ones. */
  ghost predicate History(cfg: Config, info: LogInfo, h: seq<Stored>) {
    (forall i :: 0 <= i < |h| ==> Sane(cfg, info, h[i]))
    && (forall i, j :: 0 <= i < j < |h| ==> h[i].chkpt.cp.size < h[j].chkpt.cp.size)
    && (forall i, j :: 0 <= i < j < |h| ==> Extends(h[i].chkpt.cp, h[j].chkpt.cp))
  }

  /** A state to be stored is a sane successor of the snapshot it was computed from. */
  lemma DecideSound(cfg: Config, id: LogId, nextRaw: Note, proof: seq<Digest>, snapshot: Option<Stored>)
    requires Decide(cfg, id, nextRaw, proof, snapshot).Store?
    ensures id in cfg.logs
    ensures var s := Decide(cfg, id, nextRaw, proof, snapshot).state;
            Sane(cfg, cfg.logs[id], s) && s.chkpt == Cosign(cfg, nextRaw)
    ensures snapshot.Some? ==> snapshot.value.chkpt.Note?
    ensures snapshot.Some? ==>
              var a, b := snapshot.value.chkpt.cp, Decide(cfg, id, nextRaw, proof, snapshot).state.chkpt.cp;
              a.size < b.size && Extends(a, b)
  {
    var info, s := cfg.logs[id], Decide(cfg, id, nextRaw, proof, snapshot).state;
    if snapshot.Some? {
      var prev, next := snapshot.value.chkpt.cp, nextRaw.cp;
      if info.useCompact { VerifyRangeKeepsRoot(next, prev, snapshot.value.range, proof); }
      forall log | prev.size > 0 && |log| == next.size && Mth(log) == next.hash
        ensures Mth(log[..prev.size]) == prev.hash
      {
        if info.useCompact { VerifyRangeSound(next, prev, snapshot.value.range, proof, log); }
        else { ConsistencySound(prev.size, next.size, proof, prev.hash, next.hash, log); }
      }
    }
  }

  /** The range that is stored again has the root of the checkpoint stored with it. */
  lemma VerifyRangeKeepsRoot(next: Checkpoint, prev: Checkpoint, stored: seq<Digest>, delta: seq<Digest>)
    requires VerifyRange(next, prev, stored, delta).Some?
    ensures RangeFor(next, VerifyRange(next, prev, stored, delta).value)
  {
    var merged := AppendRange(NewRange(0, prev.size, stored).value, NewRange(prev.size, next.size, delta).value);
    FromSeqToSeq(0, next.size, merged.spine);
  }

  lemma HistoryGrows(cfg: Config, info: LogInfo, h: seq<Stored>, s: Stored)
    requires History(cfg, info, h) && Sane(cfg, info, s)
    requires h != [] ==> h[|h| - 1].chkpt.cp.size < s.chkpt.cp.size && Extends(h[|h| - 1].chkpt.cp, s.chkpt.cp)
    ensures History(cfg, info, h + [s])
  {
    var h' := h + [s];
    forall i | 0 <= i < |h| ensures h[i].chkpt.cp.size < s.chkpt.cp.size && Extends(h[i].chkpt.cp, s.chkpt.cp) {
      OlderExtends(cfg, info, h, i, s.chkpt.cp);
    }
    assert forall i :: 0 <= i < |h'| ==> h'[i] == if i < |h| then h[i] else s;
  }

  lemma OlderExtends(cfg: Config, info: LogInfo, h: seq<Stored>, i: nat, cp: Checkpoint)
    requires i < |h| && History(cfg, info, h)
    requires h[|h| - 1].chkpt.cp.size < cp.size && Extends(h[|h| - 1].chkpt.cp, cp)
    ensures h[i].chkpt.cp.size < cp.size && Extends(h[i].chkpt.cp, cp)
  {
    if i < |h| - 1 { ExtendsTransitive(h[i].chkpt.cp, h[|h| - 1].chkpt.cp, cp); }
  }

  // ----- every interleaving of updates -----

  /** A call of `Update` that has read its snapshot and not yet finished. */
  datatype Session = Session(id: LogId, raw: Note, proof: seq<Digest>, snapshot: Option<Stored>)

  /** `store` is the persisted map; `history` and `replies` record what was committed and
      what callers were told. */
  datatype System = System(
    store: map<LogId, Stored>,
    sessions: map<nat, Session>,
    history: map<LogId, seq<Stored>>,
    replies: seq<(LogId, Reply)>)

  function Lookup(store: map<LogId, Stored>, id: LogId): Option<Stored> {
    if id in store then Some(store[id]) else None
  }

  function HistoryOf(s: System, id: LogId): seq<Stored> {
    if id in s.history then s.history[id] else []
  }

  datatype Step =
    | Begin(sid: nat, id: LogId, raw: Note, proof: seq<Digest>)
    | Finish(sid: nat)
    | Abandon(sid: nat)
    | GetCheckpoint(id: LogId)

  /** Write only if the state is still the one that was read. */
  function ExpectAndWrite(store: map<LogId, Stored>, id: LogId, old': Option<Stored>,
                          state: Stored): Option<map<LogId, Stored>> {
    if Lookup(store, id) == old' then Some(store[id := state]) else None
  }

  function Next(cfg: Config, s: System, step: Step): System {
    match step
    case Begin(sid, id, raw, proof) =>
      if sid in s.sessions then s
      else s.(sessions := s.sessions[sid := Session(id, raw, proof, Lookup(s.store, id))])
    case Finish(sid) =>
      if sid in s.sessions then FinishSession(cfg, s.(sessions := s.sessions - {sid}), s.sessions[sid]) else s
    case Abandon(sid) =>
      s.(sessions := s.sessions - {sid})
    case GetCheckpoint(id) =>
      var c := Lookup(s.store, id);
      Answered(s, id, if c.Some? then Reply(Some(c.value.chkpt), None) else Reply(None, Some(NotFound)))
  }

  function Answered(s: System, id: LogId, r: Reply): System {
    s.(replies := s.replies + [(id, r)])
  }

  function FinishSession(cfg: Config, s: System, c: Session): System {
    match Decide(cfg, c.id, c.raw, c.proof, c.snapshot)
    case Answer(r) => Answered(s, c.id, r)
    case Store(state) =>
      var w := ExpectAndWrite(s.store, c.id, c.snapshot, state);
      if w.None? then Answered(s, c.id, Reply(None, Some(Internal)))
      else Answered(s.(store := w.value, history := s.history[c.id := HistoryOf(s, c.id) + [state]]),
                    c.id, Reply(Some(state.chkpt), None))
  }

  function Run(cfg: Config, steps: seq<Step>): System {
    if steps == [] then System(map[], map[], map[], [])
    else Next(cfg, Run(cfg, steps[..|steps| - 1]), steps[|steps| - 1])
  }

  ghost predicate Inv(cfg: Config, s: System) {
    (forall id :: Current(s, id))
    && (forall id :: HistoryOf(s, id) != [] ==> id in cfg.logs && History(cfg, cfg.logs[id], HistoryOf(s, id)))
    && (forall sid :: sid in s.sessions && s.sessions[sid].snapshot.Some? ==>
          s.sessions[sid].snapshot.value in HistoryOf(s, s.sessions[sid].id))
    && (forall i :: 0 <= i < |s.replies| ==> Committed(s, s.replies[i].0, s.replies[i].1))
  }

  /** The stored state is the last committed one. */
  ghost predicate Current(s: System, id: LogId) {
    var h := HistoryOf(s, id);
    Lookup(s.store, id) == if h == [] then None else Some(h[|h| - 1])
  }

  /** A checkpoint handed to a caller is one that was committed for that log. */
  ghost predicate Committed(s: System, id: LogId, r: Reply) {
    r.chkpt.Some? ==> Holds(HistoryOf(s, id), r.chkpt.value)
  }

  ghost predicate Holds(h: seq<Stored>, n: Note) {
    exists i :: 0 <= i < |h| && h[i].chkpt == n
  }

  lemma HoldsAppend(h: seq<Stored>, s: Stored, n: Note)
    requires Holds(h, n) || s.chkpt == n
    ensures Holds(h + [s], n)
  {
    if s.chkpt == n {
      assert (h + [s])[|h|].chkpt == n;
    } else {
      var i :| 0 <= i < |h| && h[i].chkpt == n;
      assert (h + [s])[i].chkpt == n;
    }
  }

  lemma CommitKeepsInv(cfg: Config, s: System, c: Session, state: Stored)
    requires Inv(cfg, s) && Decide(cfg, c.id, c.raw, c.proof, c.snapshot) == Store(state)
    requires Lookup(s.store, c.id) == c.snapshot
    ensures Inv(cfg, FinishSession(cfg, s, c))
  {
    var s', h := FinishSession(cfg, s, c), HistoryOf(s, c.id);
    DecideSound(cfg, c.id, c.raw, c.proof, c.snapshot);
    assert Current(s, c.id);
    HistoryGrows(cfg, cfg.logs[c.id], h, state);
    assert HistoryOf(s', c.id) == h + [state];
    assert forall id :: id != c.id ==> HistoryOf(s', id) == HistoryOf(s, id);
    forall id ensures Current(s', id) { assert Current(s, id); }
    forall i | 0 <= i < |s'.replies| ensures Committed(s', s'.replies[i].0, s'.replies[i].1) {
      var (id, r) := s'.replies[i];
      if i < |s.replies| { assert Committed(s, id, r) && s.replies[i] == (id, r); }
      if id == c.id && r.chkpt.Some? { HoldsAppend(h, state, r.chkpt.value); }
    }
  }

  lemma AnswerKeepsInv(cfg: Config, s: System, id: LogId, r: Reply)
    requires Inv(cfg, s) && Committed(s, id, r)
    ensures Inv(cfg, Answered(s, id, r))
  {
    var s' := Answered(s, id, r);
    forall i ensures Current(s', i) { assert Current(s, i); }
    forall i | 0 <= i < |s'.replies| ensures Committed(s', s'.replies[i].0, s'.replies[i].1) {
      if i < |s.replies| { assert Committed(s, s.replies[i].0, s.replies[i].1); }
    }
  }

  lemma SessionsKeepInv(cfg: Config, s: System, sessions: map<nat, Session>)
    requires Inv(cfg, s)
    requires forall sid :: sid in sessions && sessions[sid].snapshot.Some? ==>
               sessions[sid].snapshot.value in HistoryOf(s, sessions[sid].id)
    ensures Inv(cfg, s.(sessions := sessions))
  {
    var s' := s.(sessions := sessions);
    forall id ensures Current(s', id) { assert Current(s, id); }
    forall i | 0 <= i < |s'.replies| ensures Committed(s', s'.replies[i].0, s'.replies[i].1) {
      assert Committed(s, s.replies[i].0, s.replies[i].1);
    }
  }

  lemma FinishKeepsInv(cfg: Config, s: System, c: Session)
    requires Inv(cfg, s) && (c.snapshot.Some? ==> c.snapshot.value in HistoryOf(s, c.id))
    ensures Inv(cfg, FinishSession(cfg, s, c))
  {
    match Decide(cfg, c.id, c.raw, c.proof, c.snapshot)
    case Answer(r) => AnswerKeepsInv(cfg, s, c.id, r);
    case Store(state) =>
      if Lookup(s.store, c.id) == c.snapshot { CommitKeepsInv(cfg, s, c, state); }
      else { AnswerKeepsInv(cfg, s, c.id, Reply(None, Some(Internal))); }
  }

  lemma NextKeepsInv(cfg: Config, s: System, step: Step)
    requires Inv(cfg, s)
    ensures Inv(cfg, Next(cfg, s, step))
  {
    match step
    case Begin(sid, id, raw, proof) =>
      if sid !in s.sessions {
        assert Current(s, id);
        SessionsKeepInv(cfg, s, s.sessions[sid := Session(id, raw, proof, Lookup(s.store, id))]);
      }
    case Finish(sid) =>
      if sid in s.sessions {
        SessionsKeepInv(cfg, s, s.sessions - {sid});
        FinishKeepsInv(cfg, s.(sessions := s.sessions - {sid}), s.sessions[sid]);
      }
    case Abandon(sid) => SessionsKeepInv(cfg, s, s.sessions - {sid});
    case GetCheckpoint(id) =>
      assert Current(s, id);
      var c := Lookup(s.store, id);
      AnswerKeepsInv(cfg, s, id, if c.Some? then Reply(Some(c.value.chkpt), None) else Reply(None, Some(NotFound)));
  }

  lemma {:induction false} RunKeepsInv(cfg: Config, steps: seq<Step>)
    ensures Inv(cfg, Run(cfg, steps))
    decreases |steps|
  {
    if steps != [] {
      RunKeepsInv(cfg, steps[..|steps| - 1]);
      NextKeepsInv(cfg, Run(cfg, steps[..|steps| - 1]), steps[|steps| - 1]);
    }
  }

  /** No split views: whatever the interleaving, any two checkpoints the witness has handed
      out for a log are of the same tree, the smaller a prefix of the larger. */
  lemma NoSplitView(cfg: Config, steps: seq<Step>, i: nat, j: nat)
    requires var s := Run(cfg, steps);
      i < |s.replies| && j < |s.replies| && s.replies[i].0 == s.replies[j].0
      && s.replies[i].1.chkpt.Some? && s.replies[j].1.chkpt.Some?
    ensures var s := Run(cfg, steps);
      var a, b := s.replies[i].1.chkpt.value, s.replies[j].1.chkpt.value;
      a.Note? && b.Note? && cfg.signer in a.signers && cfg.signer in b.signers
      && (a.cp.size == b.cp.size ==> a.cp == b.cp)
      && (a.cp.size < b.cp.size ==> Extends(a.cp, b.cp))
  {
    RunKeepsInv(cfg, steps);
    RepliesAgree(cfg, Run(cfg, steps), i, j);
  }

  lemma RepliesAgree(cfg: Config, s: System, i: nat, j: nat)
    requires Inv(cfg, s) && i < |s.replies| && j < |s.replies| && s.replies[i].0 == s.replies[j].0
    requires s.replies[i].1.chkpt.Some? && s.replies[j].1.chkpt.Some?
    ensures var a, b := s.replies[i].1.chkpt.value, s.replies[j].1.chkpt.value;
      a.Note? && b.Note? && cfg.signer in a.signers && cfg.signer in b.signers
      && (a.cp.size == b.cp.size ==> a.cp == b.cp)
      && (a.cp.size < b.cp.size ==> Extends(a.cp, b.cp))
  {
    var id := s.replies[i].0;
    assert Committed(s, id, s.replies[i].1) && Committed(s, id, s.replies[j].1);
    HistoryAgrees(cfg, cfg.logs[id], HistoryOf(s, id), s.replies[i].1.chkpt.value, s.replies[j].1.chkpt.value);
  }

  lemma HistoryAgrees(cfg: Config, info: LogInfo, h: seq<Stored>, a: Note, b: Note)
    requires History(cfg, info, h) && Holds(h, a) && Holds(h, b)
    ensures a.Note? && b.Note? && cfg.signer in a.signers && cfg.signer in b.signers
    ensures (a.cp.size == b.cp.size ==> a.cp == b.cp) && (a.cp.size < b.cp.size ==> Extends(a.cp, b.cp))
  {
    var p :| 0 <= p < |h| && h[p].chkpt == a;
    var q :| 0 <= q < |h| && h[q].chkpt == b;
    assert Sane(cfg, info, h[p]) && Sane(cfg, info, h[q]);
  }

  /** Nothing that was committed is ever taken back. */
  lemma {:induction false} HistoryOnlyGrows(cfg: Config, steps: seq<Step>, more: seq<Step>, id: LogId)
    ensures HistoryOf(Run(cfg, steps), id) <= HistoryOf(Run(cfg, steps + more), id)
    decreases |more|
  {
    if more == [] {
      assert steps + more == steps;
    } else {
      var init := more[..|more| - 1];
      HistoryOnlyGrows(cfg, steps, init, id);
      assert (steps + more)[..|steps + more| - 1] == steps + init;
    }
  }
}
