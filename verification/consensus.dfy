/** Accepting a checkpoint that N of the known witnesses have cosigned, and why two such
    checkpoints can never show different logs while most witnesses are honest. */
module Consensus {
  import opened Merkle
  import opened CompactRange
  import opened Witness

  /** What a client knows: the log's key and origin, and the keys of the witnesses. */
  datatype Client = Client(logKey: Key, origin: string, witnesses: set<Key>)
  {
    predicate Valid() { logKey !in witnesses }
  }

  /** The note parses under the log's key, and how many known witnesses have signed it. */
  function WitnessSignatures(c: Client, n: Note): nat
  {
    if n.Note? then |n.signers * (c.witnesses + {c.logKey})| - (if c.logKey in n.signers then 1 else 0) else 0
  }

  predicate Acceptable(c: Client, n: nat, note: Note) {
    note.Note? && note.origin == c.origin && c.logKey in note.signers && WitnessSignatures(c, note) >= n
  }

  /** The largest acceptable checkpoint any distributor returned; distributors that failed
      are None, and results may arrive in any order. */
  method CheckpointNConsensus(c: Client, n: nat, fetched: seq<Option<Note>>) returns (best: Option<Note>)
    ensures best.Some? ==> best in fetched && Acceptable(c, n, best.value)
    ensures forall i :: 0 <= i < |fetched| && fetched[i].Some? && Acceptable(c, n, fetched[i].value) ==>
              best.Some? && fetched[i].value.cp.size <= best.value.cp.size
  {
    best := None;
    for i := 0 to |fetched|
      invariant best.Some? ==> best in fetched && Acceptable(c, n, best.value)
      invariant forall k :: 0 <= k < i && fetched[k].Some? && Acceptable(c, n, fetched[k].value) ==>
                  best.Some? && fetched[k].value.cp.size <= best.value.cp.size
    {
      var f := fetched[i];
      if f.Some? && f.value.Note? && f.value.origin == c.origin && c.logKey in f.value.signers {
        var numWitSigs := WitnessSignatures(c, f.value);
        if numWitSigs < n { continue; }
        if best.None? || best.value.cp.size < f.value.cp.size { best := f; }
      }
    }
  }

  /** An honest witness: its configuration and everything it has done so far. */
  datatype HonestWitness = HonestWitness(cfg: Config, steps: seq<Step>)

  /** The witness has cosigned this checkpoint text: it has handed out such a note. */
  ghost predicate Signed(w: HonestWitness, origin: string, cp: Checkpoint) {
    exists i :: 0 <= i < |Run(w.cfg, w.steps).replies| && HandedOut(Run(w.cfg, w.steps).replies[i], origin, cp)
  }

  predicate HandedOut(r: (LogId, Reply), origin: string, cp: Checkpoint) {
    r.1.chkpt.Some? && r.1.chkpt.value.Note? && r.1.chkpt.value.origin == origin && r.1.chkpt.value.cp == cp
  }

  /** Signatures of honest witnesses cannot be forged. */
  ghost predicate Genuine(honest: map<Key, HonestWitness>, note: Note) {
    note.Note? && forall k :: k in honest && k in note.signers ==> Signed(honest[k], note.origin, note.cp)
  }

  /** The witness follows the log under a single identifier. */
  predicate OneLogId(cfg: Config, origin: string) {
    forall a, b :: a in cfg.logs && b in cfg.logs && cfg.logs[a].origin == origin == cfg.logs[b].origin ==> a == b
  }

  lemma OneWitness(w: HonestWitness, origin: string, a: Checkpoint, b: Checkpoint)
    requires OneLogId(w.cfg, origin) && Signed(w, origin, a) && Signed(w, origin, b)
    ensures a.size == b.size ==> a == b
    ensures a.size < b.size ==> Extends(a, b)
  {
    var s := Run(w.cfg, w.steps);
    var i :| 0 <= i < |s.replies| && HandedOut(s.replies[i], origin, a);
    var j :| 0 <= j < |s.replies| && HandedOut(s.replies[j], origin, b);
    RunKeepsInv(w.cfg, w.steps);
    OriginOfReply(w.cfg, s, i);
    OriginOfReply(w.cfg, s, j);
    NoSplitView(w.cfg, w.steps, i, j);
  }

  /** A checkpoint handed out for a log carries the origin configured for that log. */
  lemma OriginOfReply(cfg: Config, s: System, i: nat)
    requires Inv(cfg, s) && i < |s.replies| && s.replies[i].1.chkpt.Some?
    ensures var (id, r) := s.replies[i];
            id in cfg.logs && r.chkpt.value.Note? && r.chkpt.value.origin == cfg.logs[id].origin
  {
    var (id, r) := s.replies[i];
    assert Committed(s, s.replies[i].0, s.replies[i].1);
    var h := HistoryOf(s, id);
    var k :| 0 <= k < |h| && h[k].chkpt == r.chkpt.value;
    assert Sane(cfg, cfg.logs[id], h[k]);
  }

  lemma SubsetSize<T>(a: set<T>, b: set<T>)
    requires a <= b
    ensures |a| <= |b|
  {
    assert b == a + (b - a);
  }

  /** Two quorums share an honest witness. */
  lemma QuorumsMeet(c: Client, honest: set<Key>, f: nat, n: nat, a: Note, b: Note) returns (k: Key)
    requires c.Valid() && Acceptable(c, n, a) && Acceptable(c, n, b)
    requires |c.witnesses - honest| <= f && 2 * n > |c.witnesses| + f
    ensures k in honest && k in a.signers && k in b.signers && k in c.witnesses
  {
    var x, y := a.signers * c.witnesses, b.signers * c.witnesses;
    SignerCount(c, a);
    SignerCount(c, b);
    assert |x + y| + |x * y| == |x| + |y|;
    SubsetSize(x + y, c.witnesses);
    if x * y <= c.witnesses - honest {
      SubsetSize(x * y, c.witnesses - honest);
    }
    k :| k in x * y && k in honest;
  }

  lemma SignerCount(c: Client, n: Note)
    requires c.Valid() && n.Note? && c.logKey in n.signers
    ensures WitnessSignatures(c, n) == |n.signers * c.witnesses|
  {
    assert n.signers * (c.witnesses + {c.logKey}) == n.signers * c.witnesses + {c.logKey};
  }

  /** With at most f dishonest witnesses and 2n > |witnesses| + f, any two checkpoints that
      clients accept are of one log: equal when their sizes are equal, and otherwise every
      log with the larger root has a prefix with the smaller root. */
  lemma ConsensusHasNoSplitView(c: Client, honest: map<Key, HonestWitness>, f: nat, n: nat, a: Note, b: Note)
    requires c.Valid() && Acceptable(c, n, a) && Acceptable(c, n, b)
    requires Genuine(honest, a) && Genuine(honest, b)
    requires forall k :: k in honest ==> OneLogId(honest[k].cfg, c.origin)
    requires |c.witnesses - honest.Keys| <= f && 2 * n > |c.witnesses| + f
    ensures a.cp.size == b.cp.size ==> a.cp == b.cp
    ensures a.cp.size < b.cp.size ==> Extends(a.cp, b.cp)
  {
    var k := QuorumsMeet(c, honest.Keys, f, n, a, b);
    OneWitness(honest[k], c.origin, a.cp, b.cp);
  }

  /** Such a consensus can be reached: for every log, a witness that gets its checkpoint first
      cosigns it, and a client that knows this witness accepts it. */
  lemma ConsensusIsReachable(log: seq<Bytes>, origin: string, logKey: Key, k: Key)
    returns (c: Client, honest: map<Key, HonestWitness>, note: Note)
    requires k != logKey && log != []
    ensures c.Valid() && c.witnesses == honest.Keys == {k} && Acceptable(c, 1, note) && Genuine(honest, note)
    ensures OneLogId(honest[k].cfg, c.origin) && note.cp == Checkpoint(|log|, Mth(log))
  {
    var cp := Checkpoint(|log|, Mth(log));
    var cfg := Config(k, map["log" := LogInfo(logKey, origin, false)]);
    var raw := Note(origin, cp, "", {logKey});
    var steps := [Step.Begin(0, "log", raw, []), Step.Finish(0)];
    c, note := Client(logKey, origin, {k}), Note(origin, cp, "", {logKey, k});
    honest := map[k := HonestWitness(cfg, steps)];
    FirstUpdate(cfg, "log", raw);
    assert HandedOut(Run(cfg, steps).replies[0], origin, cp);
    assert Acceptable(c, 1, note) by { SignerCount(c, note); assert note.signers * c.witnesses == {k}; }
  }

  /** A first update of a log without compact ranges is answered with the cosigned note. */
  lemma FirstUpdate(cfg: Config, id: LogId, raw: Note)
    requires id in cfg.logs && !cfg.logs[id].useCompact && Parse(cfg.logs[id], raw).Some?
    ensures Run(cfg, [Step.Begin(0, id, raw, []), Step.Finish(0)]).replies
         == [(id, Reply(Some(Cosign(cfg, raw)), None))]
  {
    var begin, finish := Step.Begin(0, id, raw, []), Step.Finish(0);
    assert [begin, finish][..1] == [begin] && [begin][..0] == [];
    var s := Next(cfg, Run(cfg, []), begin);
    assert Run(cfg, [begin]) == s && s.sessions[0] == Session(id, raw, [], None);
    assert Run(cfg, [begin, finish]) == Next(cfg, s, finish);
  }
}
