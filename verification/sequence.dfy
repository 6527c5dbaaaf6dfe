/** Sequencing on a shared filesystem.  Any number of sequencers run at once, each file
    operation is one step, and a sequencer may crash or meet an I/O error at any point. */
module Sequencing {
  import opened Merkle
  import opened CompactRange

  type Pid = nat

  /** Files of the log: entries by sequence number, sequence numbers by leaf hash, and the
      temporary files of both.  An unfinished number file holds no number. */
  datatype Fs = Fs(
    seqs: map<nat, Bytes>,
    leaf: map<Digest, Option<nat>>,
    pending: map<Digest, Bytes>,
    leafTmp: map<Digest, Option<nat>>)

  datatype Reply = Sequenced(number: nat) | Dupe(number: nat) | Error

  /** Where a call of Sequence has got to. */
  datatype Call =
    | Idle
    | Checking(entry: Bytes)
    | Creating(entry: Bytes)
    | Writing(entry: Bytes)
    | Linking(entry: Bytes)
    | Naming(entry: Bytes, number: nat)
    | NameWriting(entry: Bytes, number: nat)
    | NameLinking(entry: Bytes, number: nat)
    | Clearing(entry: Bytes, reply: Reply)
    | Removing(entry: Bytes, reply: Reply)
    | Returned(entry: Bytes, reply: Reply)

  datatype Proc = Proc(nextSeq: nat, call: Call)

  datatype State = State(fs: Fs, procs: map<Pid, Proc>)

  /** Load at a checkpoint size, leave, die, begin a call, make the call's next file operation
      (a new file holds arbitrary bytes until it is written), or have it fail. */
  datatype Act =
    | Load(p: Pid, cpSize: nat)
    | Exit(p: Pid)
    | Crash(p: Pid)
    | Begin(p: Pid, entry: Bytes)
    | Advance(p: Pid, junk: Bytes)
    | Fault(p: Pid)

  function With(s: State, p: Pid, fs: Fs, nextSeq: nat, call: Call): State {
    State(fs, s.procs[p := Proc(nextSeq, call)])
  }

  predicate AtRest(c: Call) { c.Idle? || c.Returned? }

  /** The next state, or nothing if the action is not enabled. */
  function Apply(s: State, a: Act): Option<State> {
    match a
    case Load(p, cpSize) =>
      if p in s.procs || !(forall k: nat :: k < cpSize ==> k in s.fs.seqs) then None
      else Some(With(s, p, s.fs, cpSize, Idle))
    case Exit(p) =>
      if p in s.procs && AtRest(s.procs[p].call) then Some(s.(procs := s.procs - {p})) else None
    case Crash(p) =>
      if p in s.procs then Some(s.(procs := s.procs - {p})) else None
    case Begin(p, entry) =>
      if p !in s.procs || !AtRest(s.procs[p].call) then None
      else Some(With(s, p, s.fs, s.procs[p].nextSeq, Checking(entry)))
    case Advance(p, junk) =>
      if p in s.procs && !AtRest(s.procs[p].call) then Some(Operate(s, p, junk)) else None
    case Fault(p) =>
      if p in s.procs && !AtRest(s.procs[p].call) then Some(Fail(s, p)) else None
  }

  /** One file operation of Sequence. */
  function Operate(s: State, p: Pid, junk: Bytes): State
    requires p in s.procs && !AtRest(s.procs[p].call)
  {
    var fs, n := s.fs, s.procs[p].nextSeq;
    var h := LeafDigest(s.procs[p].call.entry);
    match s.procs[p].call
    case Checking(e) =>
      if h !in fs.leaf then With(s, p, fs, n, Creating(e))
      else With(s, p, fs, n, Returned(e, if fs.leaf[h].Some? then Dupe(fs.leaf[h].value) else Error))
    case Creating(e) =>
      if h in fs.pending then With(s, p, fs, n, Returned(e, Error))
      else With(s, p, fs.(pending := fs.pending[h := junk]), n, Writing(e))
    case Writing(e) =>
      With(s, p, fs.(pending := fs.pending[h := e]), n, Linking(e))
    case Linking(e) =>
      if h !in fs.pending then With(s, p, fs, n, Removing(e, Error))
      else if n in fs.seqs then With(s, p, fs, n + 1, Linking(e))
      else With(s, p, fs.(seqs := fs.seqs[n := fs.pending[h]]), n, Naming(e, n))
    case Naming(e, number) =>
      if h in fs.leafTmp then With(s, p, fs, n, Removing(e, Error))
      else With(s, p, fs.(leafTmp := fs.leafTmp[h := None]), n, NameWriting(e, number))
    case NameWriting(e, number) =>
      With(s, p, fs.(leafTmp := fs.leafTmp[h := Some(number)]), n, NameLinking(e, number))
    case NameLinking(e, number) =>
      if h in fs.leaf then With(s, p, fs, n, Clearing(e, Sequenced(number)))
      else if h !in fs.leafTmp then With(s, p, fs, n, Clearing(e, Error))
      else With(s, p, fs.(leaf := fs.leaf[h := fs.leafTmp[h]]), n, Clearing(e, Sequenced(number)))
    case Clearing(e, reply) =>
      With(s, p, fs.(leafTmp := fs.leafTmp - {h}), n, Removing(e, reply))
    case Removing(e, reply) =>
      With(s, p, fs.(pending := fs.pending - {h}), n, Returned(e, reply))
  }

  /** The operation fails: the call returns an error after the removals it has deferred, and a
      removal that fails is ignored. */
  function Fail(s: State, p: Pid): State
    requires p in s.procs && !AtRest(s.procs[p].call)
  {
    var n := s.procs[p].nextSeq;
    match s.procs[p].call
    case Checking(e) => With(s, p, s.fs, n, Returned(e, Error))
    case Creating(e) => With(s, p, s.fs, n, Returned(e, Error))
    case Writing(e) => With(s, p, s.fs, n, Returned(e, Error))
    case Linking(e) => With(s, p, s.fs, n, Removing(e, Error))
    case Naming(e, number) => With(s, p, s.fs, n, Removing(e, Error))
    case NameWriting(e, number) => With(s, p, s.fs, n, Removing(e, Error))
    case NameLinking(e, number) => With(s, p, s.fs, n, Clearing(e, Error))
    case Clearing(e, reply) => With(s, p, s.fs, n, Removing(e, reply))
    case Removing(e, reply) => With(s, p, s.fs, n, Returned(e, reply))
  }

  // ----- the invariant -----

  /** The sequence numbers in use are those below their number. */
  ghost predicate GapFree(seqs: map<nat, Bytes>) {
    forall k: nat :: k in seqs <==> k < |seqs|
  }

  /** A leaf-hash file holds the number of an entry with that hash. */
  ghost predicate NamesRight(fs: Fs) {
    forall h :: h in fs.leaf ==>
      fs.leaf[h].Some? && fs.leaf[h].value in fs.seqs && LeafDigest(fs.seqs[fs.leaf[h].value]) == h
  }

  /** The call has created the temporary file of its leaf hash and not removed it. */
  predicate Holds(c: Call) {
    c.Writing? || c.Linking? || c.Naming? || c.NameWriting? || c.NameLinking? || c.Clearing? || c.Removing?
  }

  predicate HasEntry(fs: Fs, number: nat, e: Bytes) { number in fs.seqs && fs.seqs[number] == e }

  ghost predicate ProcOK(fs: Fs, p: Proc) {
    var c := p.call;
    p.nextSeq <= |fs.seqs|
    && (Holds(c) ==> LeafDigest(c.entry) in fs.pending)
    && (c.Linking? ==> fs.pending[LeafDigest(c.entry)] == c.entry)
    && (c.Naming? || c.NameWriting? || c.NameLinking? ==> HasEntry(fs, c.number, c.entry))
    && (c.NameLinking? ==> LeafDigest(c.entry) in fs.leafTmp && fs.leafTmp[LeafDigest(c.entry)] == Some(c.number))
    && ((c.Clearing? || c.Removing? || c.Returned?) && !c.reply.Error? ==> HasEntry(fs, c.reply.number, c.entry))
  }

  /** The temporary file works as a lock on its leaf hash. */
  ghost predicate Exclusive(s: State) {
    forall p, q :: p in s.procs && q in s.procs && p != q && Holds(s.procs[p].call) && Holds(s.procs[q].call) ==>
      s.procs[p].call.entry != s.procs[q].call.entry
  }

  ghost predicate Inv(s: State) {
    GapFree(s.fs.seqs) && NamesRight(s.fs) && Exclusive(s)
    && forall p :: p in s.procs ==> ProcOK(s.fs, s.procs[p])
  }

  /** Nothing that has a number ever changes, and neither does a leaf-hash file. */
  ghost predicate WriteOnce(fs: Fs, fs': Fs) {
    (forall k :: k in fs.seqs ==> k in fs'.seqs && fs'.seqs[k] == fs.seqs[k])
    && (forall h :: h in fs.leaf ==> h in fs'.leaf && fs'.leaf[h] == fs.leaf[h])
  }

  lemma AdvanceFilesOK(s: State, p: Pid, junk: Bytes)
    requires Inv(s) && p in s.procs && !AtRest(s.procs[p].call)
    ensures var s' := Operate(s, p, junk); GapFree(s'.fs.seqs) && NamesRight(s'.fs) && WriteOnce(s.fs, s'.fs)
  {
    assert ProcOK(s.fs, s.procs[p]);
  }

  lemma AdvanceOwnOK(s: State, p: Pid, junk: Bytes)
    requires Inv(s) && p in s.procs && !AtRest(s.procs[p].call)
    ensures var s' := Operate(s, p, junk); ProcOK(s'.fs, s'.procs[p])
  {
    assert ProcOK(s.fs, s.procs[p]);
  }

  lemma AdvanceOthersOK(s: State, p: Pid, junk: Bytes, q: Pid)
    requires Inv(s) && p in s.procs && !AtRest(s.procs[p].call) && q in s.procs && q != p
    ensures ProcOK(Operate(s, p, junk).fs, s.procs[q])
  {
    AdvanceFilesOK(s, p, junk);
  }

  /** The lock is taken only when nobody has it. */
  lemma AdvanceExclusive(s: State, p: Pid, junk: Bytes)
    requires Inv(s) && p in s.procs && !AtRest(s.procs[p].call)
    ensures Exclusive(Operate(s, p, junk))
  {
    var s', c := Operate(s, p, junk), s.procs[p].call;
    assert s'.procs == s.procs[p := s'.procs[p]];
    if Holds(s'.procs[p].call) {
      assert s'.procs[p].call.entry == c.entry;
      forall q | q in s.procs && q != p && Holds(s.procs[q].call) ensures s.procs[q].call.entry != c.entry {
        assert ProcOK(s.fs, s.procs[q]);
      }
    }
  }

  lemma AdvanceKeepsInv(s: State, p: Pid, junk: Bytes)
    requires Inv(s) && p in s.procs && !AtRest(s.procs[p].call)
    ensures Inv(Operate(s, p, junk))
  {
    var s' := Operate(s, p, junk);
    AdvanceFilesOK(s, p, junk);
    AdvanceOwnOK(s, p, junk);
    AdvanceExclusive(s, p, junk);
    forall q | q in s'.procs ensures ProcOK(s'.fs, s'.procs[q]) {
      if q != p { AdvanceOthersOK(s, p, junk, q); }
    }
  }

  /** A step that changes no file and takes no lock. */
  lemma QuietStep(s: State, p: Pid, n: nat, c: Call)
    requires Inv(s) && ProcOK(s.fs, Proc(n, c))
    requires Holds(c) ==> p in s.procs && Holds(s.procs[p].call) && s.procs[p].call.entry == c.entry
    ensures Inv(With(s, p, s.fs, n, c))
  {
  }

  lemma FaultKeepsInv(s: State, p: Pid)
    requires Inv(s) && p in s.procs && !AtRest(s.procs[p].call)
    ensures Inv(Fail(s, p)) && Fail(s, p).fs == s.fs
  {
    assert ProcOK(s.fs, s.procs[p]);
    QuietStep(s, p, s.procs[p].nextSeq, Fail(s, p).procs[p].call);
  }

  lemma LeaveKeepsInv(s: State, p: Pid)
    requires Inv(s)
    ensures Inv(s.(procs := s.procs - {p}))
  {
  }

  lemma StepKeepsInv(s: State, a: Act)
    requires Inv(s) && Apply(s, a).Some?
    ensures Inv(Apply(s, a).value) && WriteOnce(s.fs, Apply(s, a).value.fs)
  {
    match a
    case Advance(p, junk) =>
      AdvanceFilesOK(s, p, junk);
      AdvanceKeepsInv(s, p, junk);
    case Fault(p) => FaultKeepsInv(s, p);
    case Exit(p) => LeaveKeepsInv(s, p);
    case Crash(p) => LeaveKeepsInv(s, p);
    case Begin(p, entry) =>
      assert ProcOK(s.fs, s.procs[p]);
      QuietStep(s, p, s.procs[p].nextSeq, Checking(entry));
    case Load(p, cpSize) =>
      LoadedInRange(s.fs.seqs, cpSize);
      QuietStep(s, p, cpSize, Idle);
  }

  lemma LoadedInRange(seqs: map<nat, Bytes>, size: nat)
    requires GapFree(seqs) && forall k: nat :: k < size ==> k in seqs
    ensures size <= |seqs|
  {
    if size > 0 { assert size - 1 in seqs; }
  }

  // ----- whole runs -----

  /** The state after the actions, if all are enabled. */
  function Exec(s: State, acts: seq<Act>): Option<State>
    decreases |acts|
  {
    if acts == [] then Some(s) else
    var s' := Apply(s, acts[0]);
    if s'.None? then None else Exec(s'.value, acts[1..])
  }

  const NO_FILES := Fs(map[], map[], map[], map[])

  const INIT := State(NO_FILES, map[])

  /** The entries in order of their numbers. */
  ghost function Entries(fs: Fs): seq<Bytes>
    requires GapFree(fs.seqs)
  {
    seq(|fs.seqs|, i requires 0 <= i < |fs.seqs| => fs.seqs[i])
  }

  /** Under every interleaving with any crashes and failures: numbers are given out without
      gaps, what is written stays, and every leaf-hash file is right. */
  lemma {:induction false} EveryInterleaving(s: State, acts: seq<Act>)
    requires Inv(s) && Exec(s, acts).Some?
    ensures var s' := Exec(s, acts).value;
            Inv(s') && WriteOnce(s.fs, s'.fs) && Entries(s.fs) <= Entries(s'.fs)
    decreases |acts|
  {
    if acts != [] {
      StepKeepsInv(s, acts[0]);
      var s1 := Apply(s, acts[0]).value;
      EveryInterleaving(s1, acts[1..]);
      KeptIsPrefix(s.fs, s1.fs);
    }
  }

  lemma KeptIsPrefix(fs: Fs, fs': Fs)
    requires GapFree(fs.seqs) && GapFree(fs'.seqs) && WriteOnce(fs, fs')
    ensures Entries(fs) <= Entries(fs')
  {
    if |fs.seqs| > 0 { assert |fs.seqs| - 1 in fs'.seqs; }
    forall i | 0 <= i < |fs.seqs| ensures Entries(fs')[i] == Entries(fs)[i] {
      assert i in fs.seqs;
    }
  }

  /** A call that returns a number, as new or as a duplicate, returns that of its entry. */
  lemma NumbersReturnedAreRight(acts: seq<Act>, p: Pid)
    requires Exec(INIT, acts).Some?
    requires p in Exec(INIT, acts).value.procs && Exec(INIT, acts).value.procs[p].call.Returned?
    ensures var s := Exec(INIT, acts).value; var c := s.procs[p].call;
            !c.reply.Error? ==> HasEntry(s.fs, c.reply.number, c.entry)
  {
    EveryInterleaving(INIT, acts);
    assert ProcOK(Exec(INIT, acts).value.fs, Exec(INIT, acts).value.procs[p]);
  }

  /** A step of the files is no step, or the next entry of the log. */
  lemma StepAppends(s: State, a: Act)
    requires Inv(s) && Apply(s, a).Some?
    ensures var s' := Apply(s, a).value;
            Inv(s') && (Entries(s'.fs) == Entries(s.fs) || exists e :: Entries(s'.fs) == Entries(s.fs) + [e])
  {
    StepKeepsInv(s, a);
    var s' := Apply(s, a).value;
    KeptIsPrefix(s.fs, s'.fs);
    assert |s'.fs.seqs| <= |s.fs.seqs| + 1;
    var x, y := Entries(s.fs), Entries(s'.fs);
    assert y[..|x|] == x;
    if |y| == |x| { assert y == x; } else { assert y == x + [y[|x|]]; }
  }

  // ----- one sequencer at a time -----

  ghost predicate NoDuplicates(fs: Fs) {
    forall i, j :: i in fs.seqs && j in fs.seqs && fs.seqs[i] == fs.seqs[j] ==> i == j
  }

  /** No operation fails, and no sequencer is loaded beside another; it may crash. */
  ghost predicate SoloRun(s: State, acts: seq<Act>)
    decreases |acts|
  {
    acts == [] || (SoloAct(s, acts[0]) && (Apply(s, acts[0]).Some? ==> SoloRun(Apply(s, acts[0]).value, acts[1..])))
  }

  predicate SoloAct(s: State, a: Act) { !a.Fault? && (a.Load? ==> s.procs == map[]) }

  /** The call has neither found its entry nor given it a number. */
  predicate Fresh(c: Call) { c.Creating? || c.Writing? || c.Linking? }

  /** The files while one call goes on.  An entry that is not found under its leaf hash is
      locked by the temporary file of a sequencer that runs or has crashed. */
  ghost predicate SoloFiles(fs: Fs) {
    NoDuplicates(fs)
    && (forall k :: k in fs.seqs ==> LeafDigest(fs.seqs[k]) in fs.leaf || LeafDigest(fs.seqs[k]) in fs.pending)
    && (forall h :: h in fs.leafTmp ==> h in fs.pending)
  }

  ghost predicate SoloCall(fs: Fs, c: Call) {
    (Fresh(c) ==> LeafDigest(c.entry) !in fs.leaf)
    && (c.Writing? || c.Linking? ==> forall k :: k in fs.seqs ==> fs.seqs[k] != c.entry)
    && (c.Writing? || c.Linking? || c.Naming? || c.Removing? ==> LeafDigest(c.entry) !in fs.leafTmp)
    && (c.Clearing? || c.Removing? ==> !c.reply.Error? && LeafDigest(c.entry) in fs.leaf)
    && (c.Returned? && c.reply.Error? ==> LeafDigest(c.entry) in fs.pending)
  }

  /** There is at most one sequencer, and its call is all that goes on. */
  ghost predicate Lone(s: State) {
    s.procs == map[] || exists p :: LoneAt(s, p)
  }

  ghost predicate LoneAt(s: State, p: Pid) {
    s.procs.Keys == {p} && SoloCall(s.fs, s.procs[p].call)
  }

  ghost predicate SoloInv(s: State) { Inv(s) && SoloFiles(s.fs) && Lone(s) }

  lemma SoloAdvance(s: State, p: Pid, junk: Bytes)
    requires SoloInv(s) && LoneAt(s, p) && !AtRest(s.procs[p].call)
    ensures LoneAt(Operate(s, p, junk), p)
  {
    var c := s.procs[p].call;
    assert ProcOK(s.fs, s.procs[p]);
    if c.Checking? || Fresh(c) { SoloFresh(s, p, junk); } else { SoloNaming(s, p, junk); }
  }

  lemma SoloFresh(s: State, p: Pid, junk: Bytes)
    requires NamesRight(s.fs) && SoloFiles(s.fs) && LoneAt(s, p) && ProcOK(s.fs, s.procs[p])
    requires s.procs[p].call.Checking? || Fresh(s.procs[p].call)
    ensures LoneAt(Operate(s, p, junk), p)
  {
  }

  lemma SoloNaming(s: State, p: Pid, junk: Bytes)
    requires LoneAt(s, p) && ProcOK(s.fs, s.procs[p]) && !AtRest(s.procs[p].call)
    requires !s.procs[p].call.Checking? && !Fresh(s.procs[p].call)
    ensures LoneAt(Operate(s, p, junk), p)
  {
  }

  lemma SoloAdvanceFiles(s: State, p: Pid, junk: Bytes)
    requires SoloInv(s) && LoneAt(s, p) && !AtRest(s.procs[p].call)
    ensures SoloFiles(Operate(s, p, junk).fs)
  {
    assert ProcOK(s.fs, s.procs[p]);
  }

  lemma SoloOther(s: State, a: Act)
    requires Lone(s) && SoloAct(s, a) && !a.Advance? && Apply(s, a).Some?
    ensures Lone(Apply(s, a).value)
  {
    var s' := Apply(s, a).value;
    assert a.p in s.procs ==> LoneAt(s, a.p);
    if a.Load? || a.Begin? { assert LoneAt(s', a.p); } else { assert s'.procs == map[]; }
  }

  lemma SoloStep(s: State, a: Act)
    requires SoloInv(s) && SoloAct(s, a) && Apply(s, a).Some?
    ensures SoloInv(Apply(s, a).value)
  {
    StepKeepsInv(s, a);
    if a.Advance? {
      assert LoneAt(s, a.p);
      SoloAdvance(s, a.p, a.junk);
      SoloAdvanceFiles(s, a.p, a.junk);
    } else {
      SoloOther(s, a);
    }
  }

  /** One sequencer at a time gives no entry two numbers, however often it crashes: the
      temporary file that a crash leaves behind keeps its entry from being sequenced again. */
  lemma {:induction false} SoloRunsHaveNoDuplicates(s: State, acts: seq<Act>)
    requires SoloInv(s) && SoloRun(s, acts) && Exec(s, acts).Some?
    ensures SoloInv(Exec(s, acts).value) && NoDuplicates(Exec(s, acts).value.fs)
    decreases |acts|
  {
    if acts != [] {
      SoloStep(s, acts[0]);
      SoloRunsHaveNoDuplicates(Apply(s, acts[0]).value, acts[1..]);
    }
  }

  ghost function Held(c: Call): set<Digest> {
    if Holds(c) then {LeafDigest(c.entry)} else {}
  }

  /** The leaf hashes whose temporary file no running call will remove. */
  ghost function Stuck(s: State): set<Digest> {
    s.fs.pending.Keys - set p, h | p in s.procs && h in Held(s.procs[p].call) :: h
  }

  lemma StuckAlone(s: State, p: Pid)
    requires s.procs.Keys == {p}
    ensures Stuck(s) == s.fs.pending.Keys - Held(s.procs[p].call)
  {
    var held := set q, h | q in s.procs && h in Held(s.procs[q].call) :: h;
    assert held == Held(s.procs[p].call);
  }

  lemma AdvanceKeepsStuck(s: State, p: Pid, junk: Bytes)
    requires Inv(s) && p in s.procs && !AtRest(s.procs[p].call)
    ensures var s' := Operate(s, p, junk);
            s'.fs.pending.Keys - Held(s'.procs[p].call) == s.fs.pending.Keys - Held(s.procs[p].call)
  {
    assert ProcOK(s.fs, s.procs[p]);
  }

  lemma StuckOnlyByCrash(s: State, a: Act)
    requires SoloInv(s) && SoloAct(s, a) && !a.Crash? && Apply(s, a).Some?
    ensures Stuck(Apply(s, a).value) == Stuck(s)
  {
    var s', p := Apply(s, a).value, a.p;
    if !a.Load? { assert LoneAt(s, p); StuckAlone(s, p); }
    if !a.Exit? { assert s'.procs.Keys == {p}; StuckAlone(s', p); }
    if a.Advance? { AdvanceKeepsStuck(s, p, a.junk); }
  }

  /** The call has returned the number of its entry. */
  predicate Succeeded(fs: Fs, c: Call)
    requires c.Returned?
  {
    !c.reply.Error? && HasEntry(fs, c.reply.number, c.entry)
  }

  /** Without a crash nothing gets stuck, and only calls for stuck entries fail. */
  lemma {:induction false} SoloCallsSucceed(s: State, acts: seq<Act>)
    requires SoloInv(s) && SoloRun(s, acts) && Exec(s, acts).Some? && forall a :: a in acts ==> !a.Crash?
    ensures var s' := Exec(s, acts).value;
            Stuck(s') == Stuck(s)
            && forall p :: p in s'.procs && s'.procs[p].call.Returned? ==>
                 LeafDigest(s'.procs[p].call.entry) in Stuck(s) || Succeeded(s'.fs, s'.procs[p].call)
    decreases |acts|
  {
    if acts == [] {
      forall p | p in s.procs && s.procs[p].call.Returned? && LeafDigest(s.procs[p].call.entry) !in Stuck(s)
        ensures Succeeded(s.fs, s.procs[p].call)
      {
        assert ProcOK(s.fs, s.procs[p]) && LoneAt(s, p);
      }
    } else {
      SoloStep(s, acts[0]);
      StuckOnlyByCrash(s, acts[0]);
      SoloCallsSucceed(Apply(s, acts[0]).value, acts[1..]);
    }
  }

  // ----- entries that are out for good -----

  /** The temporary file of the leaf hash is there, the leaf-hash file is not, and no call is
      past looking at them. */
  ghost predicate Out(s: State, h: Digest) {
    h in s.fs.pending && h !in s.fs.leaf
    && forall p :: p in s.procs && !s.procs[p].call.Idle? && LeafDigest(s.procs[p].call.entry) == h ==>
      var c := s.procs[p].call;
      c.Checking? || c.Creating? || (c.Returned? && c.reply.Error?)
  }

  lemma StepKeepsOut(s: State, a: Act, h: Digest)
    requires Out(s, h) && Apply(s, a).Some?
    ensures Out(Apply(s, a).value, h)
  {
  }

  /** It stays so in every run, whoever sequences, crashes or fails; every call for the entry
      that returns then returns an error. */
  lemma {:induction false} OutForGood(s: State, acts: seq<Act>, h: Digest)
    requires Out(s, h) && Exec(s, acts).Some?
    ensures Out(Exec(s, acts).value, h)
    decreases |acts|
  {
    if acts != [] {
      StepKeepsOut(s, acts[0], h);
      OutForGood(Apply(s, acts[0]).value, acts[1..], h);
    }
  }

  /** A lone sequencer that crashes with its temporary file and before its leaf-hash file puts
      its entry out, be it before or after it has given it a number. */
  lemma CrashPutsOut(s: State, p: Pid)
    requires Inv(s) && s.procs.Keys == {p} && Holds(s.procs[p].call) && LeafDigest(s.procs[p].call.entry) !in s.fs.leaf
    ensures Apply(s, Crash(p)).Some? && Out(Apply(s, Crash(p)).value, LeafDigest(s.procs[p].call.entry))
  {
    assert ProcOK(s.fs, s.procs[p]);
  }

  // ----- one undisturbed call -----

  /** The files after an undisturbed call, and its reply: a known leaf hash is a duplicate, a
      temporary file left behind is an error, and otherwise the entry gets the first free
      number. */
  ghost predicate CallResult(fs: Fs, e: Bytes, fs': Fs, r: Reply)
    requires NamesRight(fs)
  {
    var h, n := LeafDigest(e), |fs.seqs|;
    if h in fs.leaf then fs' == fs && r == Dupe(fs.leaf[h].value)
    else if h in fs.pending then fs' == fs && r == Error
    else if h in fs.leafTmp then fs' == fs.(seqs := fs.seqs[n := e]) && r == Error
    else fs' == fs.(seqs := fs.seqs[n := e], leaf := fs.leaf[h := Some(n)]) && r == Sequenced(n)
  }

  lemma CallKeepsFiles(fs: Fs, e: Bytes, fs': Fs, r: Reply)
    requires GapFree(fs.seqs) && NamesRight(fs) && CallResult(fs, e, fs', r)
    ensures GapFree(fs'.seqs) && NamesRight(fs') && WriteOnce(fs, fs')
  {
    if LeafDigest(e) !in fs.leaf && LeafDigest(e) !in fs.pending { NextEntry(fs.seqs, e); }
  }

  lemma NextEntry(seqs: map<nat, Bytes>, e: Bytes)
    requires GapFree(seqs)
    ensures |seqs| !in seqs && GapFree(seqs[|seqs| := e])
  {
  }

  class Storage {
    var fs: Fs
    var nextSeq: nat

    ghost predicate Valid() reads this {
      GapFree(fs.seqs) && NamesRight(fs) && nextSeq <= |fs.seqs|
    }

    method Sequence(entry: Bytes) returns (r: Reply)
      requires Valid()
      modifies this
      ensures Valid() && CallResult(old(fs), entry, fs, r)
    {
      ghost var was := fs;
      var h := LeafDigest(entry);
      if h in fs.leaf { return if fs.leaf[h].Some? then Dupe(fs.leaf[h].value) else Error; }
      if h in fs.pending { return Error; }
      fs := fs.(pending := fs.pending[h := entry]);
      var number := Link(h);
      r := Name(h, number);
      fs := fs.(pending := fs.pending - {h});
      assert fs.pending == was.pending;
      CallKeepsFiles(was, entry, fs, r);
    }

    /** Link the temporary file to the first free number. */
    method Link(h: Digest) returns (number: nat)
      requires GapFree(fs.seqs) && nextSeq <= |fs.seqs| && h in fs.pending
      modifies this
      ensures number == nextSeq == |old(fs).seqs|
      ensures fs == old(fs).(seqs := old(fs).seqs[number := old(fs).pending[h]])
    {
      while nextSeq in fs.seqs
        invariant nextSeq <= |fs.seqs| && fs == old(fs)
        decreases |fs.seqs| - nextSeq
      {
        nextSeq := nextSeq + 1;
      }
      number := nextSeq;
      fs := fs.(seqs := fs.seqs[number := fs.pending[h]]);
    }

    /** Write and link the leaf-hash file. */
    method Name(h: Digest, number: nat) returns (r: Reply)
      requires h !in fs.leaf
      modifies this`fs
      ensures if h in old(fs).leafTmp then fs == old(fs) && r == Error
              else fs == old(fs).(leaf := old(fs).leaf[h := Some(number)]) && r == Sequenced(number)
    {
      if h in fs.leafTmp { return Error; }
      ghost var was := fs;
      fs := fs.(leafTmp := fs.leafTmp[h := Some(number)]);
      fs := fs.(leaf := fs.leaf[h := fs.leafTmp[h]]);
      fs := fs.(leafTmp := fs.leafTmp - {h});
      assert fs.leafTmp == was.leafTmp;
      return Sequenced(number);
    }
  }

  // ----- both conditions are needed -----

  /** Several sequencers without failures, or one sequencer with them; nobody crashes. */
  datatype Mode = Several | Failing

  predicate Allows(m: Mode, a: Act) {
    !a.Crash? && match m case Several => !a.Fault? case Failing => a.p == 0
  }

  ghost predicate Path(m: Mode, acts: seq<Act>, s: State) {
    (forall a :: a in acts ==> Allows(m, a)) && Exec(INIT, acts) == Some(s)
  }

  ghost predicate CanReach(m: Mode, s: State) { exists acts :: Path(m, acts, s) }

  lemma {:induction false} ExecLast(s: State, acts: seq<Act>, a: Act)
    requires Exec(s, acts).Some?
    ensures Exec(s, acts + [a]) == Apply(Exec(s, acts).value, a)
    decreases |acts|
  {
    if acts == [] {
      assert ([] + [a])[1..] == [];
    } else {
      assert (acts + [a])[1..] == acts[1..] + [a];
      ExecLast(Apply(s, acts[0]).value, acts[1..], a);
    }
  }

  lemma Then(m: Mode, s: State, a: Act, s': State)
    requires CanReach(m, s) && Allows(m, a) && Apply(s, a) == Some(s')
    ensures CanReach(m, s')
  {
    var acts :| Path(m, acts, s);
    ExecLast(INIT, acts, a);
    assert Path(m, acts + [a], s');
  }

  lemma WithTwice(s: State, p: Pid, fs: Fs, n: nat, c: Call, fs': Fs, n': nat, c': Call)
    ensures With(With(s, p, fs, n, c), p, fs', n', c') == With(s, p, fs', n', c')
  {
    assert s.procs[p := Proc(n, c)][p := Proc(n', c')] == s.procs[p := Proc(n', c')];
  }

  lemma Go(m: Mode, s: State, a: Act, fs: Fs, n: nat, c: Call, fs': Fs, n': nat, c': Call)
    requires CanReach(m, With(s, a.p, fs, n, c)) && Allows(m, a)
    requires Apply(With(s, a.p, fs, n, c), a) == Some(With(With(s, a.p, fs, n, c), a.p, fs', n', c'))
    ensures CanReach(m, With(s, a.p, fs', n', c'))
  {
    WithTwice(s, a.p, fs, n, c, fs', n', c');
    Then(m, With(s, a.p, fs, n, c), a, With(s, a.p, fs', n', c'));
  }

  function Created(fs: Fs, e: Bytes, content: Bytes): Fs { fs.(pending := fs.pending[LeafDigest(e) := content]) }

  function Linked(fs: Fs, e: Bytes, n: nat): Fs { Created(fs, e, e).(seqs := fs.seqs[n := e]) }

  lemma ReachLinking(m: Mode, s: State, p: Pid, e: Bytes, fs: Fs, n: nat)
    requires CanReach(m, With(s, p, fs, n, Creating(e))) && LeafDigest(e) !in fs.pending && (m.Failing? ==> p == 0)
    ensures CanReach(m, With(s, p, Created(fs, e, e), n, Linking(e)))
  {
    Go(m, s, Advance(p, []), fs, n, Creating(e), Created(fs, e, []), n, Writing(e));
    assert Created(Created(fs, e, []), e, e).pending == Created(fs, e, e).pending;
    Go(m, s, Advance(p, []), Created(fs, e, []), n, Writing(e), Created(fs, e, e), n, Linking(e));
  }

  lemma ReachLinked(m: Mode, s: State, p: Pid, e: Bytes, fs: Fs, n: nat)
    requires CanReach(m, With(s, p, Created(fs, e, e), n, Linking(e))) && n !in fs.seqs && (m.Failing? ==> p == 0)
    ensures CanReach(m, With(s, p, Linked(fs, e, n), n, Naming(e, n)))
  {
    Go(m, s, Advance(p, []), Created(fs, e, e), n, Linking(e), Linked(fs, e, n), n, Naming(e, n));
  }

  /** A second copy of the entry is linked beside the first. */
  lemma SecondCopy(m: Mode, s: State, p: Pid, e: Bytes, fs: Fs)
    requires CanReach(m, With(s, p, fs, 0, Creating(e))) && LeafDigest(e) !in fs.pending && (m.Failing? ==> p == 0)
    requires fs.seqs == map[0 := e]
    ensures exists acts, s' :: Path(m, acts, s') && HasEntry(s'.fs, 0, e) && HasEntry(s'.fs, 1, e)
  {
    ReachLinking(m, s, p, e, fs, 0);
    Go(m, s, Advance(p, []), Created(fs, e, e), 0, Linking(e), Created(fs, e, e), 1, Linking(e));
    ReachLinked(m, s, p, e, fs, 1);
    var s' := With(s, p, Linked(fs, e, 1), 1, Naming(e, 1));
    var acts :| Path(m, acts, s');
    assert Path(m, acts, s') && HasEntry(s'.fs, 0, e) && HasEntry(s'.fs, 1, e);
  }

  /** The leaf-hash file is made and the temporary files are removed. */
  lemma ReachReturned(s: State, e: Bytes)
    requires CanReach(Several, With(s, 0, Linked(NO_FILES, e, 0), 0, Naming(e, 0)))
    ensures CanReach(Several, With(s, 0, NO_FILES.(seqs := map[0 := e], leaf := map[LeafDigest(e) := Some(0)]), 0,
                                   Returned(e, Sequenced(0))))
  {
    var a, h := Advance(0, []), LeafDigest(e);
    var fs := Linked(NO_FILES, e, 0);
    var fs1, fs2 := fs.(leafTmp := map[h := None]), fs.(leafTmp := map[h := Some(0)]);
    Go(Several, s, a, fs, 0, Naming(e, 0), fs1, 0, NameWriting(e, 0));
    assert fs1.leafTmp[h := Some(0)] == fs2.leafTmp;
    Go(Several, s, a, fs1, 0, NameWriting(e, 0), fs2, 0, NameLinking(e, 0));
    ReachNamed(s, e);
    ReachRemoved(s, e);
  }

  lemma ReachNamed(s: State, e: Bytes)
    requires var h := LeafDigest(e);
             CanReach(Several, With(s, 0, Fs(map[0 := e], map[], map[h := e], map[h := Some(0)]), 0, NameLinking(e, 0)))
    ensures var h := LeafDigest(e);
            CanReach(Several, With(s, 0, Fs(map[0 := e], map[h := Some(0)], map[h := e], map[h := Some(0)]), 0,
                                   Clearing(e, Sequenced(0))))
  {
    var fs := Fs(map[0 := e], map[], map[LeafDigest(e) := e], map[LeafDigest(e) := Some(0)]);
    Go(Several, s, Advance(0, []), fs, 0, NameLinking(e, 0), fs.(leaf := map[LeafDigest(e) := Some(0)]), 0,
       Clearing(e, Sequenced(0)));
  }

  lemma ReachRemoved(s: State, e: Bytes)
    requires var h := LeafDigest(e);
             CanReach(Several, With(s, 0, Fs(map[0 := e], map[h := Some(0)], map[h := e], map[h := Some(0)]), 0,
                                    Clearing(e, Sequenced(0))))
    ensures CanReach(Several, With(s, 0, NO_FILES.(seqs := map[0 := e], leaf := map[LeafDigest(e) := Some(0)]), 0,
                                   Returned(e, Sequenced(0))))
  {
    var a, h, ok := Advance(0, []), LeafDigest(e), Sequenced(0);
    var fs := Fs(map[0 := e], map[h := Some(0)], map[h := e], map[h := Some(0)]);
    var fs1 := fs.(leafTmp := map[]);
    assert fs.leafTmp - {h} == map[] && fs1.pending - {h} == map[];
    Go(Several, s, a, fs, 0, Clearing(e, ok), fs1, 0, Removing(e, ok));
    Go(Several, s, a, fs1, 0, Removing(e, ok), fs1.(pending := map[]), 0, Returned(e, ok));
  }

  /** Two sequencers have looked for the entry and not found it. */
  lemma ReachRace(e: Bytes)
    ensures CanReach(Several, State(NO_FILES, map[0 := Proc(0, Creating(e)), 1 := Proc(0, Creating(e))]))
  {
    assert Path(Several, [], INIT);
    Then(Several, INIT, Load(0, 0), With(INIT, 0, NO_FILES, 0, Idle));
    ReachCreating(Several, INIT, e, NO_FILES, Idle);
    var s := With(INIT, 0, NO_FILES, 0, Creating(e));
    Then(Several, s, Load(1, 0), With(s, 1, NO_FILES, 0, Idle));
    Go(Several, s, Begin(1, e), NO_FILES, 0, Idle, NO_FILES, 0, Checking(e));
    Go(Several, s, Advance(1, []), NO_FILES, 0, Checking(e), NO_FILES, 0, Creating(e));
    assert With(s, 1, NO_FILES, 0, Creating(e)).procs == map[0 := Proc(0, Creating(e)), 1 := Proc(0, Creating(e))];
  }

  /** Two sequencers that never crash or fail can give one entry two numbers. */
  lemma TwoSequencersCanDuplicate(e: Bytes)
    ensures exists acts, s :: Path(Several, acts, s) && HasEntry(s.fs, 0, e) && HasEntry(s.fs, 1, e)
  {
    ReachRace(e);
    var s := State(NO_FILES, map[0 := Proc(0, Creating(e)), 1 := Proc(0, Creating(e))]);
    assert s == With(s, 0, NO_FILES, 0, Creating(e));
    ReachLinking(Several, s, 0, e, NO_FILES, 0);
    ReachLinked(Several, s, 0, e, NO_FILES, 0);
    ReachReturned(s, e);
    var fs := NO_FILES.(seqs := map[0 := e], leaf := map[LeafDigest(e) := Some(0)]);
    var t := With(s, 0, fs, 0, Returned(e, Sequenced(0)));
    assert t == With(t, 1, fs, 0, Creating(e));
    SecondCopy(Several, t, 1, e, fs);
  }

  /** So can a single sequencer that never crashes, when its leaf-hash file cannot be written:
      the failed call gives up the lock, and the entry can be submitted again. */
  lemma FailedCallCanDuplicate(e: Bytes)
    ensures exists acts, s :: Path(Failing, acts, s) && HasEntry(s.fs, 0, e) && HasEntry(s.fs, 1, e)
  {
    var m, s := Failing, INIT;
    assert Path(m, [], INIT);
    Then(m, s, Load(0, 0), With(s, 0, NO_FILES, 0, Idle));
    ReachCreating(m, s, e, NO_FILES, Idle);
    ReachLinking(m, s, 0, e, NO_FILES, 0);
    ReachLinked(m, s, 0, e, NO_FILES, 0);
    ReachResubmitted(s, e);
    SecondCopy(m, s, 0, e, NO_FILES.(seqs := map[0 := e]));
  }

  lemma ReachResubmitted(s: State, e: Bytes)
    requires CanReach(Failing, With(s, 0, Linked(NO_FILES, e, 0), 0, Naming(e, 0)))
    ensures CanReach(Failing, With(s, 0, NO_FILES.(seqs := map[0 := e]), 0, Creating(e)))
  {
    var m, fs, left := Failing, Linked(NO_FILES, e, 0), NO_FILES.(seqs := map[0 := e]);
    Go(m, s, Fault(0), fs, 0, Naming(e, 0), fs, 0, Removing(e, Error));
    assert fs.pending - {LeafDigest(e)} == map[];
    Go(m, s, Advance(0, []), fs, 0, Removing(e, Error), left, 0, Returned(e, Error));
    ReachCreating(m, s, e, left, Returned(e, Error));
  }

  lemma ReachCreating(m: Mode, s: State, e: Bytes, fs: Fs, c: Call)
    requires CanReach(m, With(s, 0, fs, 0, c)) && AtRest(c) && LeafDigest(e) !in fs.leaf
    ensures CanReach(m, With(s, 0, fs, 0, Creating(e)))
  {
    Go(m, s, Begin(0, e), fs, 0, c, fs, 0, Checking(e));
    Go(m, s, Advance(0, []), fs, 0, Checking(e), fs, 0, Creating(e));
  }

  // ----- runs that put an entry out -----

  lemma CrashRun(e: Bytes, fs: Fs, c: Call)
    requires CanReach(Several, With(INIT, 0, fs, 0, c)) && Holds(c) && c.entry == e && LeafDigest(e) !in fs.leaf
    ensures exists acts, s :: Exec(INIT, acts) == Some(s) && Out(s, LeafDigest(e)) && s.fs == fs
  {
    var t := With(INIT, 0, fs, 0, c);
    var acts :| Path(Several, acts, t);
    EveryInterleaving(INIT, acts);
    assert t.procs.Keys == {0};
    CrashPutsOut(t, 0);
    ExecLast(INIT, acts, Crash(0));
    var s := Apply(t, Crash(0)).value;
    assert Exec(INIT, acts + [Crash(0)]) == Some(s) && Out(s, LeafDigest(e)) && s.fs == fs;
  }

  /** For every entry there is a run of a lone sequencer that crashes once and so puts it out
      without a number, and one that does so after it has number 0. */
  lemma CrashRunsExist(e: Bytes)
    ensures exists acts, s :: Exec(INIT, acts) == Some(s) && Out(s, LeafDigest(e)) && s.fs.seqs == map[]
    ensures exists acts, s :: Exec(INIT, acts) == Some(s) && Out(s, LeafDigest(e)) && HasEntry(s.fs, 0, e)
  {
    var m, s := Several, INIT;
    assert Path(m, [], INIT);
    Then(m, s, Load(0, 0), With(s, 0, NO_FILES, 0, Idle));
    ReachCreating(m, s, e, NO_FILES, Idle);
    ReachLinking(m, s, 0, e, NO_FILES, 0);
    ReachLinked(m, s, 0, e, NO_FILES, 0);
    CrashRun(e, Created(NO_FILES, e, e), Linking(e));
    CrashRun(e, Linked(NO_FILES, e, 0), Naming(e, 0));
  }
}
