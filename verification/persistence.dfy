/** The in-memory persistence of the witness and the `Update` call that runs on it. */
module Persistence {
  import opened Merkle
  import opened CompactRange
  import opened Consistency
  import opened Witness

  class InMemoryPersistence {
    var checkpoints: map<LogId, Stored>

    constructor ()
      ensures checkpoints == map[]
    {
      checkpoints := map[];
    }

    /** Take a snapshot of the state of one log. */
    method WriteOps(id: LogId) returns (rw: ReadWriter)
      ensures fresh(rw) && rw.persistence == this && rw.id == id
      ensures rw.read == Lookup(checkpoints, id)
    {
      var cp: Option<Stored> := None;
      if id in checkpoints { cp := Some(checkpoints[id]); }
      rw := new ReadWriter(this, id, cp);
    }

    /** Replace the state of a log if it is still the one that was read. */
    method CompareAndWrite(id: LogId, expected: Option<Stored>, state: Stored) returns (ok: bool)
      modifies this
      ensures var w := ExpectAndWrite(old(checkpoints), id, expected, state);
              ok == w.Some? && checkpoints == if ok then w.value else old(checkpoints)
    {
      var found := id in checkpoints;
      if expected.Some? {
        if !found { return false; }
        if expected.value != checkpoints[id] { return false; }
      } else if found {
        return false;
      }
      checkpoints := checkpoints[id := state];
      return true;
    }
  }

  class ReadWriter {
    const persistence: InMemoryPersistence
    const id: LogId
    const read: Option<Stored>
    var toStore: Option<Stored>

    constructor (persistence: InMemoryPersistence, id: LogId, read: Option<Stored>)
      ensures this.persistence == persistence && this.id == id && this.read == read
    {
      this.persistence, this.id, this.read, toStore := persistence, id, read, None;
    }

    method Set(chkpt: Note, range: seq<Digest>) returns (ok: bool)
      modifies this, persistence
      ensures var w := ExpectAndWrite(old(persistence.checkpoints), id, read, Stored(chkpt, range));
              ok == w.Some? && persistence.checkpoints == if ok then w.value else old(persistence.checkpoints)
    {
      toStore := Some(Stored(chkpt, range));
      ok := persistence.CompareAndWrite(id, read, toStore.value);
    }
  }

  /** One undisturbed call of `Update`: the write it decides on always goes through. */
  method Update(cfg: Config, lsp: InMemoryPersistence, id: LogId, nextRaw: Note, proof: seq<Digest>)
    returns (reply: Reply)
    modifies lsp
    ensures match Decide(cfg, id, nextRaw, proof, Lookup(old(lsp.checkpoints), id))
            case Answer(r) => reply == r && lsp.checkpoints == old(lsp.checkpoints)
            case Store(state) => reply == Reply(Some(state.chkpt), None)
                                 && lsp.checkpoints == old(lsp.checkpoints)[id := state]
  {
    if id !in cfg.logs { return Reply(None, Some(NotFound)); }
    var info := cfg.logs[id];
    var next := Parse(info, nextRaw);
    if next.None? { return Reply(None, Some(InvalidArgument)); }
    var write := lsp.WriteOps(id);
    var signed, ok := Cosign(cfg, nextRaw), false;
    if write.read.None? {
      ok := SetInitChkptData(write, info, next.value, signed, proof);
      if !ok { return Reply(None, Some(Internal)); }
      return Reply(Some(signed), None);
    }
    var prevRaw := write.read.value.chkpt;
    var prev := Parse(info, prevRaw);
    if prev.None? { return Reply(None, Some(Internal)); }
    if info.useCompact && UnmarshalRange(write.read.value.range).None? { return Reply(None, Some(InvalidArgument)); }
    if next.value.size < prev.value.size { return Reply(Some(prevRaw), Some(AlreadyExists)); }
    if next.value.size == prev.value.size {
      if next.value.hash != prev.value.hash { return Reply(Some(prevRaw), Some(FailedPrecondition)); }
      return Reply(Some(prevRaw), None);
    }
    if info.useCompact {
      var nextRange := VerifyRange(next.value, prev.value, write.read.value.range, proof);
      if nextRange.None? { return Reply(Some(prevRaw), Some(FailedPrecondition)); }
      ok := write.Set(signed, nextRange.value);
    } else {
      if !VerifyConsistency(prev.value.size, next.value.size, proof, prev.value.hash, next.value.hash) {
        return Reply(Some(prevRaw), Some(FailedPrecondition));
      }
      ok := write.Set(signed, []);
    }
    if !ok { return Reply(None, Some(Internal)); }
    return Reply(Some(signed), None);
  }

  method SetInitChkptData(write: ReadWriter, info: LogInfo, c: Checkpoint, signed: Note, range: seq<Digest>)
    returns (ok: bool)
    modifies write, write.persistence
    ensures var state := Stored(signed, if info.useCompact then range else []);
            var w := ExpectAndWrite(old(write.persistence.checkpoints), write.id, write.read, state);
            ok == ((info.useCompact ==> RangeFor(c, range)) && w.Some?)
            && write.persistence.checkpoints == if ok then w.value else old(write.persistence.checkpoints)
  {
    if info.useCompact {
      var rng := NewRange(0, c.size, range);
      if rng.None? { return false; }
      if !VerifyRangeHash(c.hash, rng.value) { return false; }
      ok := write.Set(signed, range);
    } else {
      ok := write.Set(signed, []);
    }
  }
}
