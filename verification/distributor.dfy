/** The distributor: witness signatures on the same checkpoint are merged, and slot i serves a
    largest checkpoint that has at least i witness signatures. */
module Distributor {
  import opened CompactRange
  import opened Witness
  import Consensus

  /** The log's key, its origin, the known witnesses, and the number of the last slot. */
  datatype Opts = Opts(logKey: Key, origin: string, witnesses: set<Key>, maxWitnessSignatures: nat)
  {
    predicate Valid() { logKey !in witnesses }
  }

  /** The text of a note: its checkpoint and any further lines. */
  datatype Body = Body(origin: string, cp: Checkpoint, ext: string)

  /** The note opens under the log's key. */
  predicate Opens(o: Opts, n: Note) { n.Note? && o.logKey in n.signers }

  /** The note opens and its text is a checkpoint of the log. */
  predicate Acceptable(o: Opts, n: Note) { Opens(o, n) && n.origin == o.origin }

  function BodyOf(n: Note): Body
    requires n.Note?
  {
    Body(n.origin, n.cp, n.ext)
  }

  // ----- combining signatures -----

  /** The known witnesses that have signed any of the notes with this body. */
  function SignersOf(o: Opts, notes: seq<Note>, b: Body): set<Key>
    requires forall n :: n in notes ==> n.Note?
  {
    set n, k | n in notes && BodyOf(n) == b && k in n.signers && k in o.witnesses :: k
  }

  /** The note that carries the log's signature and all of theirs. */
  function Combined(o: Opts, notes: seq<Note>, b: Body): Note
    requires forall n :: n in notes ==> n.Note?
  {
    Note(b.origin, b.cp, b.ext, SignersOf(o, notes, b) + {o.logKey})
  }

  /** Combine notes that must all be signed by the log and have the same body. */
  method Combine(o: Opts, cps: seq<Note>) returns (r: Option<Note>)
    requires cps != []
    ensures r.Some? <==> (forall n :: n in cps ==> Opens(o, n) && cps[0].Note? && BodyOf(n) == BodyOf(cps[0]))
    ensures r.Some? ==> (forall n :: n in cps ==> n.Note?) && r.value == Combined(o, cps, BodyOf(cps[0]))
  {
    var sigs: set<Key> := {};
    for i := 0 to |cps|
      invariant forall k :: 0 <= k < i ==> Opens(o, cps[k]) && cps[0].Note? && BodyOf(cps[k]) == BodyOf(cps[0])
      invariant forall k :: k in sigs <==> k in o.witnesses && exists j :: 0 <= j < i && k in cps[j].signers
    {
      if !Opens(o, cps[i]) { return None; }
      if BodyOf(cps[i]) != BodyOf(cps[0]) { return None; }
      sigs := sigs + cps[i].signers * o.witnesses;
    }
    var b := BodyOf(cps[0]);
    assert sigs == SignersOf(o, cps, b);
    return Some(Note(b.origin, b.cp, b.ext, sigs + {o.logKey}));
  }

  // ----- the slots -----

  /** One combined note for every body among the notes. */
  function Candidates(o: Opts, notes: seq<Note>): set<Note>
    requires forall n :: n in notes ==> n.Note?
  {
    set n | n in notes :: Combined(o, notes, BodyOf(n))
  }

  /** The number of witness signatures: all but the log's. */
  function Signatures(n: Note): int
    requires n.Note?
  {
    |n.signers| - 1
  }

  /** A largest candidate with at least i witness signatures, or nothing if there is none. */
  ghost predicate BestFor(candidates: set<Note>, i: nat, slot: Option<Note>)
    requires forall n :: n in candidates ==> n.Note?
  {
    if slot.None? then forall n :: n in candidates ==> Signatures(n) < i
    else slot.value in candidates && Signatures(slot.value) >= i
         && forall n :: n in candidates && Signatures(n) >= i ==> n.cp.size <= slot.value.cp.size
  }

  ghost predicate SlotTable(o: Opts, notes: seq<Note>, slots: seq<Option<Note>>)
    requires forall n :: n in notes ==> n.Note?
  {
    |slots| == o.maxWitnessSignatures + 1
    && forall i :: 0 <= i < |slots| ==> BestFor(Candidates(o, notes), i, slots[i])
  }

  predicate Descending(s: seq<Note>) {
    (forall n :: n in s ==> n.Note?) && forall i, j :: 0 <= i < j < |s| ==> s[i].cp.size >= s[j].cp.size
  }

  /** The notes by falling size. */
  method SortBySize(notes: set<Note>) returns (s: seq<Note>)
    requires forall n :: n in notes ==> n.Note?
    ensures Descending(s) && forall n :: n in s <==> n in notes
  {
    s := [];
    var left := notes;
    while left != {}
      invariant left <= notes && Descending(s)
      invariant forall n :: n in s <==> n in notes && n !in left
      decreases left
    {
      var n :| n in left;
      var i := 0;
      while i < |s| && s[i].cp.size >= n.cp.size
        invariant 0 <= i <= |s|
        invariant forall k :: 0 <= k < i ==> s[k].cp.size >= n.cp.size
      {
        i := i + 1;
      }
      s := Insert(s, i, n);
      left := left - {n};
    }
  }

  function Insert(s: seq<Note>, i: nat, n: Note): (r: seq<Note>)
    requires i <= |s| && Descending(s) && n.Note?
    requires (forall k :: 0 <= k < i ==> s[k].cp.size >= n.cp.size) && (i < |s| ==> s[i].cp.size < n.cp.size)
    ensures Descending(r) && forall m :: m in r <==> m in s || m == n
  {
    var r := s[..i] + [n] + s[i..];
    assert forall m :: m in r <==> m in s[..i] || m == n || m in s[i..];
    assert s == s[..i] + s[i..];
    r
  }

  /** One pass over the sorted candidates: a candidate that has too few signatures for a slot
      has too few for all later slots. */
  method FillSlots(combined: seq<Note>, size: nat) returns (ret: seq<Option<Note>>)
    requires Descending(combined)
    ensures |ret| == size && forall i :: 0 <= i < size ==> BestFor((set n | n in combined), i, ret[i])
  {
    var c := 0;
    ret := [];
    for i := 0 to size
      invariant |ret| == i && c <= |combined|
      invariant forall k :: 0 <= k < c ==> Signatures(combined[k]) < i
      invariant forall k :: 0 <= k < i ==> BestFor((set n | n in combined), k, ret[k])
    {
      while c < |combined| && Signatures(combined[c]) < i
        invariant c <= |combined| && forall k :: 0 <= k < c ==> Signatures(combined[k]) < i
      {
        c := c + 1;
      }
      ghost var all := set n | n in combined;
      var slot := if c < |combined| then Some(combined[c]) else None;
      assert BestFor(all, i, slot);
      ret := ret + [slot];
    }
  }

  // ----- the update -----

  function Present(raw: seq<Option<Note>>): (r: seq<Note>)
    ensures forall n :: n in r <==> Some(n) in raw
  {
    if raw == [] then [] else
    assert raw == [raw[0]] + raw[1..];
    OptSeq(raw[0]) + Present(raw[1..])
  }

  /** The slots kept from the old state: those that still have a number. */
  function Kept(o: Opts, state: seq<Option<Note>>): seq<Option<Note>> {
    if |state| > o.maxWitnessSignatures + 1 then state[..o.maxWitnessSignatures + 1] else state
  }

  /** All notes that take part in the update. */
  function Inputs(o: Opts, state: seq<Option<Note>>, incoming: seq<Option<Note>>): seq<Note> {
    Present(Kept(o, state)) + Present(incoming)
  }

  /** What grouping by body yields: under each body the notes that have it. */
  ghost predicate Grouped(notes: seq<Note>, byBody: map<Body, seq<Note>>) {
    (forall n :: n in notes ==> n.Note? && BodyOf(n) in byBody)
    && (forall b :: b in byBody ==> byBody[b] != [])
    && (forall b, n :: b in byBody ==> (n in byBody[b] <==> n in notes && n.Note? && BodyOf(n) == b))
  }

  /** Group the notes by body, unless one of them does not open. */
  method Group(o: Opts, notes: seq<Note>) returns (r: Option<map<Body, seq<Note>>>)
    ensures r.Some? <==> forall n :: n in notes ==> Opens(o, n)
    ensures r.Some? ==> Grouped(notes, r.value)
  {
    var byBody: map<Body, seq<Note>> := map[];
    for i := 0 to |notes|
      invariant forall n :: n in notes[..i] ==> Opens(o, n)
      invariant Grouped(notes[..i], byBody)
    {
      var n := notes[i];
      assert notes[..i + 1] == notes[..i] + [n];
      if !Opens(o, n) { return None; }
      var b := BodyOf(n);
      var sofar := if b in byBody then byBody[b] else [];
      byBody := byBody[b := sofar + [n]];
    }
    assert notes[..|notes|] == notes;
    return Some(byBody);
  }

  lemma GroupCombines(o: Opts, notes: seq<Note>, group: seq<Note>, b: Body)
    requires forall n :: n in notes ==> n.Note?
    requires forall n :: n in group <==> n in notes && BodyOf(n) == b
    ensures Combined(o, group, b) == Combined(o, notes, b)
  {
    assert SignersOf(o, group, b) == SignersOf(o, notes, b);
  }

  /** Combine every group, unless one has another log's origin. */
  method CombineAll(o: Opts, notes: seq<Note>, byBody: map<Body, seq<Note>>) returns (r: Option<set<Note>>)
    requires Grouped(notes, byBody) && forall n :: n in notes ==> Opens(o, n)
    ensures r.Some? <==> forall n :: n in notes ==> n.origin == o.origin
    ensures r.Some? ==> r.value == Candidates(o, notes)
  {
    var combined: set<Note> := {};
    var left := byBody.Keys;
    while left != {}
      invariant left <= byBody.Keys
      invariant forall b :: b in byBody && b !in left ==> b.origin == o.origin
      invariant combined == set b | b in byBody && b !in left :: Combined(o, notes, b)
      decreases left
    {
      var b :| b in left;
      var n := Combine(o, byBody[b]);
      GroupCombines(o, notes, byBody[b], b);
      if n.None? || n.value.origin != o.origin {
        assert byBody[b][0] in notes;
        return None;
      }
      combined := combined + {n.value};
      left := left - {b};
    }
    forall b | b in byBody
      ensures Combined(o, notes, b) in Candidates(o, notes)
    {
      assert byBody[b][0] in notes;
    }
    return Some(combined);
  }

  /** Fold incoming notes into the slots.  It fails exactly when a note that takes part is not
      a checkpoint of the log; otherwise every slot gets a largest checkpoint with enough
      witness signatures. */
  method UpdateState(o: Opts, state: seq<Option<Note>>, incoming: seq<Option<Note>>)
    returns (r: Option<seq<Option<Note>>>)
    requires o.Valid()
    ensures r.Some? <==> forall n :: n in Inputs(o, state, incoming) ==> Acceptable(o, n)
    ensures r.Some? ==> SlotTable(o, Inputs(o, state, incoming), r.value)
  {
    var notes := Inputs(o, state, incoming);
    var byBody := Group(o, notes);
    if byBody.None? { return None; }
    var combined := CombineAll(o, notes, byBody.value);
    if combined.None? { return None; }
    var sorted := SortBySize(combined.value);
    var ret := FillSlots(sorted, o.maxWitnessSignatures + 1);
    assert (set n | n in sorted) == combined.value;
    return Some(ret);
  }

  // ----- what the slots promise -----

  /** A later slot never serves a larger checkpoint than an earlier one. */
  lemma SlotSizesFall(o: Opts, notes: seq<Note>, slots: seq<Option<Note>>, i: nat, j: nat)
    requires (forall n :: n in notes ==> n.Note?) && SlotTable(o, notes, slots)
    requires i <= j < |slots| && slots[j].Some?
    ensures slots[i].Some? && slots[i].value.Note? && slots[j].value.Note?
    ensures slots[i].value.cp.size >= slots[j].value.cp.size
  {
    var c := Candidates(o, notes);
    assert BestFor(c, i, slots[i]) && BestFor(c, j, slots[j]);
  }

  ghost predicate SizesTellBodies(notes: seq<Note>) {
    (forall n :: n in notes ==> n.Note?)
    && forall m, n :: m in notes && n in notes && m.cp.size == n.cp.size ==> BodyOf(m) == BodyOf(n)
  }

  ghost predicate SameNotes(a: seq<Note>, b: seq<Note>) {
    forall n :: n in a <==> n in b
  }

  lemma SameCandidates(o: Opts, a: seq<Note>, b: seq<Note>)
    requires SameNotes(a, b) && forall n :: n in a ==> n.Note?
    ensures Candidates(o, a) == Candidates(o, b)
  {
    forall body: Body
      ensures Combined(o, a, body) == Combined(o, b, body)
    {
      assert SignersOf(o, a, body) == SignersOf(o, b, body);
    }
  }

  /** When no two bodies have the same size, the slots do not depend on the order of the
      notes, on repetitions, or on the order in which groups are combined. */
  lemma SlotsAreDetermined(o: Opts, a: seq<Note>, b: seq<Note>, s: seq<Option<Note>>, t: seq<Option<Note>>)
    requires SizesTellBodies(a) && SameNotes(a, b)
    requires SlotTable(o, a, s) && SlotTable(o, b, t)
    ensures s == t
  {
    SameCandidates(o, a, b);
    var c := Candidates(o, a);
    forall i | 0 <= i < |s|
      ensures s[i] == t[i]
    {
      assert BestFor(c, i, s[i]) && BestFor(c, i, t[i]);
      if s[i].Some? && t[i].Some? {
        assert s[i].value.cp.size == t[i].value.cp.size;
      }
    }
  }

  lemma SignersGrow(o: Opts, a: seq<Note>, b: seq<Note>, body: Body)
    requires (forall n :: n in a ==> n.Note?) && (forall n :: n in b ==> n.Note?)
    requires forall n, k :: n in a && BodyOf(n) == body && k in n.signers && k in o.witnesses ==>
               k in SignersOf(o, b, body)
    ensures SignersOf(o, a, body) <= SignersOf(o, b, body)
    ensures Signatures(Combined(o, a, body)) <= Signatures(Combined(o, b, body))
  {
    var x, y := Combined(o, a, body).signers, Combined(o, b, body).signers;
    assert x <= y;
    Consensus.SubsetSize(x, y);
  }

  /** The slots, together with any notes that took part before, have the same slots as a
      table: nothing is gained by running the update again. */
  lemma RerunKeepsTable(o: Opts, notes: seq<Note>, slots: seq<Option<Note>>, again: seq<Option<Note>>)
    requires o.Valid() && (forall n :: n in notes ==> n.Note?) && SlotTable(o, notes, slots)
    requires forall n :: Some(n) in again ==> n in notes
    ensures forall n :: n in Inputs(o, slots, again) ==> n.Note?
    ensures SlotTable(o, Inputs(o, slots, again), slots)
  {
    var c := Candidates(o, notes);
    var m := Inputs(o, slots, again);
    forall n | n in m
      ensures n.Note? && Combined(o, notes, BodyOf(n)) in c
      ensures forall k :: k in n.signers && k in o.witnesses ==> k in SignersOf(o, notes, BodyOf(n))
    {
      if n !in notes { SlotIsCandidate(o, notes, slots, n); }
    }
    forall n | n in m
      ensures Signatures(Combined(o, m, BodyOf(n))) <= Signatures(Combined(o, notes, BodyOf(n)))
    {
      SignersGrow(o, m, notes, BodyOf(n));
    }
    forall i | 0 <= i < |slots|
      ensures BestFor(Candidates(o, m), i, slots[i])
    {
      assert BestFor(c, i, slots[i]);
      if slots[i].Some? { RerunKeepsSlot(o, notes, m, slots[i].value); }
    }
  }

  lemma SlotIsCandidate(o: Opts, notes: seq<Note>, slots: seq<Option<Note>>, n: Note)
    requires (forall n :: n in notes ==> n.Note?) && SlotTable(o, notes, slots)
    requires Some(n) in slots
    ensures n in Candidates(o, notes) && n == Combined(o, notes, BodyOf(n))
  {
    var i :| 0 <= i < |slots| && slots[i] == Some(n);
    assert BestFor(Candidates(o, notes), i, slots[i]);
  }

  lemma RerunKeepsSlot(o: Opts, notes: seq<Note>, m: seq<Note>, v: Note)
    requires (forall n :: n in notes ==> n.Note?) && (forall n :: n in m ==> n.Note?)
    requires o.Valid() && v in m && v in Candidates(o, notes)
    requires forall n, k :: n in m && k in n.signers && k in o.witnesses ==> k in SignersOf(o, notes, BodyOf(n))
    ensures v in Candidates(o, m)
  {
    assert SignersOf(o, m, BodyOf(v)) == SignersOf(o, notes, BodyOf(v));
    assert v == Combined(o, m, BodyOf(v));
  }

  /** Updating is idempotent when no two bodies have the same size. */
  lemma Idempotent(o: Opts, notes: seq<Note>, slots: seq<Option<Note>>, again: seq<Option<Note>>,
                   slots': seq<Option<Note>>)
    requires o.Valid() && SizesTellBodies(notes) && SlotTable(o, notes, slots)
    requires forall n :: Some(n) in again ==> n in notes
    requires forall n :: n in Inputs(o, slots, again) ==> n.Note?
    requires SlotTable(o, Inputs(o, slots, again), slots')
    ensures slots' == slots
  {
    RerunKeepsTable(o, notes, slots, again);
    var m := Inputs(o, slots, again);
    forall n | n in m
      ensures n.Note? && exists x :: x in notes && BodyOf(x) == BodyOf(n)
    {
      if n !in notes { SlotIsCandidate(o, notes, slots, n); }
    }
    SlotsAreDetermined(o, m, m, slots, slots');
  }

  // ----- when the slots are determined -----

  lemma {:induction false} BestExists(c: set<Note>, i: nat) returns (slot: Option<Note>)
    requires forall n :: n in c ==> n.Note?
    ensures BestFor(c, i, slot)
    decreases c
  {
    if c == {} { return None; }
    var n :| n in c;
    slot := BestExists(c - {n}, i);
    if Signatures(n) >= i && (slot.None? || slot.value.cp.size < n.cp.size) { slot := Some(n); }
  }

  /** There is a table with any best candidate in its slot. */
  lemma TableWith(o: Opts, notes: seq<Note>, i: nat, slot: Option<Note>) returns (t: seq<Option<Note>>)
    requires forall n :: n in notes ==> n.Note?
    requires i <= o.maxWitnessSignatures && BestFor(Candidates(o, notes), i, slot)
    ensures SlotTable(o, notes, t) && t[i] == slot
  {
    t := [];
    for k := 0 to o.maxWitnessSignatures + 1
      invariant |t| == k && (i < k ==> t[i] == slot)
      invariant forall l :: 0 <= l < k ==> BestFor(Candidates(o, notes), l, t[l])
    {
      var best := slot;
      if k != i { best := BestExists(Candidates(o, notes), k); }
      t := t + [best];
    }
  }

  ghost predicate OneBest(c: set<Note>, i: nat)
    requires forall n :: n in c ==> n.Note?
  {
    forall v, w :: BestFor(c, i, Some(v)) && BestFor(c, i, Some(w)) ==> v == w
  }

  ghost predicate Undetermined(o: Opts, notes: seq<Note>)
    requires forall n :: n in notes ==> n.Note?
  {
    exists s, t :: SlotTable(o, notes, s) && SlotTable(o, notes, t) && s != t
  }

  /** The slots are determined exactly when no slot has two best candidates. */
  lemma WhenDetermined(o: Opts, notes: seq<Note>)
    requires forall n :: n in notes ==> n.Note?
    ensures Undetermined(o, notes)
       <==> exists i: nat :: i <= o.maxWitnessSignatures && !OneBest(Candidates(o, notes), i)
  {
    var c := Candidates(o, notes);
    if Undetermined(o, notes) {
      var s: seq<Option<Note>>, t: seq<Option<Note>> :| SlotTable(o, notes, s) && SlotTable(o, notes, t) && s != t;
      var i :| 0 <= i < |s| && s[i] != t[i];
      assert BestFor(c, i, s[i]) && BestFor(c, i, t[i]);
      assert s[i].Some? && t[i].Some?;
      assert !OneBest(c, i);
    }
    if i: nat :| i <= o.maxWitnessSignatures && !OneBest(c, i) {
      var v, w :| BestFor(c, i, Some(v)) && BestFor(c, i, Some(w)) && v != w;
      var s := TableWith(o, notes, i, Some(v));
      var t := TableWith(o, notes, i, Some(w));
      assert s[i] != t[i];
    }
  }

  /** Two largest checkpoints with different bodies: either may be served without witness
      signatures, so the slots depend on the order in which the groups happen to be sorted. */
  lemma TiesAreUndetermined(o: Opts, notes: seq<Note>, a: Note, b: Note)
    requires o.Valid() && a in notes && b in notes && forall n :: n in notes ==> n.Note?
    requires forall n :: n in notes ==> n.cp.size <= a.cp.size
    requires BodyOf(a) != BodyOf(b) && a.cp.size == b.cp.size
    ensures Undetermined(o, notes)
  {
    var c, x, y := Candidates(o, notes), Combined(o, notes, BodyOf(a)), Combined(o, notes, BodyOf(b));
    assert x in c && y in c && forall n :: n in c ==> n.cp.size <= a.cp.size;
    assert BestFor(c, 0, Some(x)) && BestFor(c, 0, Some(y));
    assert !OneBest(c, 0);
    WhenDetermined(o, notes);
  }

  // ----- runs -----

  /** What a slot holds has the signatures the slot asks for. */
  ghost predicate Earned(o: Opts, slots: seq<Option<Note>>) {
    |slots| == o.maxWitnessSignatures + 1
    && forall i :: 0 <= i < |slots| && slots[i].Some? ==>
      Acceptable(o, slots[i].value) && |slots[i].value.signers * o.witnesses| >= i
  }

  lemma TablesAreEarned(o: Opts, notes: seq<Note>, slots: seq<Option<Note>>)
    requires o.Valid() && (forall n :: n in notes ==> n.Note? && Acceptable(o, n)) && SlotTable(o, notes, slots)
    ensures Earned(o, slots)
  {
    forall i | 0 <= i < |slots| && slots[i].Some?
      ensures Acceptable(o, slots[i].value) && |slots[i].value.signers * o.witnesses| >= i
    {
      var v := slots[i].value;
      assert BestFor(Candidates(o, notes), i, slots[i]);
      assert v.signers * o.witnesses == v.signers - {o.logKey};
    }
  }

  /** An update keeps every slot's promise, and no slot goes back to a smaller checkpoint. */
  lemma SlotsNeverRegress(o: Opts, slots: seq<Option<Note>>, incoming: seq<Option<Note>>, slots': seq<Option<Note>>,
                          i: nat)
    requires o.Valid() && Earned(o, slots)
    requires UpdateStep(o, slots, incoming, slots')
    requires i < |slots| && slots[i].Some?
    ensures Earned(o, slots') && slots'[i].Some? && slots'[i].value.cp.size >= slots[i].value.cp.size
  {
    var notes := Inputs(o, slots, incoming);
    TablesAreEarned(o, notes, slots');
    var v := slots[i].value;
    assert Some(v) in Kept(o, slots) && v in notes;
    var w := Combined(o, notes, BodyOf(v));
    assert w in Candidates(o, notes);
    Consensus.SubsetSize(v.signers * o.witnesses, SignersOf(o, notes, BodyOf(v)));
    assert Signatures(w) >= i;
    assert BestFor(Candidates(o, notes), i, slots'[i]);
  }

  ghost predicate UpdateStep(o: Opts, slots: seq<Option<Note>>, incoming: seq<Option<Note>>,
                             slots': seq<Option<Note>>) {
    (forall n :: n in Inputs(o, slots, incoming) ==> n.Note? && Acceptable(o, n))
    && SlotTable(o, Inputs(o, slots, incoming), slots')
  }

  /** A run of successful updates: the k-th takes the k-th batch of incoming notes. */
  ghost predicate Updates(o: Opts, run: seq<seq<Option<Note>>>, incoming: seq<seq<Option<Note>>>) {
    |run| == |incoming| + 1
    && forall k :: 0 <= k < |incoming| ==> UpdateStep(o, run[k], incoming[k], run[k + 1])
  }

  /** Over every run a slot that has been filled stays filled, and serves ever larger
      checkpoints. */
  lemma {:induction false} EveryRunGrows(o: Opts, run: seq<seq<Option<Note>>>, incoming: seq<seq<Option<Note>>>,
                                         i: nat, j: nat, k: nat)
    requires o.Valid() && Updates(o, run, incoming) && i <= j < |run|
    requires Earned(o, run[i]) && k < |run[i]| && run[i][k].Some?
    ensures Earned(o, run[j]) && run[j][k].Some? && run[j][k].value.cp.size >= run[i][k].value.cp.size
    decreases j
  {
    if i < j {
      EveryRunGrows(o, run, incoming, i, j - 1, k);
      assert UpdateStep(o, run[j - 1], incoming[j - 1], run[j - 1 + 1]);
      SlotsNeverRegress(o, run[j - 1], incoming[j - 1], run[j], k);
    }
  }
}
