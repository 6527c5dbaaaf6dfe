/** Updating the distributor in two steps instead of one: what can be lost, and exactly when
    nothing is. */
module Splitting {
  import opened CompactRange
  import opened Witness
  import opened Distributor
  import Consensus

  /** What the second of two updates works on: the slots of the first, and the later notes. */
  function Second(slots: seq<Option<Note>>, later: seq<Note>): seq<Note> { Present(slots) + later }

  /** That is what an update with these slots as its state takes. */
  lemma SecondIsAnUpdate(o: Opts, slots: seq<Option<Note>>, incoming: seq<Option<Note>>)
    requires |slots| == o.maxWitnessSignatures + 1
    ensures Inputs(o, slots, incoming) == Second(slots, Present(incoming))
  {
  }

  predicate AllNotes(notes: seq<Note>) { forall n :: n in notes ==> n.Note? }

  /** Two updates: `notes` made the slots, then `later` came. */
  ghost predicate TwoUpdates(o: Opts, notes: seq<Note>, slots: seq<Option<Note>>, later: seq<Note>) {
    o.Valid() && AllNotes(notes) && AllNotes(later) && SlotTable(o, notes, slots)
  }

  predicate HasBody(notes: seq<Note>, b: Body)
    requires AllNotes(notes)
  {
    exists n :: n in notes && BodyOf(n) == b
  }

  lemma SecondNotes(o: Opts, notes: seq<Note>, slots: seq<Option<Note>>, later: seq<Note>)
    requires TwoUpdates(o, notes, slots, later)
    ensures AllNotes(Second(slots, later)) && AllNotes(notes + later)
  {
    forall n | Some(n) in slots ensures n.Note? { SlotIsCandidate(o, notes, slots, n); }
  }

  /** The second update knows of no signature that one update would not know of. */
  lemma SecondKnowsLess(o: Opts, notes: seq<Note>, slots: seq<Option<Note>>, later: seq<Note>, b: Body)
    requires TwoUpdates(o, notes, slots, later) && AllNotes(Second(slots, later))
    ensures SignersOf(o, Second(slots, later), b) <= SignersOf(o, notes + later, b)
    ensures Signatures(Combined(o, Second(slots, later), b)) <= Signatures(Combined(o, notes + later, b))
    ensures HasBody(Second(slots, later), b) ==> HasBody(notes + later, b)
  {
    var m, all := Second(slots, later), notes + later;
    forall n | n in m && BodyOf(n) == b
      ensures HasBody(all, b) && forall k :: k in n.signers && k in o.witnesses ==> k in SignersOf(o, all, b)
    {
      if n !in later {
        SlotIsCandidate(o, notes, slots, n);
        var x :| x in notes && BodyOf(x) == b;
        assert x in all;
        forall k | k in n.signers && k in o.witnesses ensures k in SignersOf(o, all, b) {
          var y :| y in notes && BodyOf(y) == b && k in y.signers;
          assert y in all;
        }
      }
    }
    SignersGrow(o, m, all, b);
  }

  /** A body that does not take part in the second update is not missed: what the slots serve
      in its place does take part. */
  lemma AbsentIsNotMissed(o: Opts, notes: seq<Note>, slots: seq<Option<Note>>, later: seq<Note>, b: Body, i: nat)
    returns (w: Note)
    requires TwoUpdates(o, notes, slots, later) && AllNotes(Second(slots, later))
    requires HasBody(notes + later, b) && !HasBody(Second(slots, later), b)
    requires i <= o.maxWitnessSignatures && Signatures(Combined(o, notes + later, b)) >= i
    ensures w in Candidates(o, Second(slots, later)) && Signatures(w) >= i && w.cp.size >= b.cp.size
  {
    var m, all := Second(slots, later), notes + later;
    assert HasBody(notes, b) by {
      var n :| n in all && BodyOf(n) == b;
      assert n !in later;
    }
    assert SignersOf(o, all, b) == SignersOf(o, notes, b) by {
      forall k | k in SignersOf(o, all, b) ensures k in SignersOf(o, notes, b) {
        var n :| n in all && BodyOf(n) == b && k in n.signers;
        assert n !in later;
      }
      forall k | k in SignersOf(o, notes, b) ensures k in SignersOf(o, all, b) {
        var n :| n in notes && BodyOf(n) == b && k in n.signers;
        assert n in all;
      }
    }
    assert Combined(o, notes, b) in Candidates(o, notes);
    assert BestFor(Candidates(o, notes), i, slots[i]);
    var s := slots[i].value;
    w := ServedTakesPart(o, notes, slots, later, s);
  }

  /** A served note takes part with all its signatures. */
  lemma ServedTakesPart(o: Opts, notes: seq<Note>, slots: seq<Option<Note>>, later: seq<Note>, s: Note)
    returns (w: Note)
    requires TwoUpdates(o, notes, slots, later) && AllNotes(Second(slots, later)) && Some(s) in slots
    ensures s.Note? && w in Candidates(o, Second(slots, later)) && Signatures(w) >= Signatures(s) && w.cp == s.cp
  {
    var m := Second(slots, later);
    SlotIsCandidate(o, notes, slots, s);
    assert s in m;
    w := Combined(o, m, BodyOf(s));
    assert s.signers <= w.signers;
    Consensus.SubsetSize(s.signers, w.signers);
  }

  // ----- exactly when nothing is lost -----

  /** Signatures on this body are lost: the second update does not know them all. */
  predicate Lossy(o: Opts, m: seq<Note>, all: seq<Note>, b: Body)
    requires AllNotes(m) && AllNotes(all)
  {
    HasBody(all, b) && Combined(o, m, b) != Combined(o, all, b)
  }

  /** The body takes part in the second update with i signatures. */
  predicate Contends(o: Opts, m: seq<Note>, b: Body, i: nat)
    requires AllNotes(m)
  {
    HasBody(m, b) && Signatures(Combined(o, m, b)) >= i
  }

  /** A note that the second update knows beats the body in slot i: it is larger, or as large
      while the body itself does not contend. */
  ghost predicate Overtaken(o: Opts, m: seq<Note>, b: Body, i: nat)
    requires AllNotes(m)
  {
    exists w :: w in Candidates(o, m) && Signatures(w) >= i
                && (w.cp.size > b.cp.size || (w.cp.size == b.cp.size && !Contends(o, m, b, i)))
  }

  /** Whatever the second update yields is what one update with all notes could yield. */
  ghost predicate LosesNothing(o: Opts, m: seq<Note>, all: seq<Note>)
    requires AllNotes(m) && AllNotes(all)
  {
    forall t :: SlotTable(o, m, t) ==> SlotTable(o, all, t)
  }

  /** Every body with lost signatures is overtaken in every slot it could have had. */
  ghost predicate LossesDoNotMatter(o: Opts, m: seq<Note>, all: seq<Note>)
    requires AllNotes(m) && AllNotes(all)
  {
    forall b, i: nat :: Lossy(o, m, all, b) && i <= o.maxWitnessSignatures && Signatures(Combined(o, all, b)) >= i ==>
      Overtaken(o, m, b, i)
  }

  /** No body is known better in the second update. */
  ghost predicate KnowsLess(o: Opts, m: seq<Note>, all: seq<Note>)
    requires AllNotes(m) && AllNotes(all)
  {
    forall b :: HasBody(m, b) ==>
      HasBody(all, b) && Signatures(Combined(o, m, b)) <= Signatures(Combined(o, all, b))
  }

  /** The second update has a candidate that is as good for slot i. */
  predicate AsGood(o: Opts, m: seq<Note>, b: Body, i: nat, w: Note)
    requires AllNotes(m)
  {
    w in Candidates(o, m) && Signatures(w) >= i && w.cp.size >= b.cp.size
  }

  ghost predicate Matched(o: Opts, m: seq<Note>, b: Body, i: nat)
    requires AllNotes(m)
  {
    exists w :: AsGood(o, m, b, i, w)
  }

  /** It has one for every body that does not take part. */
  ghost predicate AbsentCovered(o: Opts, m: seq<Note>, all: seq<Note>)
    requires AllNotes(m) && AllNotes(all)
  {
    forall b, i: nat ::
      HasBody(all, b) && !HasBody(m, b) && i <= o.maxWitnessSignatures && Signatures(Combined(o, all, b)) >= i ==>
        Matched(o, m, b, i)
  }

  lemma SecondIsCovered(o: Opts, notes: seq<Note>, slots: seq<Option<Note>>, later: seq<Note>)
    requires TwoUpdates(o, notes, slots, later)
    ensures AllNotes(Second(slots, later)) && AllNotes(notes + later)
    ensures KnowsLess(o, Second(slots, later), notes + later) && AbsentCovered(o, Second(slots, later), notes + later)
  {
    SecondNotes(o, notes, slots, later);
    var m, all := Second(slots, later), notes + later;
    forall b | HasBody(m, b)
      ensures HasBody(all, b) && Signatures(Combined(o, m, b)) <= Signatures(Combined(o, all, b))
    {
      SecondKnowsLess(o, notes, slots, later, b);
    }
    forall b, i: nat |
      HasBody(all, b) && !HasBody(m, b) && i <= o.maxWitnessSignatures && Signatures(Combined(o, all, b)) >= i
      ensures Matched(o, m, b, i)
    {
      var w := AbsentIsNotMissed(o, notes, slots, later, b, i);
      assert AsGood(o, m, b, i, w);
    }
  }

  /** For every candidate of one update the second has one that is as good. */
  lemma SomethingAsGood(o: Opts, m: seq<Note>, all: seq<Note>, i: nat, u: Note)
    requires AllNotes(m) && AllNotes(all) && AbsentCovered(o, m, all) && LossesDoNotMatter(o, m, all)
    requires i <= o.maxWitnessSignatures && u in Candidates(o, all) && Signatures(u) >= i
    ensures Matched(o, m, BodyOf(u), i)
  {
    var b := BodyOf(u);
    assert HasBody(all, b) && u == Combined(o, all, b);
    if HasBody(m, b) {
      if Lossy(o, m, all, b) {
        assert Overtaken(o, m, b, i);
        var w :| w in Candidates(o, m) && Signatures(w) >= i && w.cp.size >= b.cp.size;
        assert AsGood(o, m, b, i, w);
      } else {
        assert AsGood(o, m, b, i, u);
      }
    }
  }

  /** One slot of the second update is right for all notes. */
  lemma SlotStaysBest(o: Opts, m: seq<Note>, all: seq<Note>, i: nat, slot: Option<Note>)
    requires AllNotes(m) && AllNotes(all) && KnowsLess(o, m, all) && AbsentCovered(o, m, all)
    requires LossesDoNotMatter(o, m, all) && i <= o.maxWitnessSignatures && BestFor(Candidates(o, m), i, slot)
    ensures BestFor(Candidates(o, all), i, slot)
  {
    forall u | u in Candidates(o, all) && Signatures(u) >= i
      ensures slot.Some? && u.cp.size <= slot.value.cp.size
    {
      SomethingAsGood(o, m, all, i, u);
      var w :| AsGood(o, m, BodyOf(u), i, w);
    }
    if slot.Some? { SlotIsWhole(o, m, all, i, slot.value); }
  }

  /** What is served has all its signatures. */
  lemma SlotIsWhole(o: Opts, m: seq<Note>, all: seq<Note>, i: nat, v: Note)
    requires AllNotes(m) && AllNotes(all) && KnowsLess(o, m, all) && LossesDoNotMatter(o, m, all)
    requires i <= o.maxWitnessSignatures && BestFor(Candidates(o, m), i, Some(v))
    ensures v in Candidates(o, all)
  {
    var b := BodyOf(v);
    assert HasBody(m, b) && v == Combined(o, m, b);
    if Lossy(o, m, all, b) {
      assert Contends(o, m, b, i) && Overtaken(o, m, b, i);
      assert false;
    }
  }

  lemma TableStays(o: Opts, m: seq<Note>, all: seq<Note>, t: seq<Option<Note>>)
    requires AllNotes(m) && AllNotes(all) && KnowsLess(o, m, all) && AbsentCovered(o, m, all)
    requires LossesDoNotMatter(o, m, all) && SlotTable(o, m, t)
    ensures SlotTable(o, all, t)
  {
    forall i | 0 <= i < |t| ensures BestFor(Candidates(o, all), i, t[i]) {
      assert BestFor(Candidates(o, m), i, t[i]);
      SlotStaysBest(o, m, all, i, t[i]);
    }
  }

  /** A lossy body that is not overtaken in some slot shows in the result. */
  lemma LossShows(o: Opts, m: seq<Note>, all: seq<Note>, b: Body, i: nat) returns (t: seq<Option<Note>>)
    requires AllNotes(m) && AllNotes(all) && Lossy(o, m, all, b)
    requires i <= o.maxWitnessSignatures && Signatures(Combined(o, all, b)) >= i && !Overtaken(o, m, b, i)
    ensures SlotTable(o, m, t) && !SlotTable(o, all, t)
  {
    var c, u := Candidates(o, m), Combined(o, all, b);
    assert u in Candidates(o, all);
    if Contends(o, m, b, i) {
      var v := Combined(o, m, b);
      assert v in c && forall w :: w in c && Signatures(w) >= i ==> w.cp.size <= b.cp.size;
      t := TableWith(o, m, i, Some(v));
      assert v !in Candidates(o, all);
      assert !BestFor(Candidates(o, all), i, t[i]);
    } else {
      var slot := BestExists(c, i);
      t := TableWith(o, m, i, slot);
      assert !BestFor(Candidates(o, all), i, t[i]);
    }
  }

  lemma WhenNothingIsLost(o: Opts, m: seq<Note>, all: seq<Note>)
    requires AllNotes(m) && AllNotes(all) && KnowsLess(o, m, all) && AbsentCovered(o, m, all)
    ensures LosesNothing(o, m, all) <==> LossesDoNotMatter(o, m, all)
  {
    if LossesDoNotMatter(o, m, all) {
      forall t | SlotTable(o, m, t) ensures SlotTable(o, all, t) { TableStays(o, m, all, t); }
    } else {
      var b, i: nat :| Lossy(o, m, all, b) && i <= o.maxWitnessSignatures && Signatures(Combined(o, all, b)) >= i
                       && !Overtaken(o, m, b, i);
      var t := LossShows(o, m, all, b, i);
    }
  }

  /** Two updates can do what one can, in every case exactly when every body whose signatures
      get lost is overtaken in every slot it could have had. */
  lemma WhenSplittingLosesNothing(o: Opts, notes: seq<Note>, slots: seq<Option<Note>>, later: seq<Note>)
    requires TwoUpdates(o, notes, slots, later)
    ensures AllNotes(Second(slots, later)) && AllNotes(notes + later)
    ensures LosesNothing(o, Second(slots, later), notes + later)
       <==> LossesDoNotMatter(o, Second(slots, later), notes + later)
  {
    SecondIsCovered(o, notes, slots, later);
    WhenNothingIsLost(o, Second(slots, later), notes + later);
  }

  lemma {:induction false} PresentConcat(a: seq<Option<Note>>, b: seq<Option<Note>>)
    ensures Present(a + b) == Present(a) + Present(b)
    decreases |a|
  {
    if a == [] {
      assert a + b == b;
    } else {
      assert (a + b)[1..] == a[1..] + b;
      PresentConcat(a[1..], b);
    }
  }

  lemma InputsConcat(o: Opts, state: seq<Option<Note>>, first: seq<Option<Note>>, second: seq<Option<Note>>)
    ensures Inputs(o, state, first + second) == Inputs(o, state, first) + Present(second)
  {
    PresentConcat(first, second);
    Associates(Present(Kept(o, state)), Present(first), Present(second));
  }

  lemma Associates(a: seq<Note>, b: seq<Note>, c: seq<Note>)
    ensures a + (b + c) == a + b + c
  {
  }

  predicate AllAcceptable(o: Opts, notes: seq<Note>) { forall n :: n in notes ==> Acceptable(o, n) }

  lemma AcceptableConcat(o: Opts, a: seq<Note>, b: seq<Note>)
    ensures AllAcceptable(o, a + b) <==> AllAcceptable(o, a) && AllAcceptable(o, b)
  {
    var c := a + b;
    assert forall n :: n in c <==> n in a || n in b;
  }

  lemma ServedAreAcceptable(o: Opts, notes: seq<Note>, slots: seq<Option<Note>>)
    requires o.Valid() && AllNotes(notes) && AllAcceptable(o, notes) && SlotTable(o, notes, slots)
    ensures AllAcceptable(o, Present(slots))
  {
    TablesAreEarned(o, notes, slots);
  }

  /** After one update has succeeded, a second one takes its slots and the notes that come then,
      and it fails exactly if one update with all notes does. */
  lemma SplitInputs(o: Opts, state: seq<Option<Note>>, first: seq<Option<Note>>, second: seq<Option<Note>>,
                    slots: seq<Option<Note>>)
    requires o.Valid() && UpdateStep(o, state, first, slots)
    ensures Inputs(o, slots, second) == Second(slots, Present(second))
    ensures Inputs(o, state, first + second) == Inputs(o, state, first) + Present(second)
    ensures AllAcceptable(o, Inputs(o, slots, second)) <==> AllAcceptable(o, Inputs(o, state, first + second))
  {
    var notes := Inputs(o, state, first);
    SecondIsAnUpdate(o, slots, second);
    InputsConcat(o, state, first, second);
    ServedAreAcceptable(o, notes, slots);
    AcceptableConcat(o, Present(slots), Present(second));
    AcceptableConcat(o, notes, Present(second));
  }

  /** When the inputs are good, an update may yield exactly the slot tables. */
  lemma UpdatesAreTables(o: Opts, state: seq<Option<Note>>, incoming: seq<Option<Note>>)
    requires AllNotes(Inputs(o, state, incoming)) && AllAcceptable(o, Inputs(o, state, incoming))
    ensures forall t :: UpdateStep(o, state, incoming, t) <==> SlotTable(o, Inputs(o, state, incoming), t)
  {
  }

  /** So for two calls of the update: whatever they yield one call with all notes could have
      yielded, exactly when the losses do not matter. */
  lemma WhenTwoUpdatesAreOne(o: Opts, state: seq<Option<Note>>, first: seq<Option<Note>>, second: seq<Option<Note>>,
                             slots: seq<Option<Note>>)
    requires o.Valid() && UpdateStep(o, state, first, slots)
    requires AllAcceptable(o, Inputs(o, state, first + second))
    ensures AllNotes(Inputs(o, slots, second)) && AllNotes(Inputs(o, state, first + second))
    ensures (forall t :: UpdateStep(o, slots, second, t) ==> UpdateStep(o, state, first + second, t))
       <==> LossesDoNotMatter(o, Inputs(o, slots, second), Inputs(o, state, first + second))
  {
    var notes, later := Inputs(o, state, first), Present(second);
    SplitInputs(o, state, first, second, slots);
    AcceptableConcat(o, notes, later);
    WhenSplittingLosesNothing(o, notes, slots, later);
    UpdatesAreTables(o, slots, second);
    UpdatesAreTables(o, state, first + second);
  }

  /** In particular nothing is lost if no later note has the body of an earlier checkpoint that
      no slot serves. */
  lemma FreshBodiesLoseNothing(o: Opts, notes: seq<Note>, slots: seq<Option<Note>>, later: seq<Note>)
    requires TwoUpdates(o, notes, slots, later)
    requires forall n :: n in later && HasBody(notes, BodyOf(n)) ==> Some(Combined(o, notes, BodyOf(n))) in slots
    ensures AllNotes(Second(slots, later)) && AllNotes(notes + later)
    ensures LosesNothing(o, Second(slots, later), notes + later)
  {
    WhenSplittingLosesNothing(o, notes, slots, later);
    var m, all := Second(slots, later), notes + later;
    forall b, i: nat | Lossy(o, m, all, b) && i <= o.maxWitnessSignatures && Signatures(Combined(o, all, b)) >= i
      ensures Overtaken(o, m, b, i)
    {
      if HasBody(m, b) {
        KnownAreWhole(o, notes, slots, later, b);
        assert false;
      } else {
        var w := AbsentIsNotMissed(o, notes, slots, later, b, i);
      }
    }
  }

  lemma KnownAreWhole(o: Opts, notes: seq<Note>, slots: seq<Option<Note>>, later: seq<Note>, b: Body)
    requires TwoUpdates(o, notes, slots, later) && AllNotes(Second(slots, later)) && AllNotes(notes + later)
    requires forall n :: n in later && HasBody(notes, BodyOf(n)) ==> Some(Combined(o, notes, BodyOf(n))) in slots
    requires HasBody(Second(slots, later), b)
    ensures Combined(o, Second(slots, later), b) == Combined(o, notes + later, b)
  {
    var m, all := Second(slots, later), notes + later;
    SecondKnowsLess(o, notes, slots, later, b);
    forall k | k in SignersOf(o, all, b) ensures k in SignersOf(o, m, b) {
      var n :| n in all && BodyOf(n) == b && k in n.signers;
      if n in later {
        assert n in m;
      } else {
        var s := Combined(o, notes, b);
        assert HasBody(notes, b) && k in s.signers;
        assert Some(s) in slots by {
          var x :| x in m && BodyOf(x) == b;
          if x !in later { SlotIsCandidate(o, notes, slots, x); }
        }
        assert s in m && BodyOf(s) == b;
      }
    }
    assert SignersOf(o, m, b) == SignersOf(o, all, b);
  }

  // ----- an example of a loss -----

  /** Signatures on a checkpoint that no slot serves are lost: a signature that comes in a
      later update does not meet them. */
  lemma SplitUpdatesCanLose(o: Opts, a: Note, a': Note, b: Note, w: Key, w': Key)
    requires o.Valid() && w != w' && {w, w'} <= o.witnesses && o.maxWitnessSignatures == 2
    requires a.Note? && b.Note? && a.signers == {o.logKey, w} && a' == a.(signers := {o.logKey, w'})
    requires b.signers == {o.logKey, w} && a.cp.size < b.cp.size
    ensures SlotTable(o, [a, b], [Some(b), Some(b), None])
    ensures SlotTable(o, [b, b, a'], [Some(b), Some(b), None])
    ensures forall slots: seq<Option<Note>> :: SlotTable(o, [a, b, a'], slots) ==> slots[2].Some?
  {
    assert a in [a, b] && b in [a, b] && b in [b, b, a'] && a' in [b, b, a'];
    LargerServes(o, [a, b], a, b, w, w);
    LargerServes(o, [b, b, a'], a', b, w', w);
    forall slots: seq<Option<Note>> | SlotTable(o, [a, b, a'], slots)
      ensures slots[2].Some?
    {
      SignaturesMeet(o, [a, b, a'], a, a', slots, w, w');
    }
  }

  lemma CandidatesOfTwo(o: Opts, notes: seq<Note>, a: Note, b: Note)
    requires a.Note? && b.Note? && a in notes && b in notes
    requires forall n :: n in notes ==> n.Note? && (BodyOf(n) == BodyOf(a) || BodyOf(n) == BodyOf(b))
    ensures Candidates(o, notes) == {Combined(o, notes, BodyOf(a)), Combined(o, notes, BodyOf(b))}
  {
  }

  lemma LargerServes(o: Opts, notes: seq<Note>, a: Note, b: Note, w: Key, w': Key)
    requires o.Valid() && {w, w'} <= o.witnesses && o.maxWitnessSignatures == 2
    requires a.Note? && b.Note? && a.signers == {o.logKey, w} && b.signers == {o.logKey, w'}
    requires a in notes && b in notes && a.cp.size < b.cp.size && forall n :: n in notes ==> n == a || n == b
    ensures SlotTable(o, notes, [Some(b), Some(b), None])
  {
    CandidatesOfTwo(o, notes, a, b);
    Alone(o, notes, a);
    Alone(o, notes, b);
    assert |a.signers| == |b.signers| == 2;
    LargerIsBest(Candidates(o, notes), a, b);
  }

  lemma LargerIsBest(c: set<Note>, a: Note, b: Note)
    requires a.Note? && b.Note? && c == {a, b} && a.cp.size < b.cp.size && |a.signers| == |b.signers| == 2
    ensures forall i :: 0 <= i < 3 ==> BestFor(c, i, [Some(b), Some(b), None][i])
  {
    assert BestFor(c, 0, Some(b)) && BestFor(c, 1, Some(b)) && BestFor(c, 2, None);
  }

  lemma Alone(o: Opts, notes: seq<Note>, n: Note)
    requires n in notes && n.Note? && o.logKey in n.signers && n.signers <= o.witnesses + {o.logKey} && o.Valid()
    requires forall m :: m in notes ==> m.Note? && (BodyOf(m) == BodyOf(n) ==> m == n)
    ensures Combined(o, notes, BodyOf(n)) == n
  {
    assert SignersOf(o, notes, BodyOf(n)) == n.signers - {o.logKey};
    assert SignersOf(o, notes, BodyOf(n)) + {o.logKey} == n.signers;
  }

  lemma SignaturesMeet(o: Opts, notes: seq<Note>, a: Note, a': Note, slots: seq<Option<Note>>, w: Key, w': Key)
    requires o.Valid() && w != w' && {w, w'} <= o.witnesses && o.maxWitnessSignatures == 2
    requires forall n :: n in notes ==> n.Note?
    requires a in notes && a' in notes && w in a.signers && w' in a'.signers && BodyOf(a) == BodyOf(a')
    requires SlotTable(o, notes, slots)
    ensures slots[2].Some?
  {
    var c := Combined(o, notes, BodyOf(a));
    Consensus.SubsetSize({w, w', o.logKey}, c.signers);
    assert c in Candidates(o, notes) && Signatures(c) >= 2;
    assert BestFor(Candidates(o, notes), 2, slots[2]);
  }
}
