/** Compact ranges (https://arxiv.org/pdf/2011.04551.pdf): the hashes of the maximal
    perfect nodes covering an interval of leaves, and how two adjacent ranges merge.

    The definitions work on hashes alone, as they must when the hashes come from an
    untrusted party; the lemmas relate them to the tree when the hashes are honest. */
module CompactRange {
  import opened Merkle

  datatype Option<+T> = None | Some(value: T)

  /** The number of maximal perfect nodes covering [begin, end): at most one node at each
      border of a row, the others further up. */
  function Count(begin: nat, end: nat): nat
    requires begin <= end
    decreases end
  {
    if begin == end then 0 else begin % 2 + Count((begin + 1) / 2, end / 2) + end % 2
  }

  /** Those nodes, left to right, for positions of the row at `level`. */
  function RowNodes(level: nat, begin: nat, end: nat): (ids: seq<NodeId>)
    requires begin <= end
    ensures |ids| == Count(begin, end)
    decreases end
  {
    if begin == end then [] else
      (if begin % 2 == 1 then [NodeId(level, begin)] else [])
      + RowNodes(level + 1, (begin + 1) / 2, end / 2)
      + (if end % 2 == 1 then [NodeId(level, end - 1)] else [])
  }

  function RangeNodes(begin: nat, end: nat): seq<NodeId>
    requires begin <= end
  {
    RowNodes(0, begin, end)
  }

  /** The hashes of a compact range, row by row: the node at the left border of the row, the
      range of the next row up, and the node at the right border. */
  datatype Spine = Tip | Row(low: Option<Digest>, up: Spine, high: Option<Digest>)

  /** The spine has exactly the nodes that cover [begin, end). */
  predicate Fits(s: Spine, begin: nat, end: nat)
    requires begin <= end
    decreases end
  {
    if begin == end then s.Tip?
    else s.Row? && s.low.Some? == (begin % 2 == 1) && s.high.Some? == (end % 2 == 1)
         && Fits(s.up, (begin + 1) / 2, end / 2)
  }

  function OptSeq<T>(o: Option<T>): seq<T> { if o.Some? then [o.value] else [] }

  function SeqOpt<T>(s: seq<T>): (o: Option<T>)
    requires |s| <= 1
    ensures OptSeq(o) == s && (o.Some? <==> |s| == 1)
  {
    if |s| == 1 then Some(s[0]) else None
  }

  /** The hashes from left to right. */
  function ToSeq(s: Spine): seq<Digest> {
    if s.Tip? then [] else OptSeq(s.low) + ToSeq(s.up) + OptSeq(s.high)
  }

  /** Arrange a sequence of the right length along the rows. */
  function FromSeq(begin: nat, end: nat, hashes: seq<Digest>): (s: Spine)
    requires begin <= end && |hashes| == Count(begin, end)
    ensures Fits(s, begin, end)
    decreases end
  {
    if begin == end then Tip else
      var lo, hi := begin % 2, |hashes| - end % 2;
      Row(SeqOpt(hashes[..lo]), FromSeq((begin + 1) / 2, end / 2, hashes[lo..hi]), SeqOpt(hashes[hi..]))
  }

  lemma CountRow(begin: nat, end: nat)
    requires begin < end
    ensures (begin + 1) / 2 <= end / 2 < end
    ensures Count(begin, end) == begin % 2 + Count((begin + 1) / 2, end / 2) + end % 2
  {
  }

  /** A row is arranged from its two ends and what is between them. */
  lemma RowFromSeq(begin: nat, end: nat, low: Option<Digest>, high: Option<Digest>, u: seq<Digest>, b: nat, e: nat)
    requires begin < end && low.Some? == (begin % 2 == 1) && high.Some? == (end % 2 == 1)
    requires b == (begin + 1) / 2 && e == end / 2 && b <= e && |u| == Count(b, e)
    ensures var w := OptSeq(low) + u + OptSeq(high);
            |w| == Count(begin, end) && FromSeq(begin, end, w) == Row(low, FromSeq(b, e, u), high)
  {
    var w, lo := OptSeq(low) + u + OptSeq(high), |OptSeq(low)|;
    assert w[..lo] == OptSeq(low) && w[lo..lo + |u|] == u && w[lo + |u|..] == OptSeq(high);
  }

  lemma {:induction false} ToSeqFromSeq(begin: nat, end: nat, hashes: seq<Digest>)
    requires begin <= end && |hashes| == Count(begin, end)
    ensures ToSeq(FromSeq(begin, end, hashes)) == hashes
    decreases end
  {
    if begin < end {
      var lo, b, e := begin % 2, (begin + 1) / 2, end / 2;
      CountRow(begin, end);
      var hi := |hashes| - end % 2;
      var low, u, high := SeqOpt(hashes[..lo]), hashes[lo..hi], SeqOpt(hashes[hi..]);
      assert hashes == OptSeq(low) + u + OptSeq(high);
      ToSeqFromSeq(b, e, u);
      RowFromSeq(begin, end, low, high, u, b, e);
    }
  }

  lemma {:induction false} FromSeqToSeq(begin: nat, end: nat, s: Spine)
    requires begin <= end && Fits(s, begin, end)
    ensures |ToSeq(s)| == Count(begin, end)
    ensures FromSeq(begin, end, ToSeq(s)) == s
    decreases end
  {
    if begin < end {
      var b, e := (begin + 1) / 2, end / 2;
      CountRow(begin, end);
      FromSeqToSeq(b, e, s.up);
      RowFromSeq(begin, end, s.low, s.high, ToSeq(s.up), b, e);
    }
  }

  /** The honest compact range of an interval of a row. */
  function SpineOf(row: seq<Digest>, begin: nat, end: nat): (s: Spine)
    requires begin <= end <= |row|
    ensures Fits(s, begin, end)
    decreases end
  {
    if begin == end then Tip else
      Row(if begin % 2 == 1 then Some(row[begin]) else None,
          SpineOf(Lift(row), (begin + 1) / 2, end / 2),
          if end % 2 == 1 then Some(row[end - 1]) else None)
  }

  /** A new inner node reported while ranges merge. */
  datatype Visit = Visit(id: NodeId, digest: Digest)

  datatype Merged = Merged(spine: Spine, visits: seq<Visit>)

  /** Merge `left`, covering [begin, mid) of the row at `level`, with `right`, covering
      [mid, end).  When mid is odd its two neighbours become one node further up, which is
      merged with what follows it and then with what precedes it. */
  function Merge(level: nat, begin: nat, mid: nat, end: nat, left: Spine, right: Spine): (r: Merged)
    requires begin <= mid <= end
    requires Fits(left, begin, mid) && Fits(right, mid, end)
    ensures Fits(r.spine, begin, end)
    decreases end
  {
    if begin == mid then Merged(right, [])
    else if mid == end then Merged(left, [])
    else if mid % 2 == 0 then
      var r := Merge(level + 1, (begin + 1) / 2, mid / 2, end / 2, left.up, right.up);
      Merged(Row(left.low, r.spine, right.high), r.visits)
    else
      var m, parent := mid / 2, NodeDigest(left.high.value, right.low.value);
      var r1 := Merge(level + 1, m, m + 1, end / 2, Single(m, parent), right.up);
      var r2 := Merge(level + 1, (begin + 1) / 2, m, end / 2, left.up, r1.spine);
      Merged(Row(left.low, r2.spine, right.high),
             [Visit(NodeId(level + 1, m), parent)] + r1.visits + r2.visits)
  }

  /** The range of one node of a row. */
  function Single(index: nat, digest: Digest): (s: Spine)
    ensures Fits(s, index, index + 1)
  {
    if index % 2 == 1 then Row(Some(digest), Tip, None) else Row(None, Tip, Some(digest))
  }

  /** Two adjacent intervals, one row up; `u` is where the right one begins there. */
  lemma Halves(begin: nat, mid: nat, end: nat, b: nat, m: nat, u: nat, e: nat)
    requires begin < mid < end && b == (begin + 1) / 2 && m == mid / 2 && u == (mid + 1) / 2 && e == end / 2
    ensures b <= m <= u <= e < end && u == m + mid % 2 && mid == 2 * m + mid % 2
  {
  }

  /** Where two adjacent ranges of a row meet: one row up they meet again, or leave a gap of
      one node, whose children are the last node of the left and the first of the right. */
  lemma Seam(row: seq<Digest>, begin: nat, mid: nat, end: nat, b: nat, m: nat, u: nat, e: nat)
    requires begin < mid < end <= |row| && b == (begin + 1) / 2 && m == mid / 2 && u == (mid + 1) / 2 && e == end / 2
    ensures b <= m <= u <= e <= |Lift(row)| && e < end && u == m + mid % 2
    ensures var left, right, up := SpineOf(row, begin, mid), SpineOf(row, mid, end), Lift(row);
            left.Row? && right.Row? && left.up == SpineOf(up, b, m) && right.up == SpineOf(up, u, e)
            && (mid % 2 == 1 ==> left.high.Some? && right.low.Some?
                                 && NodeDigest(left.high.value, right.low.value) == up[m])
  {
    Halves(begin, mid, end, b, m, u, e);
  }

  /** Merging two adjacent ranges of a tree gives the range of their union. */
  lemma {:induction false} MergeHonest(level: nat, row: seq<Digest>, begin: nat, mid: nat, end: nat)
    requires begin <= mid <= end <= |row|
    ensures Merge(level, begin, mid, end, SpineOf(row, begin, mid), SpineOf(row, mid, end)).spine
         == SpineOf(row, begin, end)
    decreases end
  {
    if begin < mid < end {
      var up, b, m, u, e := Lift(row), (begin + 1) / 2, mid / 2, (mid + 1) / 2, end / 2;
      Halves(begin, mid, end, b, m, u, e);
      MergeHonest(level + 1, up, b, m, e);
      if mid % 2 == 0 {
        EvenMergeHonest(level, row, begin, mid, end, b, m, e, up);
      } else {
        MergeHonest(level + 1, up, m, u, e);
        OddMergeHonest(level, row, begin, mid, end, b, m, u, e, up);
      }
    }
  }

  lemma EvenMergeHonest(level: nat, row: seq<Digest>, begin: nat, mid: nat, end: nat, b: nat, m: nat, e: nat,
                        up: seq<Digest>)
    requires begin < mid < end <= |row| && mid % 2 == 0 && b == (begin + 1) / 2 && m == mid / 2 && e == end / 2
    requires up == Lift(row) && b <= m <= e <= |up|
    requires Merge(level + 1, b, m, e, SpineOf(up, b, m), SpineOf(up, m, e)).spine == SpineOf(up, b, e)
    ensures Merge(level, begin, mid, end, SpineOf(row, begin, mid), SpineOf(row, mid, end)).spine
         == SpineOf(row, begin, end)
  {
    assert m == (mid + 1) / 2;
    Seam(row, begin, mid, end, b, m, m, e);
    EvenMerge(level, begin, mid, end, SpineOf(row, begin, mid), SpineOf(row, mid, end), b, m, e,
              SpineOf(up, b, m), SpineOf(up, m, e), SpineOf(up, b, e));
    SpineRow(row, begin, mid, end, b, e);
  }

  lemma OddMergeHonest(level: nat, row: seq<Digest>, begin: nat, mid: nat, end: nat,
                       b: nat, m: nat, u: nat, e: nat, up: seq<Digest>)
    requires begin < mid < end <= |row| && mid % 2 == 1
    requires b == (begin + 1) / 2 && m == mid / 2 && u == (mid + 1) / 2 && e == end / 2
    requires up == Lift(row) && b <= m < u <= e <= |up| && u == m + 1
    requires Merge(level + 1, b, m, e, SpineOf(up, b, m), SpineOf(up, m, e)).spine == SpineOf(up, b, e)
    requires Merge(level + 1, m, u, e, SpineOf(up, m, u), SpineOf(up, u, e)).spine == SpineOf(up, m, e)
    ensures Merge(level, begin, mid, end, SpineOf(row, begin, mid), SpineOf(row, mid, end)).spine
         == SpineOf(row, begin, end)
  {
    Seam(row, begin, mid, end, b, m, u, e);
    SingleHonest(up, m);
    OddMerge(level, begin, mid, end, SpineOf(row, begin, mid), SpineOf(row, mid, end), b, m, u, e, SpineOf(up, b, m),
             SpineOf(up, u, e), up[m], SpineOf(up, m, u), SpineOf(up, m, e), SpineOf(up, b, e));
    SpineRow(row, begin, mid, end, b, e);
  }

  /** Merging across an even seam, and across an odd one, in terms of the rows above. */
  lemma EvenMerge(level: nat, begin: nat, mid: nat, end: nat, left: Spine, right: Spine, b: nat, m: nat, e: nat,
                  lup: Spine, rup: Spine, t: Spine)
    requires begin < mid < end && mid % 2 == 0 && b == (begin + 1) / 2 && m == mid / 2 && e == end / 2 && b <= m <= e
    requires Fits(left, begin, mid) && Fits(right, mid, end) && Fits(lup, b, m) && Fits(rup, m, e)
    requires left.up == lup && right.up == rup && Merge(level + 1, b, m, e, lup, rup).spine == t
    ensures Merge(level, begin, mid, end, left, right).spine == Row(left.low, t, right.high)
    ensures Merge(level, begin, mid, end, left, right).visits == Merge(level + 1, b, m, e, lup, rup).visits
  {
  }

  lemma OddMerge(level: nat, begin: nat, mid: nat, end: nat, left: Spine, right: Spine, b: nat, m: nat, u: nat, e: nat,
                 lup: Spine, rup: Spine, p: Digest, single: Spine, r: Spine, t: Spine)
    requires begin < mid < end && mid % 2 == 1 && b <= m < u <= e && u == m + 1
    requires b == (begin + 1) / 2 && m == mid / 2 && u == (mid + 1) / 2 && e == end / 2
    requires Fits(left, begin, mid) && Fits(right, mid, end) && Fits(lup, b, m) && Fits(rup, u, e) && Fits(r, m, e)
    requires left.up == lup && right.up == rup && left.high.Some? && right.low.Some?
    requires NodeDigest(left.high.value, right.low.value) == p && single == Single(m, p)
    requires Merge(level + 1, m, u, e, single, rup).spine == r && Merge(level + 1, b, m, e, lup, r).spine == t
    ensures Merge(level, begin, mid, end, left, right).spine == Row(left.low, t, right.high)
    ensures Merge(level, begin, mid, end, left, right).visits
         == [Visit(NodeId(level + 1, m), p)] + Merge(level + 1, m, u, e, single, rup).visits
            + Merge(level + 1, b, m, e, lup, r).visits
  {
  }

  lemma SpineRow(row: seq<Digest>, begin: nat, mid: nat, end: nat, b: nat, e: nat)
    requires begin < mid < end <= |row| && b == (begin + 1) / 2 && e == end / 2 && b <= e <= |Lift(row)|
    ensures SpineOf(row, begin, end)
         == Row(SpineOf(row, begin, mid).low, SpineOf(Lift(row), b, e), SpineOf(row, mid, end).high)
  {
  }

  lemma SingleHonest(row: seq<Digest>, index: nat)
    requires index < |row|
    ensures SpineOf(row, index, index + 1) == Single(index, row[index])
  {
  }

  /** Two different pairs of ranges never merge into the same range. */
  lemma {:induction false} MergeInjective(level: nat, begin: nat, mid: nat, end: nat,
                                          left: Spine, right: Spine, left': Spine, right': Spine)
    requires begin <= mid <= end
    requires Fits(left, begin, mid) && Fits(right, mid, end)
    requires Fits(left', begin, mid) && Fits(right', mid, end)
    requires Merge(level, begin, mid, end, left, right).spine == Merge(level, begin, mid, end, left', right').spine
    ensures left == left' && right == right'
    decreases end
  {
    if begin < mid < end {
      var b, m, u, e := (begin + 1) / 2, mid / 2, (mid + 1) / 2, end / 2;
      Halves(begin, mid, end, b, m, u, e);
      if mid % 2 == 0 {
        MergeInjective(level + 1, b, m, e, left.up, right.up, left'.up, right'.up);
      } else {
        var p := NodeDigest(left.high.value, right.low.value);
        var p' := NodeDigest(left'.high.value, right'.low.value);
        var r := Merge(level + 1, m, u, e, Single(m, p), right.up).spine;
        var r' := Merge(level + 1, m, u, e, Single(m, p'), right'.up).spine;
        MergeInjective(level + 1, b, m, e, left.up, r, left'.up, r');
        MergeInjective(level + 1, m, u, e, Single(m, p), right.up, Single(m, p'), right'.up);
      }
    }
  }

  lemma {:induction false} SpineOfPrefix(row: seq<Digest>, n: nat, begin: nat, end: nat)
    requires begin <= end <= n <= |row|
    ensures SpineOf(row[..n], begin, end) == SpineOf(row, begin, end)
    decreases end
  {
    if begin < end {
      assert Lift(row[..n]) == Lift(row)[..n / 2];
      SpineOfPrefix(Lift(row), n / 2, (begin + 1) / 2, end / 2);
    }
  }

  // ----- the root of a range that starts at zero -----

  datatype RootFold = RootFold(root: Option<Digest>, visits: seq<Visit>)

  /** Fold the right border upwards; `acc` stands for everything below this row.  Every
      imperfect node on the way is reported. */
  function RootFrom(level: nat, end: nat, s: Spine, acc: Option<Digest>): RootFold
    decreases s
  {
    if s.Tip? then RootFold(acc, [])
    else if s.high.None? then RootFrom(level + 1, end / 2, s.up, acc)
    else if acc.None? then RootFrom(level + 1, end / 2, s.up, s.high)
    else
      var parent := NodeDigest(s.high.value, acc.value);
      var r := RootFrom(level + 1, end / 2, s.up, Some(parent));
      RootFold(r.root, [Visit(NodeId(level + 1, end / 2), parent)] + r.visits)
  }

  lemma {:induction false} RootOverPrefix(level: nat, row: seq<Digest>, n: nat, x: Digest)
    requires n <= |row|
    ensures RootFrom(level, n, SpineOf(row, 0, n), Some(x)).root == Some(Root(row[..n] + [x]))
    decreases n
  {
    if n > 0 {
      CarryWith(row, n, x);
      RootOverPrefix(level + 1, Lift(row), n / 2, if n % 2 == 0 then x else NodeDigest(row[n - 1], x));
    }
  }

  lemma {:induction false} RootOverRow(level: nat, row: seq<Digest>, n: nat)
    requires 0 < n <= |row|
    ensures RootFrom(level, n, SpineOf(row, 0, n), None).root == Some(Root(row[..n]))
    decreases n
  {
    RootOfCarry(row[..n]);
    CarryFirst(row, n);
    if n % 2 == 0 {
      RootOverRow(level + 1, Lift(row), n / 2);
    } else {
      RootOverPrefix(level + 1, Lift(row), n / 2, row[n - 1]);
    }
  }

  /** The root of the honest range is the root of the tree. */
  lemma RootHonest(level: nat, row: seq<Digest>, n: nat)
    requires 0 < n <= |row|
    ensures RootFrom(level, n, SpineOf(row, 0, n), None).root == Some(TreeHash(row[..n]))
  {
    RootOverRow(level, row, n);
    RootIsTreeHash(row[..n]);
  }

  /** Two ranges of the same size with the same root are equal, whatever their hashes. */
  lemma {:induction false} RootInjective(level: nat, n: nat, s: Spine, acc: Option<Digest>, s': Spine,
                                         acc': Option<Digest>)
    requires Fits(s, 0, n) && Fits(s', 0, n) && acc.Some? == acc'.Some?
    requires RootFrom(level, n, s, acc).root == RootFrom(level, n, s', acc').root
    ensures s == s' && acc == acc'
    decreases n
  {
    if n > 0 {
      if n % 2 == 0 {
        RootInjective(level + 1, n / 2, s.up, acc, s'.up, acc');
      } else if acc.None? {
        RootInjective(level + 1, n / 2, s.up, s.high, s'.up, s'.high);
      } else {
        RootInjective(level + 1, n / 2, s.up, Some(NodeDigest(s.high.value, acc.value)),
                      s'.up, Some(NodeDigest(s'.high.value, acc'.value)));
      }
    }
  }

  // ----- which nodes a merge reports -----

  predicate Reports(visits: seq<Visit>, id: NodeId) {
    exists v :: v in visits && v.id == id
  }

  /** The node lies in [begin, end) with leaves on both sides of mid. */
  predicate Straddles(level: nat, index: nat, begin: nat, mid: nat, end: nat) {
    Inside(level, index, begin, end) && !Inside(level, index, begin, mid) && !Inside(level, index, mid, end)
  }

  lemma StraddlesOdd(level: nat, index: nat, b: nat, k: nat, e: nat)
    requires b <= k < e
    ensures (level == 0 && index == k) || Straddles(level, index, k, k + 1, e) || Straddles(level, index, b, k, e)
       <==> Inside(level, index, b, e) && !Inside(level, index, b, k) && !Inside(level, index, k + 1, e)
  {
    InsideOneLeaf(level, index, k);
    if Inside(level, index, k, e) { InsideMonotone(level, index, k, e, b, e); }
    if Inside(level, index, k + 1, e) { InsideMonotone(level, index, k + 1, e, k, e); }
    if Inside(level, index, b, k) { InsideDisjoint(level, index, b, k, e); }
  }

  /** One row up: what straddles an odd seam is the node in the gap, or straddles one of the
      seams on its two sides. */
  lemma StraddlesUp(k: nat, index: nat, begin: nat, mid: nat, end: nat, b: nat, m: nat, u: nat, e: nat)
    requires begin < mid < end && mid % 2 == 1 && b <= m < u <= e && u == m + 1
    requires b == (begin + 1) / 2 && m == mid / 2 && u == (mid + 1) / 2 && e == end / 2
    ensures Straddles(k + 1, index, begin, mid, end)
       <==> (k == 0 && index == m) || Straddles(k, index, m, u, e) || Straddles(k, index, b, m, e)
  {
    StraddlesOdd(k, index, b, m, e);
  }

  /** A merge reports exactly the perfect nodes it completes. */
  lemma {:induction false} MergeReports(level: nat, begin: nat, mid: nat, end: nat, left: Spine, right: Spine,
                                        id: NodeId)
    requires begin <= mid <= end && Fits(left, begin, mid) && Fits(right, mid, end)
    ensures Reports(Merge(level, begin, mid, end, left, right).visits, id)
       <==> id.level > level && Straddles(id.level - level, id.index, begin, mid, end)
    decreases end
  {
    if begin < mid < end {
      var b, m, u, e := (begin + 1) / 2, mid / 2, (mid + 1) / 2, end / 2;
      Halves(begin, mid, end, b, m, u, e);
      if mid % 2 == 0 {
        MergeReports(level + 1, b, m, e, left.up, right.up, id);
      } else {
        var p := NodeDigest(left.high.value, right.low.value);
        var r1 := Merge(level + 1, m, u, e, Single(m, p), right.up);
        var r2 := Merge(level + 1, b, m, e, left.up, r1.spine);
        MergeReports(level + 1, m, u, e, Single(m, p), right.up, id);
        MergeReports(level + 1, b, m, e, left.up, r1.spine, id);
        OddMergeReports(level, begin, mid, end, left, right, id, b, m, u, e, p, r1, r2);
      }
    }
  }

  lemma OddMergeReports(level: nat, begin: nat, mid: nat, end: nat, left: Spine, right: Spine, id: NodeId,
                        b: nat, m: nat, u: nat, e: nat, p: Digest, r1: Merged, r2: Merged)
    requires begin < mid < end && mid % 2 == 1 && Fits(left, begin, mid) && Fits(right, mid, end)
    requires b == (begin + 1) / 2 && m == mid / 2 && u == (mid + 1) / 2 && e == end / 2 && b <= m < u <= e && u == m + 1
    requires left.high.Some? && right.low.Some? && p == NodeDigest(left.high.value, right.low.value)
    requires Fits(left.up, b, m) && Fits(right.up, u, e) && Fits(r1.spine, m, e)
    requires r1 == Merge(level + 1, m, u, e, Single(m, p), right.up)
    requires r2 == Merge(level + 1, b, m, e, left.up, r1.spine)
    requires Reports(r1.visits, id) <==> id.level > level + 1 && Straddles(id.level - level - 1, id.index, m, u, e)
    requires Reports(r2.visits, id) <==> id.level > level + 1 && Straddles(id.level - level - 1, id.index, b, m, e)
    ensures Reports(Merge(level, begin, mid, end, left, right).visits, id)
       <==> id.level > level && Straddles(id.level - level, id.index, begin, mid, end)
  {
    OddMerge(level, begin, mid, end, left, right, b, m, u, e, left.up, right.up, p, Single(m, p), r1.spine, r2.spine);
    OddReports(level, begin, mid, end, id, b, m, u, e, p, r1.visits, r2.visits);
  }

  lemma OddReports(level: nat, begin: nat, mid: nat, end: nat, id: NodeId, b: nat, m: nat, u: nat, e: nat,
                   p: Digest, v1: seq<Visit>, v2: seq<Visit>)
    requires begin < mid < end && mid % 2 == 1 && b <= m < u <= e && u == m + 1
    requires b == (begin + 1) / 2 && m == mid / 2 && u == (mid + 1) / 2 && e == end / 2
    requires Reports(v1, id) <==> id.level > level + 1 && Straddles(id.level - level - 1, id.index, m, u, e)
    requires Reports(v2, id) <==> id.level > level + 1 && Straddles(id.level - level - 1, id.index, b, m, e)
    ensures Reports([Visit(NodeId(level + 1, m), p)] + v1 + v2, id)
       <==> id.level > level && Straddles(id.level - level, id.index, begin, mid, end)
  {
    ReportsConcat(Visit(NodeId(level + 1, m), p), v1, v2, id);
    if id.level > level { StraddlesUp(id.level - level - 1, id.index, begin, mid, end, b, m, u, e); }
  }

  lemma ReportsConcat(v: Visit, a: seq<Visit>, b: seq<Visit>, id: NodeId)
    ensures Reports([v] + a + b, id) <==> v.id == id || Reports(a, id) || Reports(b, id)
  {
    var w := [v] + a + b;
    assert v in w;
    assert forall x :: x in w <==> x == v || x in a || x in b;
  }

  /** Every reported node carries the hash the tree has there; `row` is the row at `level`. */
  ghost predicate HonestVisits(level: nat, row: seq<Digest>, visits: seq<Visit>) {
    forall v :: v in visits ==> HonestVisit(level, row, v)
  }

  predicate HonestVisit(level: nat, row: seq<Digest>, v: Visit) {
    v.id.level >= level && v.id.index < Shr(|row|, v.id.level - level)
    && v.digest == NodeAt(row, v.id.level - level, v.id.index)
  }

  lemma HonestVisitsDown(level: nat, row: seq<Digest>, visits: seq<Visit>)
    requires HonestVisits(level + 1, Lift(row), visits)
    ensures HonestVisits(level, row, visits)
  {
    forall v | v in visits ensures HonestVisit(level, row, v) {
      assert HonestVisit(level + 1, Lift(row), v);
    }
  }

  lemma {:induction false} MergeVisitsHonest(level: nat, row: seq<Digest>, begin: nat, mid: nat, end: nat)
    requires begin <= mid <= end <= |row|
    ensures HonestVisits(level, row,
                         Merge(level, begin, mid, end, SpineOf(row, begin, mid), SpineOf(row, mid, end)).visits)
    decreases end
  {
    if begin < mid < end {
      var up, b, m, u, e := Lift(row), (begin + 1) / 2, mid / 2, (mid + 1) / 2, end / 2;
      Halves(begin, mid, end, b, m, u, e);
      MergeVisitsHonest(level + 1, up, b, m, e);
      if mid % 2 == 0 {
        EvenVisitsHonest(level, row, begin, mid, end, b, m, e, up);
      } else {
        MergeVisitsHonest(level + 1, up, m, u, e);
        OddVisitsHonest(level, row, begin, mid, end, b, m, u, e, up);
      }
    }
  }

  lemma EvenVisitsHonest(level: nat, row: seq<Digest>, begin: nat, mid: nat, end: nat, b: nat, m: nat, e: nat,
                         up: seq<Digest>)
    requires begin < mid < end <= |row| && mid % 2 == 0 && b == (begin + 1) / 2 && m == mid / 2 && e == end / 2
    requires up == Lift(row) && b <= m <= e <= |up|
    requires HonestVisits(level + 1, up, Merge(level + 1, b, m, e, SpineOf(up, b, m), SpineOf(up, m, e)).visits)
    ensures HonestVisits(level, row,
                         Merge(level, begin, mid, end, SpineOf(row, begin, mid), SpineOf(row, mid, end)).visits)
  {
    assert m == (mid + 1) / 2;
    Seam(row, begin, mid, end, b, m, m, e);
    MergeHonest(level + 1, up, b, m, e);
    EvenMerge(level, begin, mid, end, SpineOf(row, begin, mid), SpineOf(row, mid, end), b, m, e,
              SpineOf(up, b, m), SpineOf(up, m, e), SpineOf(up, b, e));
    HonestVisitsDown(level, row, Merge(level + 1, b, m, e, SpineOf(up, b, m), SpineOf(up, m, e)).visits);
  }

  lemma OddVisitsHonest(level: nat, row: seq<Digest>, begin: nat, mid: nat, end: nat,
                        b: nat, m: nat, u: nat, e: nat, up: seq<Digest>)
    requires begin < mid < end <= |row| && mid % 2 == 1
    requires b == (begin + 1) / 2 && m == mid / 2 && u == (mid + 1) / 2 && e == end / 2
    requires up == Lift(row) && b <= m < u <= e <= |up| && u == m + 1
    requires HonestVisits(level + 1, up, Merge(level + 1, b, m, e, SpineOf(up, b, m), SpineOf(up, m, e)).visits)
    requires HonestVisits(level + 1, up, Merge(level + 1, m, u, e, SpineOf(up, m, u), SpineOf(up, u, e)).visits)
    ensures HonestVisits(level, row,
                         Merge(level, begin, mid, end, SpineOf(row, begin, mid), SpineOf(row, mid, end)).visits)
  {
    Seam(row, begin, mid, end, b, m, u, e);
    SingleHonest(up, m);
    MergeHonest(level + 1, up, b, m, e);
    MergeHonest(level + 1, up, m, u, e);
    OddMerge(level, begin, mid, end, SpineOf(row, begin, mid), SpineOf(row, mid, end), b, m, u, e, SpineOf(up, b, m),
             SpineOf(up, u, e), up[m], SpineOf(up, m, u), SpineOf(up, m, e), SpineOf(up, b, e));
    JoinVisits(level, row, m, Merge(level + 1, m, u, e, SpineOf(up, m, u), SpineOf(up, u, e)).visits,
               Merge(level + 1, b, m, e, SpineOf(up, b, m), SpineOf(up, m, e)).visits);
  }

  lemma JoinVisits(level: nat, row: seq<Digest>, m: nat, v1: seq<Visit>, v2: seq<Visit>)
    requires m < |Lift(row)| && HonestVisits(level + 1, Lift(row), v1) && HonestVisits(level + 1, Lift(row), v2)
    ensures HonestVisits(level, row, [Visit(NodeId(level + 1, m), Lift(row)[m])] + v1 + v2)
  {
    assert HonestVisit(level + 1, Lift(row), Visit(NodeId(level + 1, m), Lift(row)[m]));
    HonestVisitsDown(level, row, [Visit(NodeId(level + 1, m), Lift(row)[m])] + v1 + v2);
  }

  // ----- ranges as the callers see them -----

  /** A range [begin, end) with one hash for each of its maximal perfect nodes. */
  datatype Range = Range(begin: nat, end: nat, spine: Spine)
  {
    predicate Valid() { begin <= end && Fits(spine, begin, end) }

    function Hashes(): seq<Digest> { ToSeq(spine) }
  }

  /** The hashes are taken as given; only their number is checked. */
  function NewRange(begin: nat, end: nat, hashes: seq<Digest>): (r: Option<Range>)
    ensures r.Some? <==> begin <= end && |hashes| == Count(begin, end)
    ensures r.Some? ==> r.value.Valid() && r.value.begin == begin && r.value.end == end
  {
    if begin <= end && |hashes| == Count(begin, end)
    then Some(Range(begin, end, FromSeq(begin, end, hashes))) else None
  }

  function NewEmptyRange(begin: nat): (r: Range)
    ensures r.Valid() && r.begin == r.end == begin
  {
    Range(begin, begin, Tip)
  }

  function AppendRange(r: Range, other: Range): (s: Range)
    requires r.Valid() && other.Valid() && other.begin == r.end
    ensures s.Valid() && s.begin == r.begin && s.end == other.end
  {
    Range(r.begin, other.end, Merge(0, r.begin, r.end, other.end, r.spine, other.spine).spine)
  }

  /** The new inner nodes AppendRange reports, lowest first. */
  function AppendRangeVisits(r: Range, other: Range): seq<Visit>
    requires r.Valid() && other.Valid() && other.begin == r.end
  {
    Merge(0, r.begin, r.end, other.end, r.spine, other.spine).visits
  }

  function Leaf(index: nat, digest: Digest): (r: Range)
    ensures r.Valid() && r.begin == index && r.end == index + 1
  {
    Range(index, index + 1, Single(index, digest))
  }

  function Append(r: Range, digest: Digest): (s: Range)
    requires r.Valid()
    ensures s.Valid() && s.begin == r.begin && s.end == r.end + 1
  {
    AppendRange(r, Leaf(r.end, digest))
  }

  /** The leaf itself is reported first. */
  function AppendVisits(r: Range, digest: Digest): seq<Visit>
    requires r.Valid()
  {
    [Visit(NodeId(0, r.end), digest)] + AppendRangeVisits(r, Leaf(r.end, digest))
  }

  /** Append hashes one after the other. */
  function AppendAll(r: Range, hs: seq<Digest>): (s: Range)
    requires r.Valid()
    ensures s.Valid() && s.begin == r.begin && s.end == r.end + |hs|
    decreases |hs|
  {
    if hs == [] then r else Append(AppendAll(r, hs[..|hs| - 1]), hs[|hs| - 1])
  }

  /** The root of a range from zero; the empty range has the nil hash. */
  function GetRootHash(r: Range): Digest
    requires r.begin == 0
  {
    var root := RootFrom(0, r.end, r.spine, None).root;
    if root.Some? then root.value else NIL_DIGEST
  }

  function RootVisits(r: Range): seq<Visit> {
    RootFrom(0, r.end, r.spine, None).visits
  }

  /** The compact range a tree really has. */
  function Honest(row: seq<Digest>, begin: nat, end: nat): (r: Range)
    requires begin <= end <= |row|
    ensures r.Valid() && r.begin == begin && r.end == end
  {
    Range(begin, end, SpineOf(row, begin, end))
  }

  function RangeHashes(row: seq<Digest>, begin: nat, end: nat): seq<Digest>
    requires begin <= end <= |row|
  {
    ToSeq(SpineOf(row, begin, end))
  }

  lemma NewRangeHonest(row: seq<Digest>, begin: nat, end: nat)
    requires begin <= end <= |row|
    ensures |RangeHashes(row, begin, end)| == Count(begin, end)
    ensures NewRange(begin, end, RangeHashes(row, begin, end)) == Some(Honest(row, begin, end))
  {
    FromSeqToSeq(begin, end, SpineOf(row, begin, end));
  }

  lemma AppendHonest(row: seq<Digest>, begin: nat, end: nat)
    requires begin <= end < |row|
    ensures Append(Honest(row, begin, end), row[end]) == Honest(row, begin, end + 1)
  {
    SingleHonest(row, end);
    MergeHonest(0, row, begin, end, end + 1);
  }

  lemma AppendRangeHonest(row: seq<Digest>, begin: nat, mid: nat, end: nat)
    requires begin <= mid <= end <= |row|
    ensures AppendRange(Honest(row, begin, mid), Honest(row, mid, end)) == Honest(row, begin, end)
  {
    MergeHonest(0, row, begin, mid, end);
  }

  lemma GetRootHashHonest(row: seq<Digest>, n: nat)
    requires 0 < n <= |row|
    ensures GetRootHash(Honest(row, 0, n)) == TreeHash(row[..n])
  {
    RootHonest(0, row, n);
  }

  /** The honest range of the first n entries has the root RFC 6962 gives them. */
  lemma HonestRootIsMth(log: seq<Bytes>, n: nat)
    requires 0 < n <= |log|
    ensures GetRootHash(Honest(LeafDigests(log), 0, n)) == Mth(log[..n])
  {
    GetRootHashHonest(LeafDigests(log), n);
    assert LeafDigests(log[..n]) == LeafDigests(log)[..n];
  }

  /** hashes[i] is the hash of the node ids[i]; `row` is the row at `level`. */
  ghost predicate Matches(level: nat, row: seq<Digest>, ids: seq<NodeId>, hashes: seq<Digest>) {
    |ids| == |hashes| && forall i :: 0 <= i < |ids| ==> HonestVisit(level, row, Visit(ids[i], hashes[i]))
  }

  lemma MatchesConcat(level: nat, row: seq<Digest>, ids: seq<NodeId>, hashes: seq<Digest>, ids': seq<NodeId>,
                      hashes': seq<Digest>)
    requires Matches(level, row, ids, hashes) && Matches(level, row, ids', hashes')
    ensures Matches(level, row, ids + ids', hashes + hashes')
  {
  }

  lemma MatchesUnique(level: nat, row: seq<Digest>, ids: seq<NodeId>, hashes: seq<Digest>, hashes': seq<Digest>)
    requires Matches(level, row, ids, hashes) && Matches(level, row, ids, hashes')
    ensures hashes == hashes'
  {
    forall i | 0 <= i < |ids| ensures hashes[i] == hashes'[i] {
      assert HonestVisit(level, row, Visit(ids[i], hashes[i])) && HonestVisit(level, row, Visit(ids[i], hashes'[i]));
    }
  }

  lemma MatchesDown(level: nat, row: seq<Digest>, ids: seq<NodeId>, hashes: seq<Digest>)
    requires Matches(level + 1, Lift(row), ids, hashes)
    ensures Matches(level, row, ids, hashes)
  {
    forall i | 0 <= i < |ids| ensures HonestVisit(level, row, Visit(ids[i], hashes[i])) {
      assert HonestVisit(level + 1, Lift(row), Visit(ids[i], hashes[i]));
    }
  }

  /** The hashes of the honest range are those of its nodes, in order. */
  lemma {:induction false} RangeMatchesNodes(level: nat, row: seq<Digest>, begin: nat, end: nat)
    requires begin <= end <= |row|
    ensures Matches(level, row, RowNodes(level, begin, end), RangeHashes(row, begin, end))
    decreases end
  {
    if begin < end {
      var s, b, e := SpineOf(row, begin, end), (begin + 1) / 2, end / 2;
      var low := if begin % 2 == 1 then [NodeId(level, begin)] else [];
      var high := if end % 2 == 1 then [NodeId(level, end - 1)] else [];
      RangeMatchesNodes(level + 1, Lift(row), b, e);
      MatchesDown(level, row, RowNodes(level + 1, b, e), ToSeq(s.up));
      assert Matches(level, row, low, OptSeq(s.low));
      assert Matches(level, row, high, OptSeq(s.high));
      MatchesConcat(level, row, low, OptSeq(s.low), RowNodes(level + 1, b, e), ToSeq(s.up));
      MatchesConcat(level, row, low + RowNodes(level + 1, b, e), OptSeq(s.low) + ToSeq(s.up), high, OptSeq(s.high));
    }
  }

  lemma {:induction false} AppendMoreHonest(row: seq<Digest>, begin: nat, mid: nat, hs: seq<Digest>)
    requires begin <= mid && mid + |hs| <= |row| && hs == row[mid..mid + |hs|]
    ensures AppendAll(Honest(row, begin, mid), hs) == Honest(row, begin, mid + |hs|)
    decreases |hs|
  {
    if hs != [] {
      var init, e := hs[..|hs| - 1], mid + |hs| - 1;
      AppendMoreHonest(row, begin, mid, init);
      assert hs[|hs| - 1] == row[e];
      AppendHonest(row, begin, e);
    }
  }

  lemma AppendAllHonest(row: seq<Digest>, begin: nat, hs: seq<Digest>)
    requires begin + |hs| <= |row| && hs == row[begin..begin + |hs|]
    ensures AppendAll(NewEmptyRange(begin), hs) == Honest(row, begin, begin + |hs|)
  {
    AppendMoreHonest(row, begin, begin, hs);
  }
}
