/** The scan over the outer loops refuses nothing that associativity alone could justify. */
module ScanExactness {
  import opened Arith
  import opened LoopNest
  import opened ReductionFactoring

  /** An associative operator with identity that keeps its leftmost argument; it does not commute. */
  datatype First = Nothing | Just(point: Point)

  function Leftmost(x: First, y: First): First {
    if x.Nothing? then y else x
  }

  /** Point number `Stride(i)` is the first point with only loop `i` advanced. */
  function Stride(loops: seq<Dim>, i: nat): nat
    requires i < |loops|
  {
    if i == 0 then 1 else Stride(loops[1..], i - 1) * loops[0].extent
  }

  lemma {:induction false} StrideBounds(loops: seq<Dim>, i: nat)
    requires i < |loops|
    requires forall k :: 0 <= k < |loops| ==> loops[k].extent >= 2
    ensures 0 < Stride(loops, i) < Volume(loops)
  {
    var e := loops[0].extent;
    VolumePositive(loops[1..]);
    MulOrder(0, Volume(loops[1..]), e);
    if i > 0 {
      StrideBounds(loops[1..], i - 1);
      MulOrder(0, Stride(loops[1..], i - 1), e);
      MulOrder(Stride(loops[1..], i - 1), Volume(loops[1..]), e);
    }
  }

  lemma {:induction false} StrideOrder(loops: seq<Dim>, i: nat, j: nat)
    requires i < j < |loops|
    requires forall k :: 0 <= k < |loops| ==> loops[k].extent >= 2
    ensures Stride(loops, i) < Stride(loops, j)
  {
    var e := loops[0].extent;
    if i == 0 {
      StrideBounds(loops[1..], j - 1);
      MulOrder(0, Stride(loops[1..], j - 1), e);
    } else {
      StrideOrder(loops[1..], i - 1, j - 1);
      MulOrder(Stride(loops[1..], i - 1), Stride(loops[1..], j - 1), e);
    }
  }

  lemma {:induction false} VolumePositive(loops: seq<Dim>)
    requires forall k :: 0 <= k < |loops| ==> loops[k].extent >= 2
    ensures Volume(loops) > 0
  {
    if loops != [] {
      VolumePositive(loops[1..]);
    }
  }

  lemma {:induction false} KeyOfOrigin(loops: seq<Dim>, keep: seq<bool>)
    requires |keep| == |loops| && 0 < Volume(loops)
    ensures KeyPosition(loops, keep, 0) == 0
  {
    if loops != [] {
      PointsAt(loops, 0);
      KeyOfOrigin(loops[1..], keep[1..]);
    }
  }

  /** Advancing a lifted loop leaves the key at the first one; advancing a preserved loop moves it on. */
  lemma {:induction false} KeyOfStride(loops: seq<Dim>, keep: seq<bool>, i: nat)
    requires |keep| == |loops| && i < |loops|
    requires forall k :: 0 <= k < |loops| ==> loops[k].extent >= 2
    ensures Stride(loops, i) < Volume(loops)
    ensures KeyPosition(loops, keep, Stride(loops, i)) == 0 <==> !keep[i]
  {
    StrideBounds(loops, i);
    PointsAt(loops, Stride(loops, i));
    var e := loops[0].extent;
    if i == 0 {
      VolumePositive(loops[1..]);
      DivModIs(1, e, 0, 1);
      KeyOfOrigin(loops[1..], keep[1..]);
    } else {
      var s := Stride(loops[1..], i - 1);
      KeyOfStride(loops[1..], keep[1..], i - 1);
      DivModIs(s * e, e, s, 0);
      var outer := KeyPosition(loops[1..], keep[1..], s);
      if outer > 0 {
        MulOrder(0, outer, e);
      }
    }
  }

  lemma {:induction false} OriginalIsFirst(u: Update<First>, f: map<Cell, First>, pts: seq<Point>, b: nat)
    requires InBounds(u, pts, f.Keys) && b < |pts| && Enabled(u, pts[b])
    requires forall n :: 0 <= n < b ==> !Enabled(u, pts[n])
    requires u.op == Leftmost && (forall p :: u.index(p) == []) && (forall p :: u.value(p) == Just(p))
    requires [] in f && f[[]] == Nothing
    ensures RunOriginal(u, f, pts)[[]] == Just(pts[b])
  {
    var front := pts[..|pts| - 1];
    if b == |front| {
      NothingEnabled(u, f, front);
    } else {
      OriginalIsFirst(u, f, front, b);
    }
  }

  lemma {:induction false} NothingEnabled(u: Update<First>, f: map<Cell, First>, pts: seq<Point>)
    requires InBounds(u, pts, f.Keys) && forall n :: 0 <= n < |pts| ==> !Enabled(u, pts[n])
    ensures RunOriginal(u, f, pts) == f
  {
    if pts != [] {
      NothingEnabled(u, f, pts[..|pts| - 1]);
    }
  }

  lemma {:induction false} PartialIsFirst(u: Update<First>, keep: seq<bool>, cells: set<Cell>, keys: seq<Point>,
                                          pts: seq<Point>, a: nat)
    requires InBounds(u, pts, cells) && Covers(keep, pts, keys) && [] in cells
    requires a < |pts| && Enabled(u, pts[a])
    requires forall n :: 0 <= n < a && Enabled(u, pts[n]) ==> Project(keep, pts[n]) != Project(keep, pts[a])
    requires u.op == Leftmost && u.identity == Nothing
    requires (forall p :: u.index(p) == []) && (forall p :: u.value(p) == Just(p))
    ensures Project(keep, pts[a]) in keys
    ensures RunIntermediate(u, keep, cells, keys, pts)[([], Project(keep, pts[a]))] == Just(pts[a])
  {
    var front := pts[..|pts| - 1];
    if a == |front| {
      NoPartial(u, keep, cells, keys, front, Project(keep, pts[a]));
    } else {
      PartialIsFirst(u, keep, cells, keys, front, a);
    }
  }

  lemma {:induction false} NoPartial(u: Update<First>, keep: seq<bool>, cells: set<Cell>, keys: seq<Point>,
                                     pts: seq<Point>, k: Point)
    requires InBounds(u, pts, cells) && Covers(keep, pts, keys) && [] in cells && k in keys
    requires forall n :: 0 <= n < |pts| && Enabled(u, pts[n]) ==> Project(keep, pts[n]) != k
    requires u.identity == Nothing
    ensures RunIntermediate(u, keep, cells, keys, pts)[([], k)] == Nothing
  {
    if pts != [] {
      NoPartial(u, keep, cells, keys, pts[..|pts| - 1], k);
    }
  }

  lemma {:induction false} MergeIsFirst(u: Update<First>, keep: seq<bool>, f: map<Cell, First>,
                                        m: map<(Cell, Point), First>, keys: seq<Point>)
    requires HasPartials(f, m, keys) && keys != [] && [] in f && f[[]] == Nothing && u.op == Leftmost
    requires ([], keys[0]) in m && m[([], keys[0])].Just?
    ensures RunMerge(u, keep, [], f, m, keys)[[]] == m[([], keys[0])]
  {
    if |keys| > 1 {
      MergeIsFirst(u, keep, f, m, keys[..|keys| - 1]);
    }
  }

  /** The positions of `n` loops. */
  function AllLoops(n: nat): (r: set<nat>)
    ensures forall i: nat :: i in r <==> i < n
  {
    if n == 0 then {} else AllLoops(n - 1) + {n - 1}
  }

  /** An update that is enabled at the two points `a` and `b` only and records which one it meets first. */
  function Pick(a: Point, b: Point, n: nat): Update<First> {
    Update(_ => [], p => Just(p), [Predicate(p => p == a || p == b, AllLoops(n))], Leftmost, Nothing)
  }

  lemma PickIsWellFormed(a: Point, b: Point, n: nat)
    requires |a| == n && |b| == n
    ensures WellFormed(Pick(a, b, n))
    ensures forall p :: Enabled(Pick(a, b, n), p) <==> p == a || p == b
  {
    var u := Pick(a, b, n);
    var only := u.predicates[0];
    forall p, q | Agree(p, q, only.uses) ensures only.holds(p) == only.holds(q) {
      if |p| == n {
        assert p == q by {
          assert forall i: nat :: i < n ==> i in only.uses;
        }
      }
    }
    assert forall p :: Enabled(u, p) <==> only.holds(p);
  }

  /** The original meets `b`, the earlier of its two points, first. */
  lemma PickOriginal(loops: seq<Dim>, b: nat, a: nat)
    requires b < a < Volume(loops) && |Points(loops)| == Volume(loops)
    requires |Points(loops)[a]| == |loops| && |Points(loops)[b]| == |loops|
    ensures var u := Pick(Points(loops)[a], Points(loops)[b], |loops|);
            RunOriginal(u, map[[] := Nothing], Points(loops))[[]] == Just(Points(loops)[b])
  {
    var pts := Points(loops);
    var u := Pick(pts[a], pts[b], |loops|);
    PickIsWellFormed(pts[a], pts[b], |loops|);
    forall n | 0 <= n < b ensures !Enabled(u, pts[n]) {
      PointsDistinct(loops, n, a);
      PointsDistinct(loops, n, b);
    }
    OriginalIsFirst(u, map[[] := Nothing], pts, b);
  }

  lemma PickPartial(keep: seq<bool>, pts: seq<Point>, keys: seq<Point>, a: nat, b: nat)
    requires Covers(keep, pts, keys) && a < |pts| && b < |pts|
    requires Project(keep, pts[a]) != Project(keep, pts[b])
    requires forall n :: 0 <= n < a ==> pts[n] != pts[a]
    ensures var u := Pick(pts[a], pts[b], |keep|);
            Project(keep, pts[a]) in keys
            && RunIntermediate(u, keep, {[]}, keys, pts)[([], Project(keep, pts[a]))] == Just(pts[a])
  {
    var u := Pick(pts[a], pts[b], |keep|);
    PickIsWellFormed(pts[a], pts[b], |keep|);
    PartialIsFirst(u, keep, {[]}, keys, pts, a);
  }

  /** After the rewrite the point with the earlier key comes first. */
  lemma PickFactored(loops: seq<Dim>, keep: seq<bool>, b: nat, a: nat, lifted: nat)
    requires |keep| == |loops| && b < a < Volume(loops) && |Points(loops)| == Volume(loops)
    requires |Points(loops)[a]| == |loops| && |Points(loops)[b]| == |loops|
    requires lifted < |keep| && !keep[lifted]
    requires KeyPosition(loops, keep, a) == 0 && KeyPosition(loops, keep, b) != 0
    ensures var u := Pick(Points(loops)[a], Points(loops)[b], |loops|);
            && MergePredicates(u.predicates, keep) == []
            && Factored(u, loops, keep, [], map[[] := Nothing])[[]] == Just(Points(loops)[a])
  {
    var pts := Points(loops);
    var kept := Project(keep, loops);
    var keys := Points(kept);
    KeysCover(loops, keep);
    KeyIsAtPosition(loops, keep, a);
    KeyIsAtPosition(loops, keep, b);
    PointsDistinct(kept, 0, KeyPosition(loops, keep, b));
    forall n | 0 <= n < a ensures pts[n] != pts[a] {
      PointsDistinct(loops, n, a);
    }
    PickPartial(keep, pts, keys, a, b);
    var f: map<Cell, First> := map[[] := Nothing];
    assert f.Keys == {[]};
    PickMerge(Pick(pts[a], pts[b], |loops|), loops, keep, f, keys, pts[a]);
  }

  lemma PickMerge(u: Update<First>, loops: seq<Dim>, keep: seq<bool>, f: map<Cell, First>, keys: seq<Point>, p: Point)
    requires |keep| == |loops| && keys == Points(Project(keep, loops)) && keys != [] && f == map[[] := Nothing]
    requires InBounds(u, Points(loops), f.Keys) && Covers(keep, Points(loops), keys) && u.op == Leftmost
    requires keys[0] in keys
    requires RunIntermediate(u, keep, f.Keys, keys, Points(loops))[([], keys[0])] == Just(p)
    ensures Factored(u, loops, keep, [], f)[[]] == Just(p)
  {
    MergeIsFirst(u, keep, f, RunIntermediate(u, keep, f.Keys, keys, Points(loops)), keys);
  }

  /**
   If loop `i` is preserved and the loop `j` outside it is not, some associative operator with a
   two-sided identity gives another result after the rewrite.
   */
  lemma RefusedSetsChangeMeaning(loops: seq<Dim>, keep: seq<bool>, i: nat, j: nat)
    requires |keep| == |loops| && i < j < |loops| && keep[i] && !keep[j]
    requires forall k :: 0 <= k < |loops| ==> loops[k].extent >= 2
    ensures exists u: Update<First>, f: map<Cell, First> ::
      && WellFormed(u) && InBounds(u, Points(loops), f.Keys)
      && Factored(u, loops, keep, MergePredicates(u.predicates, keep), f) != RunOriginal(u, f, Points(loops))
  {
    var b, a := Stride(loops, i), Stride(loops, j);
    StrideOrder(loops, i, j);
    KeyOfStride(loops, keep, i);
    KeyOfStride(loops, keep, j);
    KeyIsAtPosition(loops, keep, a);
    KeyIsAtPosition(loops, keep, b);
    PointsDistinct(loops, b, a);
    var pa, pb := Points(loops)[a], Points(loops)[b];
    PickIsWellFormed(pa, pb, |loops|);
    PickOriginal(loops, b, a);
    PickFactored(loops, keep, b, a, j);
    var u := Pick(pa, pb, |loops|);
    var f: map<Cell, First> := map[[] := Nothing];
    assert WellFormed(u) && InBounds(u, Points(loops), f.Keys);
  }

  /** The scan is exact: it refuses a set of loops just when associativity alone does not justify it. */
  lemma ScanIsExact(loops: seq<Dim>, keep: seq<bool>)
    requires |keep| == |loops|
    requires forall k :: 0 <= k < |loops| ==> loops[k].extent >= 2
    ensures ClosedOutward(keep) <==>
            forall u: Update<First>, f: map<Cell, First> ::
              WellFormed(u) && InBounds(u, Points(loops), f.Keys) ==>
                Factored(u, loops, keep, MergePredicates(u.predicates, keep), f) == RunOriginal(u, f, Points(loops))
  {
    if ClosedOutward(keep) {
      forall u: Update<First>, f: map<Cell, First> | WellFormed(u) && InBounds(u, Points(loops), f.Keys)
        ensures Factored(u, loops, keep, MergePredicates(u.predicates, keep), f) == RunOriginal(u, f, Points(loops))
      {
        RfactorPreservesMeaning(u, loops, keep, f);
      }
    } else {
      var i, j :| 0 <= i < j < |keep| && keep[i] && !keep[j];
      RefusedSetsChangeMeaning(loops, keep, i, j);
    }
  }
}
