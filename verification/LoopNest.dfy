/** The points of a nest of reduction loops in execution order, and what is left of them when some loops are kept. */
module LoopNest {
  import opened Arith

  /** A dim of the update stage; index 0 of a dim list is the innermost loop. */
  datatype Dim = Dim(name: string, isRVar: bool, min: int, extent: nat)

  /** One value per reduction loop, innermost first. */
  type Point = seq<int>

  /** The reduction loops of a dim list, innermost first. */
  function RVarDims(dims: seq<Dim>): seq<Dim> {
    if dims == [] then []
    else (if dims[0].isRVar then [dims[0]] else []) + RVarDims(dims[1..])
  }

  /** The `is_rfactored` flags of the reduction loops. */
  function RVarFlags(dims: seq<Dim>, rfactored: seq<bool>): (keep: seq<bool>)
    requires |dims| == |rfactored|
    ensures |keep| == |RVarDims(dims)|
  {
    if dims == [] then []
    else (if dims[0].isRVar then [rfactored[0]] else []) + RVarFlags(dims[1..], rfactored[1..])
  }

  /** The `n` consecutive values of the innermost loop in front of one outer point. */
  function Row(min: int, n: nat, outer: Point): (row: seq<Point>)
    ensures |row| == n
    ensures forall i :: 0 <= i < n ==> row[i] == [min + i] + outer
  {
    if n == 0 then [] else Row(min, n - 1, outer) + [[min + n - 1] + outer]
  }

  function Rows(d: Dim, outer: seq<Point>): seq<Point> {
    if outer == [] then []
    else Rows(d, outer[..|outer| - 1]) + Row(d.min, d.extent, outer[|outer| - 1])
  }

  /** The points of a loop nest in execution order: the outermost loop is the slowest. */
  function Points(loops: seq<Dim>): seq<Point> {
    if loops == [] then [[]] else Rows(loops[0], Points(loops[1..]))
  }

  /** The coordinates of the preserved loops. */
  function Project<T>(keep: seq<bool>, s: seq<T>): (r: seq<T>)
    requires |keep| == |s|
    ensures |r| <= |s|
  {
    if s == [] then []
    else (if keep[0] then [s[0]] else []) + Project(keep[1..], s[1..])
  }

  /** A full point with the given preserved coordinates; the lifted ones are not looked at. */
  function Inject(keep: seq<bool>, key: Point): (p: Point)
    ensures |p| == |keep|
  {
    if keep == [] then []
    else if keep[0] && key != [] then [key[0]] + Inject(keep[1..], key[1..])
    else [0] + Inject(keep[1..], key)
  }

  // ----- Which point comes where -----

  lemma {:induction false} RowsAt(d: Dim, outer: seq<Point>, n: nat)
    requires n < |outer| * d.extent
    ensures |Rows(d, outer)| == |outer| * d.extent
    ensures 0 <= n / d.extent < |outer|
    ensures Rows(d, outer)[n] == [d.min + n % d.extent] + outer[n / d.extent]
  {
    var last := |outer| - 1;
    RowsLength(d, outer);
    RowsLength(d, outer[..last]);
    assert |outer| * d.extent == last * d.extent + d.extent;
    if n < last * d.extent {
      RowsAt(d, outer[..last], n);
    } else {
      var i := n - last * d.extent;
      DivModIs(n, d.extent, last, i);
    }
  }

  lemma {:induction false} RowsLength(d: Dim, outer: seq<Point>)
    ensures |Rows(d, outer)| == |outer| * d.extent
  {
    if outer != [] {
      RowsLength(d, outer[..|outer| - 1]);
      assert |outer| * d.extent == (|outer| - 1) * d.extent + d.extent;
    }
  }

  /** The number of points of a loop nest. */
  function Volume(loops: seq<Dim>): nat {
    if loops == [] then 1 else Volume(loops[1..]) * loops[0].extent
  }

  /** Point number `n` of a loop nest: the innermost loop is the least significant digit. */
  lemma {:induction false} PointsAt(loops: seq<Dim>, n: nat)
    requires n < Volume(loops)
    ensures |Points(loops)| == Volume(loops)
    ensures |Points(loops)[n]| == |loops|
    ensures loops != [] ==>
      && 0 <= n / loops[0].extent < Volume(loops[1..])
      && |Points(loops[1..])| == Volume(loops[1..])
      && Points(loops)[n] == [loops[0].min + n % loops[0].extent] + Points(loops[1..])[n / loops[0].extent]
  {
    PointsLength(loops);
    if loops != [] {
      PointsLength(loops[1..]);
      RowsAt(loops[0], Points(loops[1..]), n);
      PointsAt(loops[1..], n / loops[0].extent);
    }
  }

  lemma {:induction false} PointsLength(loops: seq<Dim>)
    ensures |Points(loops)| == Volume(loops)
  {
    if loops != [] {
      PointsLength(loops[1..]);
      RowsLength(loops[0], Points(loops[1..]));
    }
  }

  lemma {:induction false} PointsDistinct(loops: seq<Dim>, a: nat, b: nat)
    requires a < b < Volume(loops)
    ensures |Points(loops)| == Volume(loops)
    ensures Points(loops)[a] != Points(loops)[b]
  {
    PointsAt(loops, a);
    PointsAt(loops, b);
    if loops != [] {
      var e := loops[0].extent;
      var pa, pb := Points(loops)[a], Points(loops)[b];
      assert pa[1..] == Points(loops[1..])[a / e] && pb[1..] == Points(loops[1..])[b / e];
      if a / e == b / e {
        assert a % e != b % e;
        assert pa[0] != pb[0];
      } else {
        DivMonotone(a, b, e);
        PointsDistinct(loops[1..], a / e, b / e);
      }
    }
  }

  /** Where among the preserved points the key of point number `n` is. */
  function KeyPosition(loops: seq<Dim>, keep: seq<bool>, n: nat): nat
    requires |keep| == |loops| && n < Volume(loops)
  {
    if loops == [] then 0
    else
      var outer := KeyPosition(loops[1..], keep[1..], n / loops[0].extent);
      if keep[0] then Combine(outer, loops[0].extent, n % loops[0].extent) else outer
  }

  function Combine(outer: nat, e: nat, digit: nat): nat {
    outer * e + digit
  }

  lemma {:induction false} KeyIsAtPosition(loops: seq<Dim>, keep: seq<bool>, n: nat)
    requires |keep| == |loops| && n < Volume(loops)
    ensures |Points(loops)| == Volume(loops) && |Points(loops)[n]| == |loops|
    ensures |Points(Project(keep, loops))| == Volume(Project(keep, loops))
    ensures KeyPosition(loops, keep, n) < Volume(Project(keep, loops))
    ensures Points(Project(keep, loops))[KeyPosition(loops, keep, n)] == Project(keep, Points(loops)[n])
  {
    PointsAt(loops, n);
    PointsLength(Project(keep, loops));
    if loops != [] {
      var d := loops[0];
      var outer, digit := n / d.extent, n % d.extent;
      var innerKept := Project(keep[1..], loops[1..]);
      KeyIsAtPosition(loops[1..], keep[1..], outer);
      var p, q := Points(loops)[n], Points(loops[1..])[outer];
      assert p == [d.min + digit] + q && p[1..] == q;
      if keep[0] {
        assert Project(keep, loops) == [d] + innerKept;
        KeptDigit(d, innerKept, KeyPosition(loops[1..], keep[1..], outer), digit);
        assert Project(keep, p) == [d.min + digit] + Project(keep[1..], q);
      } else {
        assert Project(keep, loops) == innerKept && Project(keep, p) == Project(keep[1..], q);
      }
    }
  }

  lemma KeptDigit(d: Dim, inner: seq<Dim>, at: nat, digit: nat)
    requires at < Volume(inner) && digit < d.extent
    ensures |Points(inner)| == Volume(inner)
    ensures at * d.extent + digit < Volume([d] + inner)
    ensures |Points([d] + inner)| == Volume([d] + inner)
    ensures Points([d] + inner)[at * d.extent + digit] == [d.min + digit] + Points(inner)[at]
  {
    var kept := [d] + inner;
    assert kept[0] == d && kept[1..] == inner;
    PointsLength(inner);
    MixedRadix(at, Volume(inner), d.extent, digit);
    PointsAt(kept, at * d.extent + digit);
  }

  /** Once a loop is preserved, every loop outside it is preserved too. */
  ghost predicate ClosedOutward(keep: seq<bool>) {
    forall i, j :: 0 <= i < j < |keep| && keep[i] ==> keep[j]
  }

  lemma {:induction false} ClosedKeyOrder(loops: seq<Dim>, keep: seq<bool>, a: nat, b: nat)
    requires |keep| == |loops| && a <= b < Volume(loops)
    requires ClosedOutward(keep)
    ensures KeyPosition(loops, keep, a) <= KeyPosition(loops, keep, b)
  {
    if loops != [] {
      if keep[0] {
        AllKept(loops, keep, a);
        AllKept(loops, keep, b);
      } else {
        PointsAt(loops, a);
        PointsAt(loops, b);
        DivMonotone(a, b, loops[0].extent);
        ClosedKeyOrder(loops[1..], keep[1..], a / loops[0].extent, b / loops[0].extent);
      }
    }
  }

  lemma {:induction false} AllKept(loops: seq<Dim>, keep: seq<bool>, n: nat)
    requires |keep| == |loops| && n < Volume(loops)
    requires forall i :: 0 <= i < |keep| ==> keep[i]
    ensures KeyPosition(loops, keep, n) == n
  {
    if loops != [] {
      PointsAt(loops, n);
      AllKept(loops[1..], keep[1..], n / loops[0].extent);
      DivModSplit(n, loops[0].extent);
    }
  }
}
