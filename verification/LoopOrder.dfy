/**
 The order in which the loops of a stage run: the last loop of the list is the outermost.  Splits, renames and
 fuses of neighbours leave the order of iterations as it was; reordering keeps that of the impure loops.
 */
module LoopOrder {
  import opened Arith
  import opened Collections
  import opened Names
  import opened SplitHistory
  import opened StageSchedule
  import opened LoopCoverage

  /** Iteration `a` of the loops, innermost first, runs before iteration `b`. */
  ghost predicate Earlier(names: seq<string>, a: Env, b: Env) {
    names != [] &&
    (var front, last := names[..|names| - 1], names[|names| - 1];
     ValueOf(a, last) < ValueOf(b, last) || (ValueOf(a, last) == ValueOf(b, last) && Earlier(front, a, b)))
  }

  ghost predicate Same(names: seq<string>, a: Env, b: Env) {
    forall i :: 0 <= i < |names| ==> ValueOf(a, names[i]) == ValueOf(b, names[i])
  }

  lemma {:induction false} EarlierConcat(inner: seq<string>, outer: seq<string>, a: Env, b: Env)
    ensures Earlier(inner + outer, a, b) <==> Earlier(outer, a, b) || (Same(outer, a, b) && Earlier(inner, a, b))
  {
    if outer == [] {
      assert inner + outer == inner;
    } else {
      var n := |outer| - 1;
      assert (inner + outer)[..|inner + outer| - 1] == inner + outer[..n];
      EarlierConcat(inner, outer[..n], a, b);
      assert Same(outer, a, b) <==> Same(outer[..n], a, b) && ValueOf(a, outer[n]) == ValueOf(b, outer[n]);
    }
  }

  /** Loops with the same values run in the same order. */
  lemma {:induction false} EarlierReads(names: seq<string>, a: Env, b: Env, a': Env, b': Env)
    requires Same(names, a, a') && Same(names, b, b')
    ensures Earlier(names, a, b) <==> Earlier(names, a', b')
    ensures Same(names, a, b) <==> Same(names, a', b')
  {
    if names != [] {
      EarlierReads(names[..|names| - 1], a, b, a', b');
    }
  }

  /** Some loops of the list, `before`, become others, `after`, that order two iterations alike. */
  lemma ReplacedOrder(front: seq<string>, before: seq<string>, after: seq<string>, back: seq<string>,
                      a: Env, b: Env, a': Env, b': Env)
    requires Same(front + back, a, a') && Same(front + back, b, b')
    requires Earlier(after, a, b) <==> Earlier(before, a', b')
    requires Same(after, a, b) <==> Same(before, a', b')
    ensures Earlier(front + after + back, a, b) <==> Earlier(front + before + back, a', b')
  {
    assert forall i :: 0 <= i < |front| ==> (front + back)[i] == front[i];
    assert forall i :: 0 <= i < |back| ==> (front + back)[|front| + i] == back[i];
    EarlierConcat(front + after, back, a, b);
    EarlierConcat(front, after, a, b);
    EarlierConcat(front + before, back, a', b');
    EarlierConcat(front, before, a', b');
    EarlierReads(front, a, b, a', b');
    EarlierReads(back, a, b, a', b');
  }

  lemma PairOrder(inner: string, outer: string, a: Env, b: Env)
    ensures Earlier([inner, outer], a, b) <==>
              || ValueOf(a, outer) < ValueOf(b, outer)
              || (ValueOf(a, outer) == ValueOf(b, outer) && ValueOf(a, inner) < ValueOf(b, inner))
    ensures Same([inner, outer], a, b) <==>
              ValueOf(a, outer) == ValueOf(b, outer) && ValueOf(a, inner) == ValueOf(b, inner)
  {
    var names := [inner, outer];
    SingleOrder(inner, a, b);
    SingleOrder(outer, a, b);
    EarlierConcat([inner], [outer], a, b);
    assert names == [inner] + [outer];
    assert Same(names, a, b) <==>
             ValueOf(a, names[0]) == ValueOf(b, names[0]) && ValueOf(a, names[1]) == ValueOf(b, names[1]);
  }

  lemma SingleOrder(name: string, a: Env, b: Env)
    ensures Earlier([name], a, b) <==> ValueOf(a, name) < ValueOf(b, name)
    ensures Same([name], a, b) <==> ValueOf(a, name) == ValueOf(b, name)
  {
    var names := [name];
    assert names[..0] == [];
    assert Same(names, a, b) <==> ValueOf(a, names[0]) == ValueOf(b, names[0]);
  }

  /** A two-digit number is smaller exactly if it is in order of its digits. */
  lemma DigitsInOrder(f: int, o: int, i: int, p: int, j: int)
    requires 0 <= i < f && 0 <= j < f
    ensures o * f + i < p * f + j <==> o < p || (o == p && i < j)
    ensures o * f + i == p * f + j <==> o == p && i == j
  {
    if o < p {
      MulOrder(o, p, f);
    } else if p < o {
      MulOrder(p, o, f);
    }
  }

  // ----- Split -----

  /** The iterations are in the range of the new inner loop. */
  ghost predicate InnerInRange(s: Split, env: Env) {
    0 <= ValueOf(env, s.inner) < s.factor
  }

  /** Splitting a loop, other than by shifting inwards, leaves the order of the iterations as it was. */
  lemma SplitKeepsOrder(dims: seq<Dim>, splits: seq<Split>, isInit: bool, oldVar: string, outer: string,
                        inner: string, factor: int, exact: bool, tail: Tail, dims': seq<Dim>, splits': seq<Split>,
                        r: map<string, Range>, a: Env, b: Env)
    requires SplitEffect(dims, splits, isInit, oldVar, outer, inner, factor, exact, tail, Ok, dims', splits')
    requires factor >= 1 && Distinct(LoopNames(dims))
    requires var s := splits'[|splits|];
             s.tail != ShiftInwards && InnerInRange(s, a) && InnerInRange(s, b)
    ensures |splits'| == |splits| + 1
    ensures var s := splits'[|splits|];
            Earlier(LoopNames(dims'), a, b) <==> Earlier(LoopNames(dims), Step(r, s, a), Step(r, s, b))
  {
    var i, s := SplitAt(dims, splits, isInit, oldVar, outer, inner, factor, exact, tail, dims', splits');
    var front, back := LoopNames(dims)[..i], LoopNames(dims)[i + 1..];
    var a', b' := Step(r, s, a), Step(r, s, b);
    SplitNames(dims, i, s.inner, s.outer);
    PairOrder(s.inner, s.outer, a, b);
    SingleOrder(s.oldVar, a', b');
    DigitsInOrder(factor, ValueOf(a, s.outer), ValueOf(a, s.inner), ValueOf(b, s.outer), ValueOf(b, s.inner));
    ReplacedOrder(front, [s.oldVar], [s.inner, s.outer], back, a, b, a', b');
  }

  /** The inner loop of a split runs over the factor, and the outer one over as many blocks as cover the old loop. */
  lemma SplitRanges(initial: map<string, Range>, splits: seq<Split>, s: Split)
    requires PositiveFactors(splits) && s.kind == SplitVar && s.factor >= 1 && s.inner != s.outer
    ensures PositiveFactors(splits + [s])
    ensures var e := RangeOf(Ranges(initial, splits), s.oldVar).extent;
            && RangeOf(Ranges(initial, splits + [s]), s.inner) == Range(0, s.factor)
            && RangeOf(Ranges(initial, splits + [s]), s.outer) == Range(0, CeilDiv(e, s.factor))
            && (CeilDiv(e, s.factor) - 1) * s.factor < e <= CeilDiv(e, s.factor) * s.factor
  {
    assert (splits + [s])[..|splits|] == splits;
    CeilBounds(RangeOf(Ranges(initial, splits), s.oldVar).extent, s.factor);
  }

  lemma CeilBounds(e: nat, f: int)
    requires f >= 1
    ensures (CeilDiv(e, f) - 1) * f < e <= CeilDiv(e, f) * f
  {
    var q := CeilDiv(e, f);
    DivModSplit(e - 1 + f, f);
    assert (q - 1) * f == q * f - f;
  }

  /** Both loops of a split keep the kind and the for-type of the old one, but an extern loop stays extern only once. */
  lemma SplitKeepsTypes(dims: seq<Dim>, i: nat, inner: string, outer: string)
    requires i < |dims|
    ensures var dims' := SplitDims(dims, i, inner, outer);
            && |dims'| == |dims| + 1 && dims'[i] == dims[i].(name := inner)
            && dims'[i + 1].name == outer && dims'[i + 1].dimType == dims[i].dimType
            && dims'[i + 1].forType != Extern && (dims[i].forType != Extern ==> dims'[i + 1].forType == dims[i].forType)
            && (dims[i].forType == Extern ==> dims'[i + 1].forType == Serial)
            && forall k :: 0 <= k < |dims'| && k != i && k != i + 1 ==> dims'[k] in dims
  {
  }

  /** After a split each of its new names refers to its loop and to no other. */
  lemma NewNamesAreClear(dims: seq<Dim>, splits: seq<Split>, isInit: bool, oldVar: string, outer: string,
                         inner: string, factor: int, exact: bool, tail: Tail, dims': seq<Dim>, splits': seq<Split>,
                         x: string, k: nat)
    requires SplitEffect(dims, splits, isInit, oldVar, outer, inner, factor, exact, tail, Ok, dims', splits')
    requires Unqualified(inner) && Unqualified(outer) && inner != outer
    requires (x == inner || x == outer) && x != oldVar && k < |dims'|
    ensures var i := FindLoop(dims, oldVar);
            VarNameMatch(dims'[k].name, x) <==> k == if x == inner then i else i + 1
  {
    var i, s := SplitAt(dims, splits, isInit, oldVar, outer, inner, factor, exact, tail, dims', splits');
    MatchQualified(s.oldVar, inner, x);
    MatchQualified(s.oldVar, outer, x);
    if k < i || k > i + 1 {
      OtherLoopsClear(dims, i, oldVar, outer, inner, s, x, k);
    }
  }

  lemma OtherLoopsClear(dims: seq<Dim>, i: nat, oldVar: string, outer: string, inner: string, s: Split, x: string,
                        k: nat)
    requires i < |dims| && !NamesInUse(dims, oldVar, outer, inner) && (x == inner || x == outer) && x != oldVar
    requires k < |dims| + 1 && (k < i || k > i + 1)
    ensures !VarNameMatch(SplitDims(dims, i, s.inner, s.outer)[k].name, x)
  {
    var d := if k < i then k else k - 1;
    assert SplitDims(dims, i, s.inner, s.outer)[k] == dims[d];
  }

  /** The names of the loops before and after a split. */
  lemma SplitNames(dims: seq<Dim>, i: nat, inner: string, outer: string)
    requires i < |dims| && Distinct(LoopNames(dims))
    ensures var names := LoopNames(dims);
            var front, back := names[..i], names[i + 1..];
            && names == front + [dims[i].name] + back
            && LoopNames(SplitDims(dims, i, inner, outer)) == front + [inner, outer] + back
            && forall k :: 0 <= k < |front + back| ==> (front + back)[k] != dims[i].name
  {
    var names := LoopNames(dims);
    var front, back := names[..i], names[i + 1..];
    forall k | 0 <= k < |front + back| ensures (front + back)[k] != dims[i].name {
      assert (front + back)[k] == names[if k < i then k else k + 1];
    }
  }

  // ----- Fuse -----

  lemma DivisionInOrder(e: int, v: int, w: int)
    requires e >= 1
    ensures v < w <==> v / e < w / e || (v / e == w / e && v % e < w % e)
    ensures v == w <==> v / e == w / e && v % e == w % e
  {
    DivModSplit(v, e);
    DivModSplit(w, e);
    DigitsInOrder(e, v / e, v % e, w / e, w % e);
  }

  /** The outer loop of the fuse is the one directly outside of the inner one. */
  ghost predicate Neighbours(dims: seq<Dim>, inner: VarOrRVar, outer: VarOrRVar) {
    var o := FindLoop(dims, outer.name);
    0 < o < |dims| && FindLoop(dims, inner.name) == o - 1
  }

  /** The names of the loops before and after a fuse of neighbours. */
  lemma NeighbourNames(dims: seq<Dim>, splits: seq<Split>, inner: VarOrRVar, outer: VarOrRVar, fused: VarOrRVar,
                   dims': seq<Dim>, splits': seq<Split>) returns (s: Split, front: seq<string>, back: seq<string>)
    requires FuseEffect(dims, splits, inner, outer, fused, Ok, dims', splits') && Distinct(LoopNames(dims))
    requires Neighbours(dims, inner, outer)
    ensures splits' == splits + [s] && s.kind == FuseVars && s.inner != s.outer
    ensures LoopNames(dims) == front + [s.inner, s.outer] + back && LoopNames(dims') == front + [s.oldVar] + back
    ensures forall k :: 0 <= k < |front + back| ==> (front + back)[k] != s.inner && (front + back)[k] != s.outer
  {
    var o, i, rest;
    o, i, rest, s := FusedAt(dims, splits, inner, outer, fused, Ok, dims', splits');
    FoundBefore(dims, rest, o, inner.name);
    var names := LoopNames(dims);
    front, back := names[..i], names[o + 1..];
    NamesErased(dims, o);
    NameReplaced(rest, i, FusedDim(rest[i], dims[o], fused.name));
    assert rest[i] == dims[i];
    NeighbourLists(names, i, s.oldVar);
  }

  lemma NamesErased(dims: seq<Dim>, o: nat)
    requires o < |dims|
    ensures LoopNames(dims[..o] + dims[o + 1..]) == LoopNames(dims)[..o] + LoopNames(dims)[o + 1..]
  {
  }

  lemma NameReplaced(dims: seq<Dim>, i: nat, d: Dim)
    requires i < |dims|
    ensures LoopNames(dims[i := d]) == LoopNames(dims)[i := d.name]
  {
  }

  lemma NeighbourLists(names: seq<string>, i: nat, fused: string)
    requires i + 1 < |names| && Distinct(names)
    ensures var front, back := names[..i], names[i + 2..];
            && names == front + [names[i], names[i + 1]] + back
            && (names[..i + 1] + names[i + 2..])[i := fused] == front + [fused] + back
            && forall k :: 0 <= k < |front + back| ==>
                 (front + back)[k] != names[i] && (front + back)[k] != names[i + 1]
  {
    var front, back := names[..i], names[i + 2..];
    forall k | 0 <= k < |front + back| ensures (front + back)[k] != names[i] && (front + back)[k] != names[i + 1] {
      assert (front + back)[k] == names[if k < i then k else k + 2];
    }
  }

  lemma FoundBefore(dims: seq<Dim>, rest: seq<Dim>, o: nat, name: string)
    requires 0 < o < |dims| && rest == dims[..o] + dims[o + 1..] && FindLoop(dims, name) == o - 1
    ensures FindLoop(rest, name) == o - 1
  {
    assert forall k :: 0 <= k < o ==> rest[k] == dims[k];
  }

  /** Fusing a loop with the one directly outside of it leaves the order of the iterations as it was. */
  lemma FuseKeepsOrder(dims: seq<Dim>, splits: seq<Split>, inner: VarOrRVar, outer: VarOrRVar, fused: VarOrRVar,
                       dims': seq<Dim>, splits': seq<Split>, r: map<string, Range>, a: Env, b: Env)
    requires FuseEffect(dims, splits, inner, outer, fused, Ok, dims', splits') && Distinct(LoopNames(dims))
    requires Neighbours(dims, inner, outer) && forall n :: n in LoopNames(dims) ==> RangeOf(r, n).extent >= 1
    ensures |splits'| == |splits| + 1
    ensures var s := splits'[|splits|];
            Earlier(LoopNames(dims'), a, b) <==> Earlier(LoopNames(dims), Step(r, s, a), Step(r, s, b))
  {
    var s, front, back := NeighbourNames(dims, splits, inner, outer, fused, dims', splits');
    var a', b' := Step(r, s, a), Step(r, s, b);
    assert (front + [s.inner, s.outer] + back)[|front|] == s.inner;
    assert RangeOf(r, s.inner).extent >= 1;
    PairOrder(s.inner, s.outer, a', b');
    SingleOrder(s.oldVar, a, b);
    DivisionInOrder(RangeOf(r, s.inner).extent, ValueOf(a, s.oldVar), ValueOf(b, s.oldVar));
    ReplacedOrder(front, [s.inner, s.outer], [s.oldVar], back, a, b, a', b');
  }

  /** A fused loop may be reordered freely only if both its loops may, and is pure only if both are. */
  lemma FusedKind(inner: Dim, outer: Dim, fused: string)
    ensures var d := FusedDim(inner, outer, fused);
            && (d.dimType == ImpureRVar <==> inner.dimType == ImpureRVar || outer.dimType == ImpureRVar)
            && (d.dimType == PureVar <==> inner.dimType == PureVar && outer.dimType == PureVar)
  {
  }

  // ----- Reorder -----

  /** The outermost loop on which the iterations differ is at `p`, and `a` comes first there. */
  ghost predicate FirstAt(names: seq<string>, a: Env, b: Env, p: nat) {
    && p < |names| && ValueOf(a, names[p]) < ValueOf(b, names[p])
    && forall q :: p < q < |names| ==> ValueOf(a, names[q]) == ValueOf(b, names[q])
  }

  lemma {:induction false} EarlierAt(names: seq<string>, a: Env, b: Env)
    ensures Earlier(names, a, b) <==> exists p: nat :: FirstAt(names, a, b, p)
  {
    if names != [] {
      var n := |names| - 1;
      var front := names[..n];
      EarlierAt(front, a, b);
      if ValueOf(a, names[n]) < ValueOf(b, names[n]) {
        assert FirstAt(names, a, b, n);
      } else if ValueOf(a, names[n]) == ValueOf(b, names[n]) {
        if p: nat :| FirstAt(front, a, b, p) {
          assert FirstAt(names, a, b, p);
        }
        if p: nat :| FirstAt(names, a, b, p) {
          assert FirstAt(front, a, b, p);
        }
      }
    }
  }

  /** The iterations differ on impure loops only. */
  ghost predicate DifferOnImpure(dims: seq<Dim>, a: Env, b: Env) {
    forall i :: 0 <= i < |dims| && !Impure(dims, i) ==> ValueOf(a, dims[i].name) == ValueOf(b, dims[i].name)
  }

  ghost predicate InTurn(before: seq<Dim>, after: seq<Dim>, q1: int, q2: int, p1: int, p2: int)
    requires 0 <= q1 < |before| && 0 <= q2 < |before| && 0 <= p1 < |after| && 0 <= p2 < |after|
  {
    after[p1] == before[q1] && after[p2] == before[q2] && q1 < q2 && Impure(before, q1) && Impure(before, q2) ==>
      p1 < p2
  }

  /** The loops that may not change order have not. */
  ghost predicate ImpureKept(before: seq<Dim>, after: seq<Dim>) {
    forall q1, q2, p1, p2 {:trigger InTurn(before, after, q1, q2, p1, p2)} ::
      0 <= q1 < |before| && 0 <= q2 < |before| && 0 <= p1 < |after| && 0 <= p2 < |after| ==>
        InTurn(before, after, q1, q2, p1, p2)
  }

  /** No listed impure loop goes past an impure loop that is not listed. */
  ghost predicate NoneCrossed(before: seq<Dim>, idx: seq<int>, sorted: seq<int>)
    requires |sorted| == |idx|
  {
    forall i, u :: 0 <= i < |idx| && u !in idx && Impure(before, idx[i]) && Impure(before, u) ==>
      (idx[i] < u <==> sorted[i] < u)
  }

  lemma PlaceIs(before: seq<Dim>, after: seq<Dim>, idx: seq<int>, sorted: seq<int>, q: int, p: int)
    requires Moved(before, after, idx, sorted) && Distinct(LoopNames(before)) && 0 <= p < |after| && 0 <= q < |before|
    requires after[p] == before[q]
    ensures if q in idx then exists i :: 0 <= i < |idx| && idx[i] == q && sorted[i] == p else p == q
  {
    var q' := MovedFrom(before, after, idx, sorted, p);
    assert LoopNames(before)[q'] == LoopNames(before)[q];
  }

  /** Reordering keeps the order of the impure loops exactly if it keeps that of the listed and crosses no other. */
  lemma ImpureKeptExactly(before: seq<Dim>, after: seq<Dim>, idx: seq<int>, sorted: seq<int>)
    requires Moved(before, after, idx, sorted) && Distinct(idx) && Increasing(sorted) && Distinct(LoopNames(before))
    ensures ImpureKept(before, after) <==> ImpureInOrder(before, idx) && NoneCrossed(before, idx, sorted)
  {
    if ImpureKept(before, after) {
      KeptMeans(before, after, idx, sorted);
    }
    if ImpureInOrder(before, idx) && NoneCrossed(before, idx, sorted) {
      forall q1, q2, p1, p2 | 0 <= q1 < |before| && 0 <= q2 < |before| && 0 <= p1 < |after| && 0 <= p2 < |after|
        ensures InTurn(before, after, q1, q2, p1, p2)
      {
        KeptPlaces(before, after, idx, sorted, q1, q2, p1, p2);
      }
    }
  }

  lemma KeptMeans(before: seq<Dim>, after: seq<Dim>, idx: seq<int>, sorted: seq<int>)
    requires Moved(before, after, idx, sorted) && Distinct(idx) && Increasing(sorted) && ImpureKept(before, after)
    ensures ImpureInOrder(before, idx) && NoneCrossed(before, idx, sorted)
  {
    forall i, j | 0 <= i < j < |idx| && Impure(before, idx[i]) && Impure(before, idx[j]) ensures idx[i] < idx[j] {
      assert InTurn(before, after, idx[j], idx[i], sorted[j], sorted[i]);
    }
    forall i, u | 0 <= i < |idx| && u !in idx && Impure(before, idx[i]) && Impure(before, u)
      ensures idx[i] < u <==> sorted[i] < u
    {
      assert sorted[i] in idx && after[u] == before[u];
      assert InTurn(before, after, idx[i], u, sorted[i], u) && InTurn(before, after, u, idx[i], u, sorted[i]);
    }
  }

  lemma KeptPlaces(before: seq<Dim>, after: seq<Dim>, idx: seq<int>, sorted: seq<int>, q1: int, q2: int, p1: int,
                   p2: int)
    requires Moved(before, after, idx, sorted) && Distinct(idx) && Increasing(sorted) && Distinct(LoopNames(before))
    requires ImpureInOrder(before, idx) && NoneCrossed(before, idx, sorted)
    requires 0 <= q1 < |before| && 0 <= q2 < |before| && 0 <= p1 < |after| && 0 <= p2 < |after|
    ensures InTurn(before, after, q1, q2, p1, p2)
  {
    if after[p1] == before[q1] && after[p2] == before[q2] && q1 < q2 && Impure(before, q1) && Impure(before, q2) {
      PlaceIs(before, after, idx, sorted, q1, p1);
      PlaceIs(before, after, idx, sorted, q2, p2);
      KeptInTurn(before, idx, sorted, q1, q2, p1, p2);
    }
  }

  lemma KeptInTurn(before: seq<Dim>, idx: seq<int>, sorted: seq<int>, q1: int, q2: int, p1: int, p2: int)
    requires |sorted| == |idx| && Increasing(sorted) && Distinct(idx) && forall p :: p in sorted <==> p in idx
    requires ImpureInOrder(before, idx) && NoneCrossed(before, idx, sorted)
    requires q1 < q2 && Impure(before, q1) && Impure(before, q2)
    requires if q1 in idx then exists i :: 0 <= i < |idx| && idx[i] == q1 && sorted[i] == p1 else p1 == q1
    requires if q2 in idx then exists i :: 0 <= i < |idx| && idx[i] == q2 && sorted[i] == p2 else p2 == q2
    ensures p1 < p2
  {
    if q1 in idx {
      var i :| 0 <= i < |idx| && idx[i] == q1 && sorted[i] == p1;
      if q2 in idx {
        var j :| 0 <= j < |idx| && idx[j] == q2 && sorted[j] == p2;
        assert i < j;
      }
    } else if q2 in idx {
      var j :| 0 <= j < |idx| && idx[j] == q2 && sorted[j] == p2;
      assert sorted[j] in sorted && p2 != q1;
    }
  }

  lemma KeptFirst(before: seq<Dim>, after: seq<Dim>, a: Env, b: Env, q: nat, p: nat)
    requires ImpureKept(before, after) && DifferOnImpure(before, a, b) && FirstAt(LoopNames(before), a, b, q)
    requires p < |after| && after[p] == before[q] && Distinct(LoopNames(after))
    requires forall k :: 0 <= k < |after| ==> after[k] in before
    ensures FirstAt(LoopNames(after), a, b, p)
  {
    var names := LoopNames(after);
    forall k | p < k < |names| ensures ValueOf(a, names[k]) == ValueOf(b, names[k]) {
      assert after[k] in before;
      var m :| 0 <= m < |before| && before[m] == after[k];
      assert names[k] != names[p] && LoopNames(before)[m] == names[k] && LoopNames(before)[q] == names[p];
      assert InTurn(before, after, m, q, k, p);
    }
  }

  /** If the impure loops keep their order, so do iterations that differ on impure loops only. */
  lemma EarlierKept(before: seq<Dim>, after: seq<Dim>, idx: seq<int>, sorted: seq<int>, a: Env, b: Env)
    requires Moved(before, after, idx, sorted) && Distinct(idx) && Distinct(LoopNames(before))
    requires ImpureKept(before, after) && DifferOnImpure(before, a, b) && Earlier(LoopNames(before), a, b)
    ensures Earlier(LoopNames(after), a, b)
  {
    EarlierAt(LoopNames(before), a, b);
    var q: nat :| FirstAt(LoopNames(before), a, b, q);
    var p := MovedTo(before, after, idx, sorted, q);
    ReorderedNames(before, after, idx, sorted);
    forall k | 0 <= k < |after| ensures after[k] in before {
      var m := MovedFrom(before, after, idx, sorted, k);
    }
    KeptFirst(before, after, a, b, q, p);
    EarlierAt(LoopNames(after), a, b);
  }

  /** If not, two such iterations change places. */
  lemma SwappedIterations(before: seq<Dim>, after: seq<Dim>) returns (a: Env, b: Env)
    requires !ImpureKept(before, after) && |before| == |after|
    requires Distinct(LoopNames(before)) && Distinct(LoopNames(after))
    ensures DifferOnImpure(before, a, b) && Earlier(LoopNames(before), a, b) && Earlier(LoopNames(after), b, a)
  {
    var q1, q2, p1, p2 :|
      0 <= q1 < |before| && 0 <= q2 < |before| && 0 <= p1 < |after| && 0 <= p2 < |after|
      && !InTurn(before, after, q1, q2, p1, p2);
    var names, names' := LoopNames(before), LoopNames(after);
    assert names[q1] != names[q2] && names[q1] == names'[p1] && names[q2] == names'[p2];
    a, b := map[names[q1] := 1, names[q2] := 0], map[names[q1] := 0, names[q2] := 1];
    forall i | 0 <= i < |before| && !Impure(before, i)
      ensures ValueOf(a, before[i].name) == ValueOf(b, before[i].name)
    {
      assert names[i] != names[q1] && names[i] != names[q2];
    }
    assert FirstAt(names, a, b, q2);
    assert FirstAt(names', b, a, p1);
    EarlierAt(names, a, b);
    EarlierAt(names', b, a);
  }

  /**
   `reorder` without proof of commutativity: iterations that differ on impure loops only stay in order, all of them,
   exactly if no listed impure loop goes past an impure loop that is not listed.  The code checks the listed loops
   against each other only.
   */
  lemma ReorderIsLegalExactly(before: seq<Dim>, after: seq<Dim>, idx: seq<int>) returns (sorted: seq<int>)
    requires Reordered(before, after, idx) && Distinct(idx) && Distinct(LoopNames(before))
    requires ImpureInOrder(before, idx)
    ensures |sorted| == |idx| && Increasing(sorted) && forall p :: p in sorted <==> p in idx
    ensures NoneCrossed(before, idx, sorted) <==>
              forall a, b :: DifferOnImpure(before, a, b) && Earlier(LoopNames(before), a, b) ==>
                               Earlier(LoopNames(after), a, b)
  {
    sorted :|
      && |sorted| == |idx| && Increasing(sorted) && (forall p :: p in sorted <==> p in idx)
      && forall i :: 0 <= i < |idx| ==> 0 <= sorted[i] < |after| && after[sorted[i]] == before[idx[i]];
    ImpureKeptExactly(before, after, idx, sorted);
    ReorderedNames(before, after, idx, sorted);
    if NoneCrossed(before, idx, sorted) {
      forall a, b | DifferOnImpure(before, a, b) && Earlier(LoopNames(before), a, b)
        ensures Earlier(LoopNames(after), a, b)
      {
        EarlierKept(before, after, idx, sorted, a, b);
      }
    } else {
      var a, b := SwappedIterations(before, after);
      NotBoth(LoopNames(after), a, b);
    }
  }

  lemma {:induction false} NotBoth(names: seq<string>, a: Env, b: Env)
    ensures !(Earlier(names, a, b) && Earlier(names, b, a))
  {
    if names != [] {
      NotBoth(names[..|names| - 1], a, b);
    }
  }
}
