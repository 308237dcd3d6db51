/**
 The schedule of one stage: its list of loops and the history they were derived by.  `split`, `fuse`,
 `purify`, `rename` and `remove` keep the history a derivation whose live loops are the loops in the
 list; `reorder` permutes the list.
 */
module StageSchedule {
  import opened Collections
  import opened Names
  import opened SplitHistory
  import opened LoopKinds

  datatype ForType = Serial | Parallel | Vectorized | Unrolled | Extern

  datatype DimType = PureVar | PureRVar | ImpureRVar

  /** A loop of the stage; index 0 of the list is the innermost. */
  datatype Dim = Dim(name: string, forType: ForType, dimType: DimType)

  datatype VarOrRVar = VarOrRVar(name: string, isRVar: bool)

  datatype Error =
    | KindMismatch | NameInUse | NotFound | InnerNotFound | RoundUpOnInnerVar | ShiftInwardsOnUpdate
    | InexactTail | AlreadyFused | AlreadySplit | ListedTwice | NotCommutative

  datatype Result = Ok | Err(error: Error)

  // ----- Lists of loops -----

  function LoopNames(dims: seq<Dim>): (r: seq<string>)
    ensures |r| == |dims| && forall i :: 0 <= i < |dims| ==> r[i] == dims[i].name
  {
    seq(|dims|, i requires 0 <= i < |dims| => dims[i].name)
  }

  function NameSet(dims: seq<Dim>): set<string> {
    set n | n in LoopNames(dims)
  }

  /** The position of the first loop the unqualified name refers to, or the length of the list. */
  function FindLoop(dims: seq<Dim>, name: string): (i: nat)
    ensures i <= |dims|
    ensures i < |dims| ==> VarNameMatch(dims[i].name, name)
    ensures forall j :: 0 <= j < i ==> !VarNameMatch(dims[j].name, name)
  {
    FirstMatch(LoopNames(dims), name)
  }

  /** The loops marked as RVars. */
  ghost function RVarNames(dims: seq<Dim>): set<string> {
    set i | 0 <= i < |dims| && dims[i].dimType != PureVar :: dims[i].name
  }

  lemma DistinctConcat<T>(a: seq<T>, b: seq<T>)
    ensures Distinct(a + b) <==> Distinct(a) && Distinct(b) && forall x :: x in a ==> x !in b
  {
    var c := a + b;
    assert forall i :: 0 <= i < |a| ==> a[i] == c[i];
    assert forall i :: 0 <= i < |b| ==> b[i] == c[|a| + i];
    if Distinct(c) {
      forall x | x in a ensures x !in b {
        var i :| 0 <= i < |a| && a[i] == x;
        assert forall j :: 0 <= j < |b| ==> b[j] == c[|a| + j] && c[i] != c[|a| + j];
      }
      assert Distinct(a) && Distinct(b);
    }
    if Distinct(a) && Distinct(b) && forall x :: x in a ==> x !in b {
      forall i, j | 0 <= i < j < |c| ensures c[i] != c[j] {
        if j >= |a| {
          assert c[j] == b[j - |a|];
          if i < |a| {
            assert c[i] in a;
          } else {
            assert c[i] == b[i - |a|];
          }
        }
      }
    }
  }

  /** Replacing element `i` of a duplicate-free sequence by new elements. */
  lemma ReplaceElement(s: seq<string>, i: nat, added: seq<string>)
    requires i < |s| && Distinct(s) && forall x :: x in added ==> x !in s
    ensures var r := s[..i] + added + s[i + 1..];
            && (forall x :: x in r <==> (x in s && x != s[i]) || x in added)
            && (Distinct(r) <==> Distinct(added))
  {
    var front, back := s[..i], s[i + 1..];
    assert s == front + [s[i]] + back;
    DistinctConcat(front + [s[i]], back);
    DistinctConcat(front, [s[i]]);
    DistinctConcat(front + added, back);
    DistinctConcat(front, added);
    assert s[i] in front + [s[i]] && s[i] in [s[i]];
  }

  /** Replacing one loop by loops with new names replaces its name. */
  lemma ReplaceNames(dims: seq<Dim>, i: nat, added: seq<Dim>)
    requires i < |dims| && Distinct(LoopNames(dims))
    requires forall x :: x in LoopNames(added) ==> x !in LoopNames(dims)
    ensures var r := dims[..i] + added + dims[i + 1..];
            && NameSet(r) == NameSet(dims) - {dims[i].name} + NameSet(added)
            && (Distinct(LoopNames(r)) <==> Distinct(LoopNames(added)))
  {
    var r := dims[..i] + added + dims[i + 1..];
    ReplaceElement(LoopNames(dims), i, LoopNames(added));
    assert LoopNames(r) == LoopNames(dims)[..i] + LoopNames(added) + LoopNames(dims)[i + 1..];
  }

  /** Erasing one loop removes its name. */
  lemma EraseName(dims: seq<Dim>, i: nat)
    requires i < |dims| && Distinct(LoopNames(dims))
    ensures var r := dims[..i] + dims[i + 1..];
            && NameSet(r) == NameSet(dims) - {dims[i].name} && Distinct(LoopNames(r))
  {
    ReplaceNames(dims, i, []);
    assert dims[..i] + [] + dims[i + 1..] == dims[..i] + dims[i + 1..];
  }

  /** A new name of a split is taken by a loop in the list; reusing the old name is allowed. */
  predicate NamesInUse(dims: seq<Dim>, oldVar: string, outer: string, inner: string) {
    exists i :: 0 <= i < |dims| &&
      ((VarNameMatch(dims[i].name, inner) && inner != oldVar) || (VarNameMatch(dims[i].name, outer) && outer != oldVar))
  }

  // ----- Tail strategies -----

  /** The strategy `Auto` stands for. */
  function AutoTail(isInit: bool, exact: bool, splits: seq<Split>, name: string, factor: int): Tail {
    if exact then GuardWithIf
    else if !isInit then if name in InnerVars(splits) then GuardWithIf else RoundUp
    else
      var m := ShiftInwardsDescendants(splits);
      if name in m && m[name] >= factor then RoundUp else ShiftInwards
  }

  /** The loops after a split: the new inner loop takes the old one's place and the outer one follows it. */
  function SplitDims(dims: seq<Dim>, i: nat, inner: string, outer: string): seq<Dim>
    requires i < |dims|
  {
    var o := dims[i].(name := outer);
    dims[..i] + [dims[i].(name := inner), if o.forType == Extern then o.(forType := Serial) else o] + dims[i + 1..]
  }

  /** The loop a fuse leaves in the inner loop's place: impure if either was, else an RVar if either was. */
  function FusedDim(inner: Dim, outer: Dim, fused: string): Dim {
    inner.(
      name := Qualify(inner.name, fused),
      dimType :=
        if inner.dimType == ImpureRVar || outer.dimType == ImpureRVar then ImpureRVar
        else if inner.dimType == PureRVar || outer.dimType == PureRVar then PureRVar
        else PureVar)
  }

  function RenameEntry(oldName: string, newName: string, isRVar: bool): Split {
    Entry(oldName, newName, "", 1, isRVar, RoundUp, RenameVar)
  }

  /** `name` was never a loop, has no loop derived from it, and is not derived from a loop that stays live. */
  ghost predicate NeverUsed(name: string, d: Derived, replaced: string) {
    && name !in d.used
    && (forall n :: n in d.used ==> !Extends(n, name))
    && (forall m :: m in d.live && m != replaced ==> !Extends(name, m))
  }

  /** The history explains the loop list. */
  ghost predicate Explains(roots: set<string>, splits: seq<Split>, dims: seq<Dim>) {
    && WellFormed(roots, splits)
    && NameSet(dims) == Replay(roots, splits).value.live
    && Distinct(LoopNames(dims))
  }

  /** The weaker statement that the history, replayed, ends with the loops of the list. */
  ghost predicate InStep(roots: set<string>, splits: seq<Split>, dims: seq<Dim>) {
    Replay(roots, splits).Some? && NameSet(dims) == Replay(roots, splits).value.live && Distinct(LoopNames(dims))
  }

  ghost predicate ValidLists(roots: set<string>, splits: seq<Split>, dims: seq<Dim>, isInit: bool) {
    Explains(roots, splits, dims) && InnerNamed(splits) && (!isInit ==> Acceptable(splits))
  }

  /** The loops marked as RVars are those that stand for reduction variables, and splits of these are exact. */
  ghost predicate Kinds(roots: set<string>, rvars: set<string>, splits: seq<Split>, dims: seq<Dim>) {
    && rvars <= roots
    && SplitsRVarsExactly(rvars, splits)
    && DimKinds(RVarsOf(rvars, splits), dims)
  }

  ghost predicate DimKinds(reductions: set<string>, dims: seq<Dim>) {
    forall i :: 0 <= i < |dims| ==> (dims[i].name in reductions <==> dims[i].dimType != PureVar)
  }

  // ----- What each directive does to the two lists -----

  /** `split`: which error, if any, and the new lists. */
  ghost predicate SplitEffect(dims: seq<Dim>, splits: seq<Split>, isInit: bool, oldVar: string, outer: string,
                              inner: string, factor: int, exact: bool, tail: Tail, r: Result, dims': seq<Dim>,
                              splits': seq<Split>)
  {
    var i := FindLoop(dims, oldVar);
    if NamesInUse(dims, oldVar, outer, inner) then r == Err(NameInUse) && dims' == dims && splits' == splits
    else if i == |dims| then r == Err(NotFound) && dims' == dims && splits' == splits
    else
      var name := dims[i].name;
      var innerName, outerName := Qualify(name, inner), Qualify(name, outer);
      && dims' == SplitDims(dims, i, innerName, outerName)
      && r == TailCheck(isInit, exact, splits, name, tail)
      && splits' == splits +
           (if r != Ok then [] else
              [Entry(name, outerName, innerName, factor, exact,
                     ChosenTail(isInit, exact, splits, name, factor, tail), SplitVar)])
  }

  /** The requested tail strategies that are refused. */
  function TailCheck(isInit: bool, exact: bool, splits: seq<Split>, name: string, tail: Tail): Result {
    if !isInit && !exact && tail == RoundUp && name in InnerVars(splits) then Err(RoundUpOnInnerVar)
    else if !isInit && tail == ShiftInwards then Err(ShiftInwardsOnUpdate)
    else if exact && tail != Auto && tail != GuardWithIf then Err(InexactTail)
    else Ok
  }

  predicate IsTailError(r: Result) {
    r == Err(RoundUpOnInnerVar) || r == Err(ShiftInwardsOnUpdate) || r == Err(InexactTail)
  }

  function ChosenTail(isInit: bool, exact: bool, splits: seq<Split>, name: string, factor: int, tail: Tail): Tail {
    if tail == Auto then AutoTail(isInit, exact, splits, name, factor) else tail
  }

  /** The loop `name` comes down from a ShiftInwards split by at least this factor. */
  ghost predicate CoveredByLarger(splits: seq<Split>, name: string, factor: int) {
    exists f :: f >= factor && CoveredBy(splits, name, f)
  }

  /** Which tail strategies may be asked for. */
  ghost predicate TailAllowed(isInit: bool, exact: bool, splits: seq<Split>, name: string, tail: Tail) {
    && (exact ==> tail == Auto || tail == GuardWithIf)
    && (!isInit ==> tail != ShiftInwards && !(tail == RoundUp && FromInner(splits, name)))
  }

  /**
   What `Auto` stands for.  A pure definition shifts inwards unless the loop is covered already by a larger such
   split; an update rounds up unless the loop comes from the inner loop of a split, where that would recompute; an
   exact split is guarded.
   */
  ghost predicate AutoStandsFor(isInit: bool, exact: bool, splits: seq<Split>, name: string, factor: int, chosen: Tail)
  {
    if exact then chosen == GuardWithIf
    else if isInit then chosen == if CoveredByLarger(splits, name, factor) then RoundUp else ShiftInwards
    else chosen == if FromInner(splits, name) then GuardWithIf else RoundUp
  }

  lemma TailsMeet(roots: set<string>, isInit: bool, exact: bool, splits: seq<Split>, name: string, factor: int,
                  tail: Tail)
    requires Replay(roots, splits).Some?
    ensures TailCheck(isInit, exact, splits, name, tail) == Ok <==> TailAllowed(isInit, exact, splits, name, tail)
    ensures AutoStandsFor(isInit, exact, splits, name, factor, AutoTail(isInit, exact, splits, name, factor))
  {
    InnerVarsExactly(roots, splits, name);
    var m := ShiftInwardsDescendants(splits);
    if name in m {
      CoveredExactly(roots, splits, name, m[name]);
    }
    forall f | CoveredBy(splits, name, f) ensures name in m && m[name] == f {
      CoveredExactly(roots, splits, name, f);
    }
  }

  /** `fuse`: the outer loop is erased first, then the inner one is replaced by the fused loop. */
  ghost predicate FuseEffect(dims: seq<Dim>, splits: seq<Split>, inner: VarOrRVar, outer: VarOrRVar, fused: VarOrRVar,
                             r: Result, dims': seq<Dim>, splits': seq<Split>)
  {
    var o := FindLoop(dims, outer.name);
    if !fused.isRVar && (outer.isRVar || inner.isRVar) then r == Err(KindMismatch) && dims' == dims && splits' == splits
    else if o == |dims| then r == Err(NotFound) && dims' == dims && splits' == splits
    else
      var rest := dims[..o] + dims[o + 1..];
      var i := FindLoop(rest, inner.name);
      if i == |rest| then r == Err(InnerNotFound) && dims' == rest && splits' == splits
      else
        && r == Ok
        && dims' == rest[i := FusedDim(rest[i], dims[o], fused.name)]
        && splits' == splits + [Entry(Qualify(rest[i].name, fused.name), dims[o].name, rest[i].name,
                                      1, true, RoundUp, FuseVars)]
  }

  // ----- Reordering -----

  /** The position of the last loop `name` refers to, or -1. */
  function LastMatch(dims: seq<Dim>, name: string): (i: int)
    ensures -1 <= i < |dims|
  {
    if dims == [] then -1
    else if VarNameMatch(dims[|dims| - 1].name, name) then |dims| - 1
    else LastMatch(dims[..|dims| - 1], name)
  }

  function Positions(dims: seq<Dim>, vars: seq<string>): (idx: seq<int>)
    ensures |idx| == |vars| && forall i :: 0 <= i < |vars| ==> idx[i] == LastMatch(dims, vars[i])
  {
    seq(|vars|, i requires 0 <= i < |vars| => LastMatch(dims, vars[i]))
  }

  /** Every listed name refers to a loop, and no two to the same one. */
  ghost predicate Listed(dims: seq<Dim>, vars: seq<string>) {
    var idx := Positions(dims, vars);
    (forall i :: 0 <= i < |idx| ==> idx[i] >= 0) && Distinct(idx)
  }

  predicate Impure(dims: seq<Dim>, i: int) {
    0 <= i < |dims| && dims[i].dimType == ImpureRVar
  }

  /** The listed loops that may not change order are listed in their present order. */
  ghost predicate ImpureInOrder(dims: seq<Dim>, idx: seq<int>) {
    forall i, j :: 0 <= i < j < |idx| && Impure(dims, idx[i]) && Impure(dims, idx[j]) ==> idx[i] < idx[j]
  }

  ghost predicate Increasing(s: seq<int>) {
    forall i, j :: 0 <= i < j < |s| ==> s[i] < s[j]
  }

  /** `after` puts the loops at positions `idx` of `before`, in that order, into the same places. */
  ghost predicate Reordered(before: seq<Dim>, after: seq<Dim>, idx: seq<int>) {
    && |after| == |before|
    && (forall i :: 0 <= i < |idx| ==> 0 <= idx[i] < |before|)
    && (forall p :: 0 <= p < |before| && p !in idx ==> after[p] == before[p])
    && exists sorted: seq<int> ::
         && |sorted| == |idx| && Increasing(sorted) && (forall p :: p in sorted <==> p in idx)
         && forall i :: 0 <= i < |idx| ==> 0 <= sorted[i] < |after| && after[sorted[i]] == before[idx[i]]
  }

  /** Insertion into an increasing sequence. */
  method InsertPosition(s: seq<int>, x: int) returns (r: seq<int>)
    requires Increasing(s) && x !in s
    ensures |r| == |s| + 1 && Increasing(r) && forall p :: p in r <==> p in s || p == x
  {
    var i := |s|;
    while i > 0 && s[i - 1] > x
      invariant 0 <= i <= |s| && forall k :: i <= k < |s| ==> s[k] > x
    {
      i := i - 1;
    }
    r := s[..i] + [x] + s[i..];
  }

  method SortPositions(idx: seq<int>) returns (sorted: seq<int>)
    requires Distinct(idx)
    ensures |sorted| == |idx| && Increasing(sorted) && forall p :: p in sorted <==> p in idx
    ensures forall i :: 0 <= i < |sorted| ==> sorted[i] in idx
  {
    sorted := [];
    for i := 0 to |idx|
      invariant |sorted| == i && Increasing(sorted) && forall p :: p in sorted <==> p in idx[..i]
    {
      assert idx[i] !in idx[..i];
      sorted := InsertPosition(sorted, idx[i]);
      assert idx[..i + 1] == idx[..i] + [idx[i]];
    }
    assert idx[..|idx|] == idx;
  }

  /** The loops of `before` at `idx` are at `sorted` in `after`, and the others have not moved. */
  ghost predicate Moved(before: seq<Dim>, after: seq<Dim>, idx: seq<int>, sorted: seq<int>) {
    && |after| == |before| && |sorted| == |idx|
    && (forall p :: p in sorted <==> p in idx)
    && (forall i :: 0 <= i < |idx| ==> 0 <= idx[i] < |before|)
    && (forall i :: 0 <= i < |idx| ==> 0 <= sorted[i] < |after| && after[sorted[i]] == before[idx[i]])
    && (forall p :: 0 <= p < |before| && p !in idx ==> after[p] == before[p])
  }

  /** Writes the loops at `idx` to `sorted`, in a copy of the list. */
  method MoveLoops(dims: seq<Dim>, idx: seq<int>, sorted: seq<int>) returns (after: seq<Dim>)
    requires |sorted| == |idx| && Increasing(sorted) && forall p :: p in sorted <==> p in idx
    requires forall i :: 0 <= i < |idx| ==> 0 <= idx[i] < |dims|
    requires forall i :: 0 <= i < |idx| ==> 0 <= sorted[i] < |dims|
    ensures Moved(dims, after, idx, sorted)
  {
    after := dims;
    for i := 0 to |idx|
      invariant |after| == |dims|
      invariant forall k :: 0 <= k < i ==> after[sorted[k]] == dims[idx[k]]
      invariant forall p :: 0 <= p < |dims| && p !in sorted[..i] ==> after[p] == dims[p]
    {
      assert forall k :: 0 <= k < i ==> sorted[k] < sorted[i];
      after := after[sorted[i] := dims[idx[i]]];
      assert sorted[..i + 1] == sorted[..i] + [sorted[i]];
    }
    assert sorted[..|idx|] == sorted;
  }

  /** The old position `q` of the loop now at `p`. */
  lemma MovedFrom(before: seq<Dim>, after: seq<Dim>, idx: seq<int>, sorted: seq<int>, p: int) returns (q: int)
    requires Moved(before, after, idx, sorted) && 0 <= p < |after|
    ensures 0 <= q < |before| && after[p] == before[q]
    ensures if p in idx then exists i :: 0 <= i < |idx| && sorted[i] == p && idx[i] == q else q == p
  {
    if p in idx {
      assert p in sorted;
      var i :| 0 <= i < |sorted| && sorted[i] == p;
      q := idx[i];
    } else {
      q := p;
    }
  }

  /** The new position `p` of the loop that was at `q`. */
  lemma MovedTo(before: seq<Dim>, after: seq<Dim>, idx: seq<int>, sorted: seq<int>, q: int) returns (p: int)
    requires Moved(before, after, idx, sorted) && 0 <= q < |before|
    ensures 0 <= p < |after| && after[p] == before[q]
  {
    if q in idx {
      var i :| 0 <= i < |idx| && idx[i] == q;
      p := sorted[i];
    } else {
      p := q;
    }
  }

  lemma MovedApart(before: seq<Dim>, after: seq<Dim>, idx: seq<int>, sorted: seq<int>, p1: int, p2: int)
    requires Moved(before, after, idx, sorted) && Distinct(idx) && Distinct(LoopNames(before))
    requires 0 <= p1 < p2 < |after|
    ensures after[p1].name != after[p2].name
  {
    var q1 := MovedFrom(before, after, idx, sorted, p1);
    var q2 := MovedFrom(before, after, idx, sorted, p2);
    if q1 != q2 {
      assert LoopNames(before)[q1] != LoopNames(before)[q2];
    }
  }

  /** A reordered list has the same names, each once. */
  lemma ReorderedNames(before: seq<Dim>, after: seq<Dim>, idx: seq<int>, sorted: seq<int>)
    requires Moved(before, after, idx, sorted) && Distinct(idx)
    ensures NameSet(after) == NameSet(before)
    ensures Distinct(LoopNames(before)) ==> Distinct(LoopNames(after))
  {
    forall x | x in NameSet(before) ensures x in NameSet(after) {
      var q :| 0 <= q < |before| && LoopNames(before)[q] == x;
      var p := MovedTo(before, after, idx, sorted, q);
      assert LoopNames(after)[p] == x;
    }
    forall x | x in NameSet(after) ensures x in NameSet(before) {
      var p :| 0 <= p < |after| && LoopNames(after)[p] == x;
      var q := MovedFrom(before, after, idx, sorted, p);
      assert LoopNames(before)[q] == x;
    }
    if Distinct(LoopNames(before)) {
      forall p1, p2 | 0 <= p1 < p2 < |after| ensures LoopNames(after)[p1] != LoopNames(after)[p2] {
        MovedApart(before, after, idx, sorted, p1, p2);
      }
    }
  }

  class Stage {
    var dims: seq<Dim>
    var splits: seq<Split>
    const isInit: bool
    /** The loops the stage started with, and the RVars among them. */
    ghost var roots: set<string>
    ghost var rvars: set<string>

    /** The live loops of the history are exactly the loops in the list, each listed once. */
    ghost predicate Derivation()
      reads this
    {
      Explains(roots, splits, dims)
    }

    ghost predicate Valid()
      reads this
    {
      ValidLists(roots, splits, dims, isInit)
    }

    ghost predicate Kinded()
      reads this
    {
      Kinds(roots, rvars, splits, dims)
    }

    constructor (dims: seq<Dim>, isInit: bool)
      requires Distinct(LoopNames(dims)) && "" !in LoopNames(dims)
      requires forall i, j :: 0 <= i < |dims| && 0 <= j < |dims| ==> !Extends(dims[i].name, dims[j].name)
      ensures Valid() && Kinded() && this.dims == dims && splits == [] && this.isInit == isInit
      ensures roots == NameSet(dims) && rvars == RVarNames(dims)
    {
      this.dims, this.splits, this.isInit := dims, [], isInit;
      this.roots, this.rvars := NameSet(dims), RVarNames(dims);
      new;
      InitialKinds(dims);
      forall m, n | m in NameSet(dims) && n in NameSet(dims) ensures !Extends(n, m) {
        var i :| 0 <= i < |dims| && LoopNames(dims)[i] == m;
        var j :| 0 <= j < |dims| && LoopNames(dims)[j] == n;
      }
    }

    /**
     The part of `Stage::split` that picks the tail strategy, or refuses the requested one, for splitting
     the loop `name`.
     */
    method ChooseTail(name: string, factor: int, exact: bool, tail: Tail) returns (r: Result, chosen: Tail)
      ensures r == TailCheck(isInit, exact, splits, name, tail)
      ensures chosen == ChosenTail(isInit, exact, splits, name, factor, tail)
      ensures Replay(roots, splits).Some? ==>
                && (r == Ok <==> TailAllowed(isInit, exact, splits, name, tail))
                && (r == Ok && tail == Auto ==> AutoStandsFor(isInit, exact, splits, name, factor, chosen))
                && (r == Ok && tail != Auto ==> chosen == tail)
    {
      if Replay(roots, splits).Some? {
        TailsMeet(roots, isInit, exact, splits, name, factor, tail);
      }
      chosen := tail;
      var roundUpOk := !exact;
      if roundUpOk && !isInit {
        var innerVars := CollectInnerVars();
        roundUpOk := name !in innerVars;
        if !roundUpOk && tail == RoundUp {
          return Err(RoundUpOnInnerVar), chosen;
        }
      }
      if chosen == Auto {
        if exact {
          chosen := GuardWithIf;
        } else if !isInit {
          chosen := if roundUpOk then RoundUp else GuardWithIf;
        } else {
          var descends := CollectShiftInwards();
          chosen := if name in descends && descends[name] >= factor then RoundUp else ShiftInwards;
        }
      }
      if !isInit && chosen == ShiftInwards {
        return Err(ShiftInwardsOnUpdate), chosen;
      }
      if exact && chosen != GuardWithIf {
        return Err(InexactTail), chosen;
      }
      r := Ok;
    }

    method CheckNewNames(oldVar: string, outer: string, inner: string) returns (taken: bool)
      ensures taken <==> NamesInUse(dims, oldVar, outer, inner)
    {
      for i := 0 to |dims|
        invariant !NamesInUse(dims[..i], oldVar, outer, inner)
      {
        var innerTaken := VarNameMatch(dims[i].name, inner) && inner != oldVar;
        var outerTaken := VarNameMatch(dims[i].name, outer) && outer != oldVar;
        if innerTaken || outerTaken {
          return true;
        }
      }
      return false;
    }

    method CollectInnerVars() returns (innerVars: set<string>)
      ensures innerVars == InnerVars(splits)
    {
      innerVars := {};
      for k := 0 to |splits|
        invariant innerVars == InnerVars(splits[..k])
      {
        assert splits[..k + 1][..k] == splits[..k];
        var s := splits[k];
        if s.kind == SplitVar {
          innerVars := innerVars + {s.inner};
          if s.oldVar in innerVars {
            innerVars := innerVars + {s.outer};
          }
        } else if s.kind == RenameVar || s.kind == PurifyRVar {
          if s.oldVar in innerVars {
            innerVars := innerVars + {s.outer};
          }
        } else if s.inner in innerVars || s.outer in innerVars {
          innerVars := innerVars + {s.oldVar};
        }
      }
      assert splits[..|splits|] == splits;
    }

    /**
     `Stage::split`.  The loop list is changed before the tail strategy is checked, so a refused tail
     leaves a list that the history no longer explains.
     */
    method Split(oldVar: string, outer: string, inner: string, factor: int, exact: bool, tail: Tail) returns (r: Result)
      requires Unqualified(oldVar) && Unqualified(outer) && Unqualified(inner)
      modifies this
      ensures roots == old(roots) && rvars == old(rvars)
      ensures SplitEffect(old(dims), old(splits), isInit, oldVar, outer, inner, factor, exact, tail, r, dims, splits)
      ensures old(Valid()) && r == Ok ==> if inner != outer then Valid() else !Derivation()
      ensures old(Valid()) && IsTailError(r) ==> !Derivation()
      ensures var i := FindLoop(old(dims), oldVar);
              old(Valid()) && i < |old(dims)| && r != Err(NameInUse) ==>
                && (r == Ok <==> TailAllowed(isInit, exact, old(splits), old(dims)[i].name, tail))
                && (r == Ok && tail == Auto ==>
                      AutoStandsFor(isInit, exact, old(splits), old(dims)[i].name, factor, splits[|old(splits)|].tail))
                && (r == Ok && tail != Auto ==> splits[|old(splits)|].tail == tail)
      ensures old(Valid() && Kinded()) && r == Ok && inner != outer ==>
        (Kinded() <==> exact || old(dims)[FindLoop(old(dims), oldVar)].dimType == PureVar)
    {
      var taken := CheckNewNames(oldVar, outer, inner);
      if taken {
        return Err(NameInUse);
      }
      var at := FindLoop(dims, oldVar);
      if at == |dims| {
        return Err(NotFound);
      }
      ghost var dims0, splits0 := dims, splits;
      var name := dims[at].name;
      var innerName, outerName := Qualify(name, inner), Qualify(name, outer);
      dims := SplitDims(dims, at, innerName, outerName);
      var chosen;
      r, chosen := ChooseTail(name, factor, exact, tail);
      if r == Ok {
        splits := splits + [Entry(name, outerName, innerName, factor, exact, chosen, SplitVar)];
      }
      SplitOutcome(roots, dims0, splits0, isInit, oldVar, outer, inner, factor, exact, tail, r, dims, splits);
      if old(Valid() && Kinded()) && r == Ok && inner != outer {
        SplitKinds(roots, rvars, splits0, dims0, at, inner, outer, splits[|splits| - 1]);
      }
    }

    method CollectShiftInwards() returns (m: map<string, int>)
      ensures m == ShiftInwardsDescendants(splits)
      ensures Derivation() ==> forall n, f :: n in m && m[n] == f <==> CoveredBy(splits, n, f)
    {
      m := map[];
      for k := 0 to |splits|
        invariant m == ShiftInwardsDescendants(splits[..k])
      {
        assert splits[..k + 1][..k] == splits[..k];
        var s := splits[k];
        if s.kind == SplitVar && s.tail == ShiftInwards {
          m := m[s.outer := s.factor];
        } else if s.kind == SplitVar && s.oldVar in m {
          m := m[s.inner := m[s.oldVar]][s.outer := m[s.oldVar]];
        } else if (s.kind == RenameVar || s.kind == PurifyRVar) && s.oldVar in m {
          m := m[s.outer := m[s.oldVar]];
        }
      }
      assert splits[..|splits|] == splits;
      if Derivation() {
        forall n, f ensures n in m && m[n] == f <==> CoveredBy(splits, n, f) {
          CoveredExactly(roots, splits, n, f);
        }
      }
    }

    /**
     `Stage::fuse`.  The outer loop is erased before the inner one is looked up, so a missing inner loop
     leaves the list one loop short.
     */
    method Fuse(inner: VarOrRVar, outer: VarOrRVar, fused: VarOrRVar) returns (r: Result)
      requires Unqualified(inner.name) && Unqualified(outer.name) && Unqualified(fused.name)
      modifies this
      ensures roots == old(roots) && rvars == old(rvars)
      ensures FuseEffect(old(dims), old(splits), inner, outer, fused, r, dims, splits)
      ensures old(Valid()) && r == Ok ==> Valid()
      ensures old(Valid()) && r == Err(InnerNotFound) ==> !Derivation()
      ensures old(Valid() && Kinded()) && r == Ok ==> Kinded()
    {
      if !fused.isRVar && (outer.isRVar || inner.isRVar) {
        return Err(KindMismatch);
      }
      var o := FindLoop(dims, outer.name);
      if o == |dims| {
        return Err(NotFound);
      }
      ghost var dims0, splits0 := dims, splits;
      var outerDim := dims[o];
      dims := dims[..o] + dims[o + 1..];
      var i := FindLoop(dims, inner.name);
      if i == |dims| {
        r := Err(InnerNotFound);
      } else {
        r := Ok;
        var innerName := dims[i].name;
        dims := dims[i := FusedDim(dims[i], outerDim, fused.name)];
        var fusedName := Qualify(innerName, fused.name);
        splits := splits + [Entry(fusedName, outerDim.name, innerName, 1, true, RoundUp, FuseVars)];
      }
      FuseOutcome(roots, dims0, splits0, isInit, inner, outer, fused, r, dims, splits);
      FuseKinds(roots, rvars, dims0, splits0, inner, outer, fused, r, dims, splits);
    }

    /** `Stage::purify`.  Nothing checks that the new pure name was never used in this schedule. */
    method Purify(oldVar: VarOrRVar, newVar: VarOrRVar) returns (r: Result)
      requires Unqualified(oldVar.name) && Unqualified(newVar.name)
      modifies this
      ensures roots == old(roots) && rvars == old(rvars)
      ensures r == Err(KindMismatch) <==> !oldVar.isRVar || newVar.isRVar
      ensures r == Err(NotFound) <==> r != Err(KindMismatch) && FindLoop(old(dims), oldVar.name) == |old(dims)|
      ensures r != Ok ==> dims == old(dims) && splits == old(splits)
      ensures r == Ok || r in {Err(KindMismatch), Err(NotFound)}
      ensures r == Ok ==>
        var i := FindLoop(old(dims), oldVar.name);
        && i < |old(dims)|
        && dims == old(dims)[i := old(dims)[i].(name := newVar.name, dimType := PureVar)]
        && splits == old(splits) + [Entry(old(dims)[i].name, newVar.name, "", 1, false, RoundUp, PurifyRVar)]
      ensures old(Valid()) && r == Ok ==>
        var d := Replay(roots, old(splits)).value;
        && (InStep(roots, splits, dims) <==> newVar.name !in d.used)
        && (Derivation() <==> NeverUsed(newVar.name, d, old(dims)[FindLoop(old(dims), oldVar.name)].name))
        && (Derivation() ==> Valid())
        && (old(Kinded()) && Derivation() ==> Kinded())
    {
      if !oldVar.isRVar || newVar.isRVar {
        return Err(KindMismatch);
      }
      var i := FindLoop(dims, oldVar.name);
      if i == |dims| {
        return Err(NotFound);
      }
      var oldName := dims[i].name;
      dims := dims[i := dims[i].(name := newVar.name, dimType := PureVar)];
      splits := splits + [Entry(oldName, newVar.name, "", 1, false, RoundUp, PurifyRVar)];
      if old(Valid()) {
        PurifyKeepsDerivation(roots, old(splits), old(dims), i, dims, splits[|splits| - 1]);
        if old(Kinded()) && newVar.name !in Replay(roots, old(splits)).value.used {
          PurifyKinds(roots, rvars, old(splits), old(dims), i, dims, splits[|splits| - 1]);
        }
      }
      return Ok;
    }

    /** `Stage::rename`.  From a valid state its "already fused" and "already split" errors cannot occur. */
    method Rename(oldVar: VarOrRVar, newVar: VarOrRVar) returns (r: Result)
      requires Unqualified(oldVar.name) && Unqualified(newVar.name)
      modifies this
      ensures roots == old(roots) && rvars == old(rvars)
      ensures r == Err(KindMismatch) <==> oldVar.isRVar != newVar.isRVar
      ensures r == Err(NotFound) <==> r != Err(KindMismatch) && FindLoop(old(dims), oldVar.name) == |old(dims)|
      ensures r in {Err(KindMismatch), Err(NotFound)} ==> dims == old(dims) && splits == old(splits)
      ensures r !in {Err(KindMismatch), Err(NotFound)} ==>
        var i := FindLoop(old(dims), oldVar.name);
        && i < |old(dims)|
        && var oldName := old(dims)[i].name;
           var newName := Qualify(oldName, newVar.name);
           && dims == old(dims)[i := old(dims)[i].(name := newName)]
           && match RenameDefinition(old(splits), oldName, newName)
              case Rewritten(s) => r == Ok && splits == s
              case Undefined => r == Ok && splits == old(splits) + [RenameEntry(oldName, newName, oldVar.isRVar)]
              case Blocked => r in {Err(AlreadyFused), Err(AlreadySplit)} && splits == old(splits)
      ensures old(Valid()) ==> r in {Ok, Err(KindMismatch), Err(NotFound)} && (r == Ok ==> Valid())
      ensures old(Valid() && Kinded()) && r == Ok ==> Kinded()
    {
      if oldVar.isRVar != newVar.isRVar {
        return Err(KindMismatch);
      }
      var i := FindLoop(dims, oldVar.name);
      if i == |dims| {
        return Err(NotFound);
      }
      var oldName := dims[i].name;
      var newName := Qualify(oldName, newVar.name);
      dims := dims[i := dims[i].(name := newName)];
      r := RewriteDefinition(oldName, newName, oldVar.isRVar);
      if old(Valid()) {
        RenameOutcome(roots, rvars, old(splits), old(dims), isInit, i, newVar.name, dims, oldVar.isRVar, r, splits);
      }
    }

    /** The second half of `Stage::rename`: rewrite the entry that defines the loop, or append a rename. */
    method RewriteDefinition(oldName: string, newName: string, isRVar: bool) returns (r: Result)
      modifies this`splits
      ensures match RenameDefinition(old(splits), oldName, newName)
              case Rewritten(s) => r == Ok && splits == s
              case Undefined => r == Ok && splits == old(splits) + [RenameEntry(oldName, newName, isRVar)]
              case Blocked => r in {Err(AlreadyFused), Err(AlreadySplit)} && splits == old(splits)
    {
      var i := |splits|;
      assert splits[..i] == splits;
      while i > 0
        invariant 0 <= i <= |splits| && splits == old(splits)
        invariant RenameDefinition(splits, oldName, newName)
                  == match RenameDefinition(splits[..i], oldName, newName)
                     case Rewritten(s) => Rewritten(s + splits[i..])
                     case other => other
      {
        var s := splits[i - 1];
        ghost var above := splits[..i];
        assert above[..i - 1] == splits[..i - 1] && above[i - 1] == s;
        assert [s] + splits[i..] == splits[i - 1..];
        if s.kind == FuseVars {
          if s.inner == oldName || s.outer == oldName {
            return Err(AlreadyFused);
          }
          if s.oldVar == oldName {
            splits := splits[i - 1 := s.(oldVar := newName)];
            return Ok;
          }
        } else {
          if s.inner == oldName {
            splits := splits[i - 1 := s.(inner := newName)];
            return Ok;
          }
          if s.outer == oldName {
            splits := splits[i - 1 := s.(outer := newName)];
            return Ok;
          }
          if s.oldVar == oldName {
            return Err(AlreadySplit);
          }
        }
        i := i - 1;
      }
      splits := splits + [RenameEntry(oldName, newName, isRVar)];
      return Ok;
    }

    /**
     `Stage::remove`, by full name.  From a valid state it cannot fail on a listed loop, and what is left
     is again a derivation, from the initial loops that remain.
     */
    method Remove(name: string) returns (r: Result)
      modifies this
      ensures r == Err(NotFound) <==> name !in old(NameSet(dims))
      ensures r == Err(NotFound) ==> dims == old(dims) && splits == old(splits)
      ensures r != Ok ==> roots == old(roots) && rvars == old(rvars)
      ensures r != Err(NotFound) ==>
        exists i :: 0 <= i < |old(dims)| && old(dims)[i].name == name && dims == old(dims)[..i] + old(dims)[i + 1..]
      ensures r != Err(NotFound) ==>
        match RemoveEntries(old(splits), {name}, name)
        case Kept(s, _) =>
          && r == Ok && splits == s
          && roots == RemainingRoots(old(roots), old(splits), {name})
          && rvars == RemainingRVars(old(roots), old(rvars), old(splits), {name})
        case Stuck => r in {Err(AlreadyFused), Err(AlreadySplit)} && splits == old(splits)
      ensures old(Valid()) ==> r in {Ok, Err(NotFound)} && Valid()
      ensures old(Valid() && Kinded()) ==> Kinded()
    {
      var i := 0;
      while i < |dims| && dims[i].name != name
        invariant i <= |dims| && dims == old(dims) && splits == old(splits) && roots == old(roots)
                  && rvars == old(rvars)
        invariant name !in LoopNames(dims[..i])
      {
        assert LoopNames(dims[..i + 1]) == LoopNames(dims[..i]) + [dims[i].name];
        i := i + 1;
      }
      if i == |dims| {
        assert dims[..i] == dims;
        return Err(NotFound);
      }
      assert LoopNames(dims)[i] == name;
      dims := dims[..i] + dims[i + 1..];
      r := DropEntries(name);
      if r == Ok {
        rvars := RemainingRVars(roots, rvars, old(splits), {name});
        roots := RemainingRoots(roots, old(splits), {name});
      }
      if old(Valid()) {
        RemoveKeepsDerivation(old(roots), old(splits), old(dims), i, dims);
        if old(Kinded()) {
          RemoveKinds(old(roots), old(rvars), old(splits), old(dims), i, dims);
        }
      }
    }

    /** The backward sweep of `Stage::remove`. */
    method DropEntries(name: string) returns (r: Result)
      modifies this`splits
      ensures match RemoveEntries(old(splits), {name}, name)
              case Kept(s, _) => r == Ok && splits == s
              case Stuck => r in {Err(AlreadyFused), Err(AlreadySplit)} && splits == old(splits)
    {
      var removed := {name};
      var temp: seq<Split> := [];
      var i := |splits|;
      assert splits[..i] == splits;
      while i > 0
        invariant 0 <= i <= |splits| && splits == old(splits)
        invariant RemoveEntries(splits, {name}, name)
                  == match RemoveEntries(splits[..i], removed, name)
                     case Kept(s, all) => Kept(s + temp, all)
                     case Stuck => Stuck
      {
        var s := splits[i - 1];
        ghost var above := splits[..i];
        assert above[..i - 1] == splits[..i - 1] && above[i - 1] == s;
        var isRemoved := false;
        if s.kind == FuseVars {
          if s.inner == name || s.outer == name {
            return Err(AlreadyFused);
          }
          if s.oldVar in removed {
            isRemoved := true;
            removed := removed + {s.inner, s.outer};
          }
        } else if s.kind == SplitVar {
          if s.oldVar == name {
            return Err(AlreadySplit);
          }
          if s.inner in removed || s.outer in removed {
            isRemoved := true;
            removed := removed + {s.oldVar};
          }
        } else {
          if s.oldVar == name {
            return Err(AlreadySplit);
          }
          if s.outer in removed {
            isRemoved := true;
            removed := removed + {s.oldVar};
          }
        }
        if !isRemoved {
          temp := [s] + temp;
        }
        i := i - 1;
      }
      splits := temp;
      return Ok;
    }

    /**
     `Stage::reorder`.  The listed loops take the listed order in the places they held; nothing else moves.
     A listed name refers to the last loop it matches.
     */
    method Reorder(vars: seq<string>, commutes: bool) returns (r: Result)
      modifies this`dims
      ensures r != Ok ==> dims == old(dims)
      ensures r in {Ok, Err(NotFound), Err(ListedTwice), Err(NotCommutative)}
      ensures r in {Err(NotFound), Err(ListedTwice)} <==> !Listed(old(dims), vars)
      ensures r == Err(NotCommutative) <==>
              Listed(old(dims), vars) && !commutes && !ImpureInOrder(old(dims), Positions(old(dims), vars))
      ensures r == Ok ==> Reordered(old(dims), dims, Positions(old(dims), vars))
      ensures old(Valid()) ==> Valid()
      ensures old(Kinded()) ==> Kinded()
    {
      var idx;
      r, idx := FindPositions(vars);
      if r != Ok {
        return;
      }
      if !commutes {
        var inOrder := CheckImpureOrder(idx);
        if !inOrder {
          return Err(NotCommutative);
        }
      }
      ghost var before := dims;
      Permute(idx);
      PermutedOutcome(roots, rvars, splits, before, dims, isInit);
    }

    /** Tags every listed loop with its position. */
    method FindPositions(vars: seq<string>) returns (r: Result, idx: seq<int>)
      ensures r in {Ok, Err(NotFound), Err(ListedTwice)}
      ensures r == Ok <==> Listed(dims, vars)
      ensures r == Ok ==> idx == Positions(dims, vars)
    {
      idx := [];
      for i := 0 to |vars|
        invariant idx == Positions(dims, vars[..i]) && Listed(dims, vars[..i])
      {
        var at := -1;
        for j := 0 to |dims|
          invariant at == LastMatch(dims[..j], vars[i])
        {
          assert dims[..j + 1][..j] == dims[..j];
          if VarNameMatch(dims[j].name, vars[i]) {
            at := j;
          }
        }
        assert dims[..|dims|] == dims;
        if at == -1 {
          return Err(NotFound), idx;
        }
        if at in idx {
          return Err(ListedTwice), idx;
        }
        idx := idx + [at];
      }
      assert vars[..|vars|] == vars;
      r := Ok;
    }

    /** Looks for a pair of listed impure loops that would change order. */
    method CheckImpureOrder(idx: seq<int>) returns (inOrder: bool)
      requires Distinct(idx)
      ensures inOrder <==> ImpureInOrder(dims, idx)
    {
      for i := 0 to |idx|
        invariant forall a, b :: 0 <= a < i && a < b < |idx| && Impure(dims, idx[a]) && Impure(dims, idx[b]) ==>
                    idx[a] < idx[b]
      {
        if Impure(dims, idx[i]) {
          for j := i + 1 to |idx|
            invariant forall b :: i < b < j && Impure(dims, idx[b]) ==> idx[i] < idx[b]
          {
            if Impure(dims, idx[j]) && idx[i] > idx[j] {
              return false;
            }
          }
        }
      }
      return true;
    }

    /** Writes the listed loops into the sorted positions. */
    method Permute(idx: seq<int>)
      requires Distinct(idx) && forall i :: 0 <= i < |idx| ==> 0 <= idx[i] < |dims|
      modifies this`dims
      ensures Reordered(old(dims), dims, idx)
      ensures NameSet(dims) == NameSet(old(dims))
      ensures Distinct(LoopNames(old(dims))) ==> Distinct(LoopNames(dims))
      ensures forall p :: 0 <= p < |dims| ==> dims[p] in old(dims)
    {
      var sorted := SortPositions(idx);
      var after := MoveLoops(dims, idx, sorted);
      ReorderedNames(dims, after, idx, sorted);
      forall p | 0 <= p < |after| ensures after[p] in dims {
        var q := MovedFrom(dims, after, idx, sorted, p);
      }
      dims := after;
    }
  }

  // ----- Why the operations keep the derivation -----

  /** A list of the same loops in another order. */
  lemma PermutedOutcome(roots: set<string>, rvars: set<string>, splits: seq<Split>, before: seq<Dim>, after: seq<Dim>,
                        isInit: bool)
    requires NameSet(after) == NameSet(before) && (Distinct(LoopNames(before)) ==> Distinct(LoopNames(after)))
    requires forall p :: 0 <= p < |after| ==> after[p] in before
    ensures ValidLists(roots, splits, before, isInit) ==> ValidLists(roots, splits, after, isInit)
    ensures Kinds(roots, rvars, splits, before) ==> Kinds(roots, rvars, splits, after)
  {
  }

  /** Names below a live loop are unused. */
  lemma QualifiedIsFresh(roots: set<string>, splits: seq<Split>, name: string, x: string)
    requires WellFormed(roots, splits) && name in Replay(roots, splits).value.live && Unqualified(x)
    ensures Qualify(name, x) !in Replay(roots, splits).value.used
    ensures Qualify(name, x) !in Replay(roots, splits).value.live
    ensures DerivedFrom(Qualify(name, x), name)
  {
    LiveIsUsed(roots, splits);
  }

  lemma QualifiedDimIsFresh(roots: set<string>, splits: seq<Split>, dims: seq<Dim>, d: Dim, x: string)
    requires Explains(roots, splits, dims) && d in dims && Unqualified(x)
    ensures Qualify(d.name, x) !in Replay(roots, splits).value.used + NameSet(dims)
  {
    var i :| 0 <= i < |dims| && dims[i] == d;
    assert LoopNames(dims)[i] in NameSet(dims);
    QualifiedIsFresh(roots, splits, d.name, x);
  }

  lemma SplitExtendsHistory(roots: set<string>, splits: seq<Split>, s: Split, inner: string, outer: string)
    requires WellFormed(roots, splits) && s.kind == SplitVar && s.oldVar in Replay(roots, splits).value.live
    requires Unqualified(inner) && Unqualified(outer)
    requires s.inner == Qualify(s.oldVar, inner) && s.outer == Qualify(s.oldVar, outer)
    ensures s.inner !in Replay(roots, splits).value.live && s.outer !in Replay(roots, splits).value.live
    ensures inner == outer ==> Replay(roots, splits + [s]).None?
    ensures inner != outer ==>
      && s.inner != s.outer
      && WellFormed(roots, splits + [s])
      && Replay(roots, splits + [s]).value.live == Replay(roots, splits).value.live - {s.oldVar} + {s.inner, s.outer}
  {
    var d := Replay(roots, splits).value;
    LiveIsUsed(roots, splits);
    QualifiedIsFresh(roots, splits, s.oldVar, inner);
    QualifiedIsFresh(roots, splits, s.oldVar, outer);
    assert s.inner[|s.oldVar| + 1..] == inner && s.outer[|s.oldVar| + 1..] == outer;
    if inner != outer {
      DerivedKeepsUnextended(d, s.oldVar, {s.oldVar}, {s.inner, s.outer}, d.used + {s.inner, s.outer});
    }
  }

  lemma SplitKeepsDerivation(roots: set<string>, splits: seq<Split>, dims: seq<Dim>, i: nat,
                             inner: string, outer: string, s: Split)
    requires Explains(roots, splits, dims) && i < |dims| && Unqualified(inner) && Unqualified(outer)
    requires s.kind == SplitVar && s.oldVar == dims[i].name
    requires s.inner == Qualify(s.oldVar, inner) && s.outer == Qualify(s.oldVar, outer)
    ensures if inner != outer then Explains(roots, splits + [s], SplitDims(dims, i, s.inner, s.outer))
            else Replay(roots, splits + [s]).None?
    ensures Acceptable(splits + [s]) <==> Acceptable(splits) && EntryAcceptable(InnerVars(splits), s)
  {
    AppendAcceptable(splits, s);
    assert LoopNames(dims)[i] in NameSet(dims);
    SplitExtendsHistory(roots, splits, s, inner, outer);
    if inner != outer {
      var r := SplitDims(dims, i, s.inner, s.outer);
      assert LoopNames(r[i..i + 2]) == [s.inner, s.outer];
      ReplaceNames(dims, i, r[i..i + 2]);
      assert r == dims[..i] + r[i..i + 2] + dims[i + 1..];
      assert NameSet(r[i..i + 2]) == {s.inner, s.outer} by {
        assert LoopNames(r[i..i + 2])[0] == s.inner && LoopNames(r[i..i + 2])[1] == s.outer;
      }
    }
  }

  /** Without its history entry a split list is unexplained: the inner loop comes from nowhere. */
  lemma SplitUnexplained(roots: set<string>, splits: seq<Split>, dims: seq<Dim>, i: nat, inner: string, outer: string)
    requires Explains(roots, splits, dims) && i < |dims| && Unqualified(inner)
    ensures var name := dims[i].name;
            !Explains(roots, splits, SplitDims(dims, i, Qualify(name, inner), Qualify(name, outer)))
  {
    var name := dims[i].name;
    assert LoopNames(dims)[i] in NameSet(dims);
    QualifiedIsFresh(roots, splits, name, inner);
    var r := SplitDims(dims, i, Qualify(name, inner), Qualify(name, outer));
    assert LoopNames(r)[i] == Qualify(name, inner);
    assert Qualify(name, inner) in NameSet(r);
  }

  lemma EraseUnexplained(roots: set<string>, splits: seq<Split>, dims: seq<Dim>, i: nat)
    requires Explains(roots, splits, dims) && i < |dims|
    ensures !Explains(roots, splits, dims[..i] + dims[i + 1..])
  {
    EraseName(dims, i);
    assert LoopNames(dims)[i] in NameSet(dims);
  }

  lemma FuseKeepsDerivation(roots: set<string>, splits: seq<Split>, dims: seq<Dim>, o: nat, rest: seq<Dim>, i: nat,
                            fused: string, s: Split)
    requires Explains(roots, splits, dims) && o < |dims| && rest == dims[..o] + dims[o + 1..] && i < |rest|
    requires Unqualified(fused) && s.kind == FuseVars
    requires s.oldVar == Qualify(rest[i].name, fused) && s.outer == dims[o].name && s.inner == rest[i].name
    ensures Explains(roots, splits + [s], rest[i := FusedDim(rest[i], dims[o], fused)])
    ensures Acceptable(splits + [s]) <==> Acceptable(splits)
  {
    AppendAcceptable(splits, s);
    LiveIsUsed(roots, splits);
    EraseName(dims, o);
    assert LoopNames(dims)[o] in NameSet(dims) && LoopNames(rest)[i] in NameSet(rest);
    QualifiedIsFresh(roots, splits, s.inner, fused);
    FuseExtendsHistory(roots, splits, s, fused);
    FusedNames(rest, i, FusedDim(rest[i], dims[o], fused));
  }

  lemma FuseExtendsHistory(roots: set<string>, splits: seq<Split>, s: Split, fused: string)
    requires WellFormed(roots, splits) && s.kind == FuseVars && s.inner != s.outer && Unqualified(fused)
    requires Consumed(s) <= Replay(roots, splits).value.live && s.oldVar == Qualify(s.inner, fused)
    ensures WellFormed(roots, splits + [s])
    ensures Replay(roots, splits + [s]).value.live == Replay(roots, splits).value.live - {s.inner, s.outer} + {s.oldVar}
  {
    var d := Replay(roots, splits).value;
    LiveIsUsed(roots, splits);
    QualifiedIsFresh(roots, splits, s.inner, fused);
    DerivedKeepsUnextended(d, s.inner, {s.inner, s.outer}, {s.oldVar}, d.used + {s.oldVar});
  }

  lemma FusedNames(rest: seq<Dim>, i: nat, f: Dim)
    requires i < |rest| && Distinct(LoopNames(rest)) && f.name !in NameSet(rest)
    ensures NameSet(rest[i := f]) == NameSet(rest) - {rest[i].name} + {f.name} && Distinct(LoopNames(rest[i := f]))
  {
    assert LoopNames([f]) == [f.name] && NameSet([f]) == {f.name};
    ReplaceNames(rest, i, [f]);
    assert rest[i := f] == rest[..i] + [f] + rest[i + 1..];
  }

  lemma PurifyKeepsDerivation(roots: set<string>, splits: seq<Split>, dims: seq<Dim>, i: nat, after: seq<Dim>, s: Split)
    requires Explains(roots, splits, dims) && i < |dims| && s.kind == PurifyRVar && s.oldVar == dims[i].name
    requires Unqualified(s.outer) && after == dims[i := dims[i].(name := s.outer, dimType := PureVar)]
    ensures InStep(roots, splits + [s], after) <==> s.outer !in Replay(roots, splits).value.used
    ensures Explains(roots, splits + [s], after) <==> NeverUsed(s.outer, Replay(roots, splits).value, s.oldVar)
    ensures Acceptable(splits + [s]) <==> Acceptable(splits)
  {
    var d := Replay(roots, splits).value;
    AppendAcceptable(splits, s);
    LiveIsUsed(roots, splits);
    assert LoopNames(dims)[i] in NameSet(dims);
    if s.outer !in d.used {
      var e := ReplayEntry(d, s).value;
      assert e.live == d.live - {s.oldVar} + {s.outer} && e.used == d.used + {s.outer};
      var added := [after[i]];
      assert LoopNames(added) == [s.outer] && NameSet(added) == {s.outer};
      ReplaceNames(dims, i, added);
      assert after == dims[..i] + added + dims[i + 1..];
      if NeverUsed(s.outer, d, s.oldVar) {
        forall m, n | m in e.live && n in e.used ensures !Extends(n, m) {
        }
      } else {
        assert s.outer in e.live && s.outer in e.used;
        if n :| n in d.used && Extends(n, s.outer) {
          assert n in e.used;
        } else {
          var m :| m in d.live && m != s.oldVar && Extends(s.outer, m);
          assert m in e.live;
        }
      }
    }
  }

  /** What a rename does to the invariants. */
  lemma RenameOutcome(roots: set<string>, rvars: set<string>, splits: seq<Split>, dims: seq<Dim>, isInit: bool, i: nat,
                      x: string, after: seq<Dim>, isRVar: bool, r: Result, splits': seq<Split>)
    requires ValidLists(roots, splits, dims, isInit) && i < |dims| && Unqualified(x)
    requires after == dims[i := dims[i].(name := Qualify(dims[i].name, x))]
    requires var oldName, newName := dims[i].name, Qualify(dims[i].name, x);
             match RenameDefinition(splits, oldName, newName)
             case Rewritten(s) => r == Ok && splits' == s
             case Undefined => r == Ok && splits' == splits + [RenameEntry(oldName, newName, isRVar)]
             case Blocked => r in {Err(AlreadyFused), Err(AlreadySplit)} && splits' == splits
    ensures r == Ok && ValidLists(roots, splits', after, isInit)
    ensures Kinds(roots, rvars, splits, dims) ==> Kinds(roots, rvars, splits', after)
  {
    RenameKeepsDerivation(roots, splits, dims, i, x, after, isRVar);
    if Kinds(roots, rvars, splits, dims) {
      RenameKinds(roots, rvars, splits, dims, i, x, after, isRVar);
    }
  }

  lemma RenameKeepsDerivation(roots: set<string>, splits: seq<Split>, dims: seq<Dim>, i: nat, x: string,
                              after: seq<Dim>, isRVar: bool)
    requires Explains(roots, splits, dims) && InnerNamed(splits) && i < |dims| && Unqualified(x)
    requires after == dims[i := dims[i].(name := Qualify(dims[i].name, x))]
    ensures var oldName, newName := dims[i].name, Qualify(dims[i].name, x);
            match RenameDefinition(splits, oldName, newName)
            case Blocked => false
            case Undefined =>
              var r := splits + [RenameEntry(oldName, newName, isRVar)];
              Explains(roots, r, after) && InnerNamed(r) && (Acceptable(splits) ==> Acceptable(r))
            case Rewritten(r) =>
              Explains(roots, r, after) && InnerNamed(r) && (Acceptable(splits) ==> Acceptable(r))
  {
    var d := Replay(roots, splits).value;
    var oldName, newName := dims[i].name, Qualify(dims[i].name, x);
    LiveIsUsed(roots, splits);
    assert LoopNames(dims)[i] in NameSet(dims);
    QualifiedIsFresh(roots, splits, oldName, x);
    RenameKeepsHistory(roots, splits, oldName, newName);
    RenameKeepsAcceptable(roots, splits, oldName, newName);
    var added := [after[i]];
    assert LoopNames(added) == [newName] && NameSet(added) == {newName};
    ReplaceNames(dims, i, added);
    assert after == dims[..i] + added + dims[i + 1..];
    match RenameDefinition(splits, oldName, newName)
    case Rewritten(r) =>
      DerivedKeepsUnextended(d, oldName, {oldName}, {newName}, Renamed(d.used, oldName, newName));
    case _ =>
      var s := RenameEntry(oldName, newName, isRVar);
      AppendAcceptable(splits, s);
      DerivedKeepsUnextended(d, oldName, {oldName}, {newName}, d.used + {newName});
  }

  lemma RemoveKeepsDerivation(roots: set<string>, splits: seq<Split>, dims: seq<Dim>, i: nat, after: seq<Dim>)
    requires Explains(roots, splits, dims) && InnerNamed(splits) && i < |dims|
    requires after == dims[..i] + dims[i + 1..]
    ensures var name := dims[i].name;
            var sweep := RemoveEntries(splits, {name}, name);
            && sweep.Kept? && InnerNamed(sweep.splits) && (Acceptable(splits) ==> Acceptable(sweep.splits))
            && Explains(RemainingRoots(roots, splits, {name}), sweep.splits, after)
  {
    var name := dims[i].name;
    assert LoopNames(dims)[i] in NameSet(dims);
    EraseName(dims, i);
    RemoveKeepsHistory(roots, splits, {name}, name);
    RemoveKeepsAcceptable(splits, {name}, name);
  }

  /**
   An accepted split keeps the lists valid unless its two new names are equal; a refused tail strategy breaks
   them.
   */
  lemma SplitOutcome(roots: set<string>, dims: seq<Dim>, splits: seq<Split>, isInit: bool, oldVar: string,
                     outer: string, inner: string, factor: int, exact: bool, tail: Tail, r: Result, dims': seq<Dim>,
                     splits': seq<Split>)
    requires Unqualified(outer) && Unqualified(inner)
    requires SplitEffect(dims, splits, isInit, oldVar, outer, inner, factor, exact, tail, r, dims', splits')
    ensures ValidLists(roots, splits, dims, isInit) && r == Ok ==>
              if inner != outer then ValidLists(roots, splits', dims', isInit) else !Explains(roots, splits', dims')
    ensures ValidLists(roots, splits, dims, isInit) && IsTailError(r) ==> !Explains(roots, splits', dims')
  {
    var i := FindLoop(dims, oldVar);
    if ValidLists(roots, splits, dims, isInit) && !NamesInUse(dims, oldVar, outer, inner) && i < |dims| {
      var name := dims[i].name;
      if r == Ok {
        var s := Entry(name, Qualify(name, outer), Qualify(name, inner), factor, exact,
                       ChosenTail(isInit, exact, splits, name, factor, tail), SplitVar);
        assert splits' == splits + [s];
        InnerNamedAppend(splits, s);
        SplitKeepsDerivation(roots, splits, dims, i, inner, outer, s);
        assert !isInit ==> EntryAcceptable(InnerVars(splits), s);
      } else {
        assert splits' == splits;
        SplitUnexplained(roots, splits, dims, i, inner, outer);
      }
    }
  }

  lemma InnerNamedAppend(splits: seq<Split>, s: Split)
    requires InnerNamed(splits) && s.kind != RenameVar && s.kind != PurifyRVar
    ensures InnerNamed(splits + [s])
  {
  }

  lemma FuseOutcome(roots: set<string>, dims: seq<Dim>, splits: seq<Split>, isInit: bool, inner: VarOrRVar,
                    outer: VarOrRVar, fused: VarOrRVar, r: Result, dims': seq<Dim>, splits': seq<Split>)
    requires Unqualified(fused.name) && FuseEffect(dims, splits, inner, outer, fused, r, dims', splits')
    ensures ValidLists(roots, splits, dims, isInit) && r == Ok ==> ValidLists(roots, splits', dims', isInit)
    ensures ValidLists(roots, splits, dims, isInit) && r == Err(InnerNotFound) ==> !Explains(roots, splits', dims')
  {
    var o := FindLoop(dims, outer.name);
    if ValidLists(roots, splits, dims, isInit) && (fused.isRVar || !(outer.isRVar || inner.isRVar)) && o < |dims| {
      var rest := dims[..o] + dims[o + 1..];
      var i := FindLoop(rest, inner.name);
      if i < |rest| {
        var s := Entry(Qualify(rest[i].name, fused.name), dims[o].name, rest[i].name, 1, true, RoundUp, FuseVars);
        assert splits' == splits + [s];
        FuseKeepsDerivation(roots, splits, dims, o, rest, i, fused.name, s);
        InnerNamedAppend(splits, s);
      } else {
        EraseUnexplained(roots, splits, dims, o);
      }
    }
  }

  // ----- Why the operations keep the kinds -----

  lemma InitialKinds(dims: seq<Dim>)
    requires Distinct(LoopNames(dims))
    ensures Kinds(NameSet(dims), RVarNames(dims), [], dims)
  {
    forall i | 0 <= i < |dims| ensures LoopNames(dims)[i] in NameSet(dims) {
    }
    forall i, j | 0 <= i < |dims| && 0 <= j < |dims| && dims[i].name == dims[j].name ensures i == j {
      assert LoopNames(dims)[i] == LoopNames(dims)[j];
    }
  }

  /** Loops whose names an entry does not mention keep their kinds. */
  lemma DimKindsElsewhere(reductions: set<string>, s: Split, dims: seq<Dim>)
    requires DimKinds(reductions, dims) && Produced(s) !! NameSet(dims)
    ensures DimKinds(RVarsEntry(reductions, s), dims)
  {
    forall i | 0 <= i < |dims| ensures dims[i].name !in Produced(s) {
      assert LoopNames(dims)[i] in NameSet(dims);
    }
  }

  lemma SplitKinds(roots: set<string>, rvars: set<string>, splits: seq<Split>, dims: seq<Dim>, i: nat,
                   inner: string, outer: string, s: Split)
    requires Explains(roots, splits, dims) && Kinds(roots, rvars, splits, dims)
    requires i < |dims| && Unqualified(inner) && Unqualified(outer)
    requires s.kind == SplitVar && s.oldVar == dims[i].name
    requires s.inner == Qualify(s.oldVar, inner) && s.outer == Qualify(s.oldVar, outer)
    ensures Kinds(roots, rvars, splits + [s], SplitDims(dims, i, s.inner, s.outer))
       <==> s.exact || dims[i].dimType == PureVar
  {
    AppendKinds(rvars, splits, s);
    RVarsAreUsed(roots, rvars, splits);
    assert LoopNames(dims)[i] in NameSet(dims);
    QualifiedIsFresh(roots, splits, s.oldVar, inner);
    QualifiedIsFresh(roots, splits, s.oldVar, outer);
    DimKindsElsewhere(RVarsOf(rvars, splits), s, dims);
  }

  lemma FusedDimKinds(reductions: set<string>, dims: seq<Dim>, o: nat, rest: seq<Dim>, i: nat, f: Dim, s: Split)
    requires DimKinds(reductions, dims) && o < |dims| && rest == dims[..o] + dims[o + 1..] && i < |rest|
    requires s.kind == FuseVars && s.outer == dims[o].name && s.inner == rest[i].name && s.oldVar == f.name
    requires f.name !in reductions && f.name !in NameSet(dims)
    requires f.dimType == PureVar <==> dims[o].dimType == PureVar && rest[i].dimType == PureVar
    ensures DimKinds(RVarsEntry(reductions, s), rest[i := f])
  {
    forall p | 0 <= p < |rest|
      ensures rest[p].name in reductions <==> rest[p].dimType != PureVar
      ensures rest[p].name != f.name
    {
      var q := if p < o then p else p + 1;
      assert rest[p] == dims[q] && LoopNames(dims)[q] in NameSet(dims);
    }
  }

  lemma FusedKinds(roots: set<string>, rvars: set<string>, splits: seq<Split>, dims: seq<Dim>, o: nat, rest: seq<Dim>,
                   i: nat, fused: string, s: Split, splits': seq<Split>, dims': seq<Dim>)
    requires Kinds(roots, rvars, splits, dims) && Replay(roots, splits).Some?
    requires o < |dims| && rest == dims[..o] + dims[o + 1..] && i < |rest|
    requires s.kind == FuseVars && s.outer == dims[o].name && s.inner == rest[i].name
    requires s.oldVar == Qualify(rest[i].name, fused) && s.oldVar !in Replay(roots, splits).value.used + NameSet(dims)
    requires splits' == splits + [s] && dims' == rest[i := FusedDim(rest[i], dims[o], fused)]
    ensures Kinds(roots, rvars, splits', dims')
  {
    AppendKinds(rvars, splits, s);
    RVarsAreUsed(roots, rvars, splits);
    FusedDimKinds(RVarsOf(rvars, splits), dims, o, rest, i, FusedDim(rest[i], dims[o], fused), s);
  }

  /** The entry of an accepted split and the place of its loop. */
  lemma SplitAt(dims: seq<Dim>, splits: seq<Split>, isInit: bool, oldVar: string, outer: string, inner: string,
                factor: int, exact: bool, tail: Tail, dims': seq<Dim>, splits': seq<Split>) returns (i: nat, s: Split)
    requires SplitEffect(dims, splits, isInit, oldVar, outer, inner, factor, exact, tail, Ok, dims', splits')
    ensures i == FindLoop(dims, oldVar) < |dims| && dims' == SplitDims(dims, i, s.inner, s.outer)
    ensures splits' == splits + [s] && s.kind == SplitVar && s.factor == factor && s.oldVar == dims[i].name
    ensures s.inner == Qualify(s.oldVar, inner) && s.outer == Qualify(s.oldVar, outer)
    ensures !NamesInUse(dims, oldVar, outer, inner)
  {
    i := FindLoop(dims, oldVar);
    s := splits'[|splits|];
  }

  /** What an accepted fuse did, without the searches. */
  lemma FusedAt(dims: seq<Dim>, splits: seq<Split>, inner: VarOrRVar, outer: VarOrRVar, fused: VarOrRVar, r: Result,
                dims': seq<Dim>, splits': seq<Split>)
      returns (o: nat, i: nat, rest: seq<Dim>, s: Split)
    requires FuseEffect(dims, splits, inner, outer, fused, r, dims', splits') && r == Ok
    ensures o == FindLoop(dims, outer.name) < |dims| && rest == dims[..o] + dims[o + 1..]
    ensures i == FindLoop(rest, inner.name) < |rest| && rest[i] in dims
    ensures s == Entry(Qualify(rest[i].name, fused.name), dims[o].name, rest[i].name, 1, true, RoundUp, FuseVars)
    ensures splits' == splits + [s] && dims' == rest[i := FusedDim(rest[i], dims[o], fused.name)]
  {
    o := FindLoop(dims, outer.name);
    rest := dims[..o] + dims[o + 1..];
    i := FindLoop(rest, inner.name);
    s := splits'[|splits|];
    assert rest[i] == dims[if i < o then i else i + 1];
  }

  lemma FuseKinds(roots: set<string>, rvars: set<string>, dims: seq<Dim>, splits: seq<Split>, inner: VarOrRVar,
                  outer: VarOrRVar, fused: VarOrRVar, r: Result, dims': seq<Dim>, splits': seq<Split>)
    requires Unqualified(fused.name) && FuseEffect(dims, splits, inner, outer, fused, r, dims', splits')
    ensures Explains(roots, splits, dims) && Kinds(roots, rvars, splits, dims) && r == Ok ==>
              Kinds(roots, rvars, splits', dims')
  {
    if Explains(roots, splits, dims) && Kinds(roots, rvars, splits, dims) && r == Ok {
      var o, i, rest, s := FusedAt(dims, splits, inner, outer, fused, r, dims', splits');
      QualifiedDimIsFresh(roots, splits, dims, rest[i], fused.name);
      FusedKinds(roots, rvars, splits, dims, o, rest, i, fused.name, s, splits', dims');
    }
  }

  lemma PurifyKinds(roots: set<string>, rvars: set<string>, splits: seq<Split>, dims: seq<Dim>, i: nat,
                    after: seq<Dim>, s: Split)
    requires Explains(roots, splits, dims) && Kinds(roots, rvars, splits, dims)
    requires i < |dims| && s.kind == PurifyRVar && s.outer !in Replay(roots, splits).value.used
    requires after == dims[i := dims[i].(name := s.outer, dimType := PureVar)]
    ensures Kinds(roots, rvars, splits + [s], after)
  {
    AppendKinds(rvars, splits, s);
    RVarsAreUsed(roots, rvars, splits);
  }

  lemma RenameKinds(roots: set<string>, rvars: set<string>, splits: seq<Split>, dims: seq<Dim>, i: nat, x: string,
                    after: seq<Dim>, isRVar: bool)
    requires Explains(roots, splits, dims) && Kinds(roots, rvars, splits, dims) && InnerNamed(splits)
    requires i < |dims| && Unqualified(x)
    requires after == dims[i := dims[i].(name := Qualify(dims[i].name, x))]
    ensures var oldName, newName := dims[i].name, Qualify(dims[i].name, x);
            match RenameDefinition(splits, oldName, newName)
            case Blocked => true
            case Undefined => Kinds(roots, rvars, splits + [RenameEntry(oldName, newName, isRVar)], after)
            case Rewritten(r) => Kinds(roots, rvars, r, after)
  {
    var oldName, newName := dims[i].name, Qualify(dims[i].name, x);
    var s := RenameEntry(oldName, newName, isRVar);
    LiveIsUsed(roots, splits);
    RVarsAreUsed(roots, rvars, splits);
    AppendKinds(rvars, splits, s);
    assert LoopNames(dims)[i] in NameSet(dims);
    QualifiedIsFresh(roots, splits, oldName, x);
    forall j | 0 <= j < |dims| ensures dims[j].name != newName && (j != i ==> dims[j].name != oldName) {
      assert LoopNames(dims)[j] in NameSet(dims);
      assert j != i ==> LoopNames(dims)[j] != LoopNames(dims)[i];
    }
    if RenameDefinition(splits, oldName, newName).Rewritten? {
      RenameKeepsKinds(roots, rvars, splits, oldName, newName);
    }
  }

  /** Loops keep their kinds where the reductions differ only in names that are no longer used. */
  lemma RestDimKinds(reductions: set<string>, used: set<string>, dims: seq<Dim>, i: nat, after: seq<Dim>)
    requires DimKinds(reductions, dims) && i < |dims| && after == dims[..i] + dims[i + 1..] && NameSet(after) <= used
    ensures DimKinds(reductions * used, after)
  {
    forall p | 0 <= p < |after|
      ensures after[p].name in reductions * used <==> after[p].dimType != PureVar
    {
      assert after[p] == dims[if p < i then p else p + 1];
      assert LoopNames(after)[p] in NameSet(after);
    }
  }

  lemma RemoveKinds(roots: set<string>, rvars: set<string>, splits: seq<Split>, dims: seq<Dim>, i: nat, after: seq<Dim>)
    requires Explains(roots, splits, dims) && Kinds(roots, rvars, splits, dims) && i < |dims|
    requires after == dims[..i] + dims[i + 1..]
    ensures var name := dims[i].name;
            var sweep, rest := RemoveEntries(splits, {name}, name), RemainingRoots(roots, splits, {name});
            sweep.Kept? && Kinds(rest, RemainingRVars(roots, rvars, splits, {name}), sweep.splits, after)
  {
    var name := dims[i].name;
    assert LoopNames(dims)[i] in NameSet(dims);
    EraseName(dims, i);
    RemoveKeepsHistory(roots, splits, {name}, name);
    RemoveKeepsKinds(roots, rvars, splits, {name}, name);
    var kept, rest := RemoveEntries(splits, {name}, name).splits, RemainingRoots(roots, splits, {name});
    LiveIsUsed(rest, kept);
    RestDimKinds(RVarsOf(rvars, splits), Replay(rest, kept).value.used, dims, i, after);
  }
}
