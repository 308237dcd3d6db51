/** Schedules on which the directives leave the list of loops and its history apart. */
module ScheduleFailures {
  import opened Names
  import opened SplitHistory
  import opened StageSchedule

  /** The update stage of a Func in one variable, or in one reduction variable. */
  method OneLoop(name: string, dimType: DimType) returns (stage: Stage)
    requires Unqualified(name)
    ensures fresh(stage) && stage.Valid() && stage.Kinded() && !stage.isInit
    ensures stage.dims == [Dim(name, Serial, dimType)] && stage.splits == []
  {
    var dims := [Dim(name, Serial, dimType)];
    stage := new Stage(dims, false);
  }

  lemma OneLoopFound(name: string, dims: seq<Dim>)
    requires |dims| == 1 && dims[0].name == name
    ensures FindLoop(dims, name) == 0
  {
  }

  /** A refused tail strategy: the loop is already split in the list, the history knows nothing of it. */
  method RefusedTail() returns (stage: Stage, r: Result)
    ensures r == Err(ShiftInwardsOnUpdate)
    ensures LoopNames(stage.dims) == ["x.xi", "x.xo"] && stage.splits == [] && !stage.Derivation()
  {
    stage := OneLoop("x", PureVar);
    OneLoopFound("x", stage.dims);
    r := stage.Split("x", "xo", "xi", 8, false, ShiftInwards);
    assert Qualify("x", "xi") == "x.xi" && Qualify("x", "xo") == "x.xo";
  }

  /** A fuse with a loop that does not exist: the other loop is already gone from the list. */
  method MissingInnerLoop() returns (stage: Stage, r: Result)
    ensures r == Err(InnerNotFound) && stage.dims == [] && stage.splits == [] && !stage.Derivation()
  {
    stage := OneLoop("x", PureVar);
    OneLoopFound("x", stage.dims);
    r := stage.Fuse(VarOrRVar("z", false), VarOrRVar("x", false), VarOrRVar("f", false));
  }

  method TwoLoops() returns (stage: Stage)
    ensures fresh(stage) && stage.dims == [Dim("r", Serial, PureRVar), Dim("s", Serial, PureRVar)]
  {
    var dims := [Dim("r", Serial, PureRVar), Dim("s", Serial, PureRVar)];
    assert forall x: string, y: string :: |x| == 1 == |y| ==> !Extends(x, y);
    stage := new Stage(dims, false);
  }

  lemma SecondLoopFound(name: string, dims: seq<Dim>)
    requires |dims| == 2 && dims[1].name == name && |name| == 1 == |dims[0].name| && dims[0].name != name
    ensures FindLoop(dims, name) == 1
  {
  }

  /** Two loops purified to one name: both are accepted, and the list holds the name twice. */
  method PurifyToUsedName() returns (stage: Stage, first: Result, second: Result)
    ensures first == Ok && second == Ok
    ensures LoopNames(stage.dims) == ["u", "u"] && !InStep(stage.roots, stage.splits, stage.dims)
  {
    stage := TwoLoops();
    assert FindLoop(stage.dims, "r") == 0;
    first := stage.Purify(VarOrRVar("r", true), VarOrRVar("u", false));
    SecondLoopFound("s", stage.dims);
    second := stage.Purify(VarOrRVar("s", true), VarOrRVar("u", false));
    assert LoopNames(stage.dims)[0] == LoopNames(stage.dims)[1];
  }

  /** A reduction loop split under the name of a Var: accepted, and its tail runs past the reduction domain. */
  method MisnamedSplit() returns (stage: Stage, r: Result)
    ensures r == Ok && stage.Valid() && !stage.Kinded()
    ensures stage.splits == [Entry("r", "r.ro", "r.ri", 8, false, RoundUp, SplitVar)]
  {
    stage := OneLoop("r", PureRVar);
    OneLoopFound("r", stage.dims);
    assert !NamesInUse(stage.dims, "r", "ro", "ri") && AutoTail(false, false, stage.splits, "r", 8) == RoundUp;
    r := stage.Split("r", "ro", "ri", 8, false, Auto);
    assert Qualify("r", "ri") == "r.ri" && Qualify("r", "ro") == "r.ro";
  }

  method ThreeLoops() returns (stage: Stage)
    ensures fresh(stage) && stage.Valid() && stage.Kinded() && !stage.isInit
    ensures LoopNames(stage.dims) == ["x", "r", "s"]
    ensures !Impure(stage.dims, 0) && Impure(stage.dims, 1) && Impure(stage.dims, 2)
  {
    var dims := [Dim("x", Serial, PureVar), Dim("r", Serial, ImpureRVar), Dim("s", Serial, ImpureRVar)];
    assert forall x: string, y: string :: |x| == 1 == |y| ==> !Extends(x, y);
    stage := new Stage(dims, false);
  }

  /** Reordering two loops around an impure one that is not listed: `s` now runs inside of `r`, and nobody objects. */
  method ReorderedAcross() returns (stage: Stage, r: Result)
    ensures r == Ok && LoopNames(stage.dims) == ["s", "r", "x"] && Impure(stage.dims, 0) && Impure(stage.dims, 1)
  {
    stage := ThreeLoops();
    ghost var before := stage.dims;
    PositionsAround(before);
    r := stage.Reorder(["s", "x"], false);
    AroundReordered(before, stage.dims);
  }

  lemma PositionsAround(dims: seq<Dim>)
    requires LoopNames(dims) == ["x", "r", "s"] && !Impure(dims, 0)
    ensures Listed(dims, ["s", "x"]) && Positions(dims, ["s", "x"]) == [2, 0] && ImpureInOrder(dims, [2, 0])
  {
    var names := LoopNames(dims);
    assert names[0] == dims[0].name && names[1] == dims[1].name && names[2] == dims[2].name;
    LastMatchIs(dims, "s", 2);
    LastMatchIs(dims, "x", 0);
  }

  lemma {:induction false} LastMatchIs(dims: seq<Dim>, name: string, i: nat)
    requires i < |dims| && VarNameMatch(dims[i].name, name)
    requires forall j :: i < j < |dims| ==> !VarNameMatch(dims[j].name, name)
    ensures LastMatch(dims, name) == i
  {
    if i < |dims| - 1 {
      LastMatchIs(dims[..|dims| - 1], name, i);
    }
  }

  lemma SortedPair(sorted: seq<int>)
    requires |sorted| == 2 && Increasing(sorted) && forall p :: p in sorted <==> p in [2, 0]
    ensures sorted == [0, 2]
  {
    assert forall p :: p in [2, 0] <==> p == 2 || p == 0;
    assert sorted[0] in sorted && sorted[1] in sorted && sorted[0] < sorted[1];
  }

  lemma AroundReordered(before: seq<Dim>, after: seq<Dim>)
    requires |before| == 3 && Reordered(before, after, [2, 0])
    ensures after == [before[2], before[1], before[0]]
  {
    var sorted := SortedOf(before, after, [2, 0]);
    SortedPair(sorted);
    Unlisted(before, after, [2, 0], 1);
    assert after[sorted[0]] == before[2] && after[sorted[1]] == before[0];
  }

  lemma SortedOf(before: seq<Dim>, after: seq<Dim>, idx: seq<int>) returns (sorted: seq<int>)
    requires Reordered(before, after, idx)
    ensures |sorted| == |idx| && Increasing(sorted) && forall p :: p in sorted <==> p in idx
    ensures forall i :: 0 <= i < |idx| ==> 0 <= sorted[i] < |after| && after[sorted[i]] == before[idx[i]]
  {
    sorted :|
      && |sorted| == |idx| && Increasing(sorted) && (forall p :: p in sorted <==> p in idx)
      && forall i :: 0 <= i < |idx| ==> 0 <= sorted[i] < |after| && after[sorted[i]] == before[idx[i]];
  }

  lemma Unlisted(before: seq<Dim>, after: seq<Dim>, idx: seq<int>, p: nat)
    requires Reordered(before, after, idx) && p < |before| && p !in idx
    ensures |after| == |before| && after[p] == before[p]
  {
  }
}
