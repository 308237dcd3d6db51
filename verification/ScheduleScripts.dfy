/** Whole scripts of directives on one stage. */
module ScheduleScripts {
  import opened Names
  import opened SplitHistory
  import opened StageSchedule
  import opened PureCoverage

  datatype Directive =
    | Split(oldVar: string, outer: string, inner: string, factor: int, exact: bool, tail: Tail)
    | Fuse(innerVar: VarOrRVar, outerVar: VarOrRVar, fusedVar: VarOrRVar)
    | Purify(rvar: VarOrRVar, pureVar: VarOrRVar)
    | Rename(oldName: VarOrRVar, newName: VarOrRVar)
    | Remove(name: string)
    | Reorder(vars: seq<string>, commutes: bool)

  /** Variables are named without dots. */
  predicate PlainNames(d: Directive) {
    match d
    case Split(o, a, b, _, _, _) => Unqualified(o) && Unqualified(a) && Unqualified(b)
    case Fuse(a, b, c) => Unqualified(a.name) && Unqualified(b.name) && Unqualified(c.name)
    case Purify(a, b) => Unqualified(a.name) && Unqualified(b.name)
    case Rename(a, b) => Unqualified(a.name) && Unqualified(b.name)
    case _ => true
  }

  /** The two loops of a split are named differently, and a purified loop gets a name of its own. */
  ghost predicate NewNames(d: Directive, base: set<string>) {
    match d
    case Split(_, outer, inner, _, _, _) => outer != inner
    case Purify(_, v) => v.name !in base && forall m :: m in base ==> !Extends(m, v.name)
    case _ => true
  }

  /** No rounding up is asked for, and no loop is removed. */
  predicate LeavesTails(d: Directive) {
    (d.Split? ==> d.tail != RoundUp) && !d.Remove?
  }

  ghost predicate AllLeaveTails(script: seq<Directive>) {
    forall i :: 0 <= i < |script| ==> LeavesTails(script[i])
  }

  ghost function BaseAfter(d: Directive, base: set<string>): set<string> {
    if d.Purify? then base + {d.pureVar.name} else base
  }

  /** Every name ever used is one of the base names or was built from one. */
  ghost predicate BuiltFrom(used: set<string>, base: set<string>) {
    forall n :: n in used ==> IsBuilt(n, base)
  }

  ghost predicate IsBuilt(n: string, base: set<string>) {
    exists m :: m in base && (n == m || Extends(n, m))
  }

  lemma QualifiedIsBuilt(parent: string, x: string, base: set<string>)
    requires IsBuilt(parent, base)
    ensures IsBuilt(Qualify(parent, x), base)
  {
    var m :| m in base && (parent == m || Extends(parent, m));
    QualifyExtends(parent, x);
    if Extends(parent, m) {
      ExtendsTransitive(Qualify(parent, x), parent, m);
    }
  }

  /** A plain name that is not a base name and has none below it was never used. */
  lemma NewNameIsUnused(d: Derived, base: set<string>, name: string, replaced: string)
    requires BuiltFrom(d.used, base) && Unqualified(name) && "" !in d.used && d.live <= d.used
    requires name !in base && forall m :: m in base ==> !Extends(m, name)
    ensures NeverUsed(name, d, replaced)
  {
    forall n | n in d.used ensures n != name && !Extends(n, name) {
      assert IsBuilt(n, base);
      var m :| m in base && (n == m || Extends(n, m));
      if n != m && Extends(n, name) {
        BothAbove(n, m, name);
      }
    }
  }

  /** Of two names that a third was built from, one is the other or was built from it. */
  lemma BothAbove(n: string, m: string, name: string)
    requires Extends(n, m) && Extends(n, name) && Unqualified(name)
    ensures m == name || Extends(m, name)
  {
    assert forall i :: 0 <= i < |name| ==> name[i] == n[i];
    assert |m| >= |name|;
    assert m[..|name|] == n[..|m|][..|name|] == n[..|name|];
    if |name| < |m| {
      assert m[|name|] == n[..|m|][|name|];
    }
  }

  /** What is kept by every directive that is accepted. */
  ghost predicate Kept(stage: Stage, base: set<string>)
    reads stage
  {
    stage.Valid() && BuiltFrom(Replay(stage.roots, stage.splits).value.used, base)
  }

  lemma AppendedIsBuilt(roots: set<string>, splits: seq<SplitHistory.Split>, s: SplitHistory.Split, base: set<string>)
    requires Replay(roots, splits).Some? && BuiltFrom(Replay(roots, splits).value.used, base)
    requires Replay(roots, splits + [s]).Some? && forall n :: n in Produced(s) ==> IsBuilt(n, base)
    ensures BuiltFrom(Replay(roots, splits + [s]).value.used, base)
  {
    ReplayAppend(roots, splits, s);
  }

  lemma LiveIsBuilt(roots: set<string>, splits: seq<SplitHistory.Split>, dims: seq<Dim>, i: nat, base: set<string>)
    requires Explains(roots, splits, dims) && i < |dims| && BuiltFrom(Replay(roots, splits).value.used, base)
    ensures IsBuilt(dims[i].name, base)
  {
    LiveIsUsed(roots, splits);
    assert LoopNames(dims)[i] in NameSet(dims);
  }

  method PerformSplit(stage: Stage, d: Directive, ghost base: set<string>) returns (r: Result)
    requires d.Split? && Kept(stage, base) && PlainNames(d) && NewNames(d, base)
    modifies stage
    ensures r == Ok ==> Kept(stage, base)
    ensures r == Ok && stage.isInit && LeavesTails(d) && old(RoundsCovered(stage.splits)) ==>
              RoundsCovered(stage.splits)
  {
    ghost var dims, splits := stage.dims, stage.splits;
    ghost var k, s;
    r, k, s := SplitLoop(stage, d);
    if r == Ok {
      SplitIsBuilt(stage.roots, dims, splits, k, d.inner, d.outer, s, base);
    }
  }

  /** A split, with the loop that is split and the new entry. */
  method SplitLoop(stage: Stage, d: Directive) returns (r: Result, ghost k: nat, ghost s: SplitHistory.Split)
    requires d.Split? && stage.Valid() && PlainNames(d) && d.outer != d.inner
    modifies stage
    ensures stage.roots == old(stage.roots)
    ensures r == Ok ==>
              && stage.Valid() && k < |old(stage.dims)| && stage.splits == old(stage.splits) + [s]
              && Produced(s) == {Qualify(old(stage.dims)[k].name, d.inner), Qualify(old(stage.dims)[k].name, d.outer)}
              && (stage.isInit && LeavesTails(d) && old(RoundsCovered(stage.splits)) ==> RoundsCovered(stage.splits))
  {
    ghost var dims, splits := stage.dims, stage.splits;
    r := stage.Split(d.oldVar, d.outer, d.inner, d.factor, d.exact, d.tail);
    k, s := 0, Entry("", "", "", 1, false, RoundUp, RenameVar);
    if r == Ok {
      k, s := SplitAt(dims, splits, stage.isInit, d.oldVar, d.outer, d.inner, d.factor, d.exact, d.tail, stage.dims,
                      stage.splits);
      if stage.isInit && LeavesTails(d) {
        AutoKeepsCovered(stage.roots, splits, s);
      }
    }
  }

  lemma SplitIsBuilt(roots: set<string>, dims: seq<Dim>, splits: seq<SplitHistory.Split>, k: nat, inner: string,
                     outer: string, s: SplitHistory.Split, base: set<string>)
    requires Explains(roots, splits, dims) && BuiltFrom(Replay(roots, splits).value.used, base) && k < |dims|
    requires Produced(s) == {Qualify(dims[k].name, inner), Qualify(dims[k].name, outer)}
    requires Replay(roots, splits + [s]).Some?
    ensures BuiltFrom(Replay(roots, splits + [s]).value.used, base)
  {
    LiveIsBuilt(roots, splits, dims, k, base);
    QualifiedIsBuilt(dims[k].name, inner, base);
    QualifiedIsBuilt(dims[k].name, outer, base);
    AppendedIsBuilt(roots, splits, s, base);
  }

  method PerformFuse(stage: Stage, d: Directive, ghost base: set<string>) returns (r: Result)
    requires d.Fuse? && Kept(stage, base) && PlainNames(d)
    modifies stage
    ensures r == Ok ==> Kept(stage, base)
    ensures r == Ok && stage.isInit && LeavesTails(d) && old(RoundsCovered(stage.splits)) ==>
              RoundsCovered(stage.splits)
  {
    ghost var dims, splits := stage.dims, stage.splits;
    ghost var k, s;
    r, k, s := FuseLoops(stage, d);
    if r == Ok {
      QualifiedLoopIsBuilt(stage.roots, dims, splits, k, d.fusedVar.name, s, base);
      AppendCovered(splits, s);
    }
  }

  /** A fuse, with the inner loop and the new entry. */
  method FuseLoops(stage: Stage, d: Directive) returns (r: Result, ghost k: nat, ghost s: SplitHistory.Split)
    requires d.Fuse? && stage.Valid() && PlainNames(d)
    modifies stage
    ensures stage.roots == old(stage.roots)
    ensures r == Ok ==>
              && stage.Valid() && k < |old(stage.dims)| && stage.splits == old(stage.splits) + [s]
              && s.kind == FuseVars && Produced(s) == {Qualify(old(stage.dims)[k].name, d.fusedVar.name)}
  {
    ghost var dims, splits := stage.dims, stage.splits;
    r := stage.Fuse(d.innerVar, d.outerVar, d.fusedVar);
    k, s := 0, Entry("", "", "", 1, false, RoundUp, RenameVar);
    if r == Ok {
      k, s := FusedLoop(dims, splits, d, stage.dims, stage.splits);
    }
  }

  lemma FusedLoop(dims: seq<Dim>, splits: seq<SplitHistory.Split>, d: Directive, dims': seq<Dim>,
                  splits': seq<SplitHistory.Split>) returns (k: nat, s: SplitHistory.Split)
    requires d.Fuse? && FuseEffect(dims, splits, d.innerVar, d.outerVar, d.fusedVar, Ok, dims', splits')
    ensures k < |dims| && splits' == splits + [s]
    ensures s.kind == FuseVars && Produced(s) == {Qualify(dims[k].name, d.fusedVar.name)}
  {
    var o, i, rest;
    o, i, rest, s := FusedAt(dims, splits, d.innerVar, d.outerVar, d.fusedVar, Ok, dims', splits');
    k :| 0 <= k < |dims| && dims[k] == rest[i];
  }

  /** An entry whose only new loop gets its name from a loop of the list. */
  lemma QualifiedLoopIsBuilt(roots: set<string>, dims: seq<Dim>, splits: seq<SplitHistory.Split>, k: nat, name: string,
                             s: SplitHistory.Split, base: set<string>)
    requires Explains(roots, splits, dims) && BuiltFrom(Replay(roots, splits).value.used, base) && k < |dims|
    requires Produced(s) == {Qualify(dims[k].name, name)} && Replay(roots, splits + [s]).Some?
    ensures BuiltFrom(Replay(roots, splits + [s]).value.used, base)
  {
    LiveIsBuilt(roots, splits, dims, k, base);
    QualifiedIsBuilt(dims[k].name, name, base);
    AppendedIsBuilt(roots, splits, s, base);
  }

  method PerformPurify(stage: Stage, d: Directive, ghost base: set<string>) returns (r: Result)
    requires d.Purify? && Kept(stage, base) && PlainNames(d) && NewNames(d, base)
    modifies stage
    ensures r == Ok ==> Kept(stage, base + {d.pureVar.name})
    ensures r == Ok && stage.isInit && LeavesTails(d) && old(RoundsCovered(stage.splits)) ==>
              RoundsCovered(stage.splits)
  {
    ghost var dims, splits := stage.dims, stage.splits;
    LiveIsUsed(stage.roots, splits);
    r := stage.Purify(d.rvar, d.pureVar);
    if r == Ok {
      ghost var i := FindLoop(dims, d.rvar.name);
      NewNameIsUnused(Replay(stage.roots, splits).value, base, d.pureVar.name, dims[i].name);
      PurifiedIsBuilt(stage.roots, splits, stage.splits[|splits|], d.pureVar.name, base);
      AppendCovered(splits, stage.splits[|splits|]);
    }
  }

  lemma PurifiedIsBuilt(roots: set<string>, splits: seq<SplitHistory.Split>, s: SplitHistory.Split, v: string,
                        base: set<string>)
    requires Replay(roots, splits).Some? && BuiltFrom(Replay(roots, splits).value.used, base)
    requires Produced(s) == {v} && Replay(roots, splits + [s]).Some?
    ensures BuiltFrom(Replay(roots, splits + [s]).value.used, base + {v})
  {
    var base' := base + {v};
    forall n | IsBuilt(n, base) ensures IsBuilt(n, base') {
      var m :| m in base && (n == m || Extends(n, m));
      assert m in base';
    }
    assert v in base';
    AppendedIsBuilt(roots, splits, s, base');
  }

  method PerformRename(stage: Stage, d: Directive, ghost base: set<string>) returns (r: Result)
    requires d.Rename? && Kept(stage, base) && PlainNames(d)
    modifies stage
    ensures r == Ok ==> Kept(stage, base)
    ensures r == Ok && stage.isInit && LeavesTails(d) && old(RoundsCovered(stage.splits)) ==>
              RoundsCovered(stage.splits)
  {
    ghost var dims, splits := stage.dims, stage.splits;
    r := stage.Rename(d.oldName, d.newName);
    if r == Ok {
      RenamedIsBuilt(stage.roots, splits, dims, FindLoop(dims, d.oldName.name), d.newName.name, d.oldName.isRVar,
                     stage.splits, base);
    }
  }

  lemma RenamedIsBuilt(roots: set<string>, splits: seq<SplitHistory.Split>, dims: seq<Dim>, i: nat, x: string,
                       isRVar: bool, splits': seq<SplitHistory.Split>, base: set<string>)
    requires Explains(roots, splits, dims) && InnerNamed(splits) && i < |dims| && Unqualified(x)
    requires BuiltFrom(Replay(roots, splits).value.used, base) && Replay(roots, splits').Some?
    requires var oldName, newName := dims[i].name, Qualify(dims[i].name, x);
             match RenameDefinition(splits, oldName, newName)
             case Rewritten(s) => splits' == s
             case Undefined => splits' == splits + [RenameEntry(oldName, newName, isRVar)]
             case Blocked => true
    requires !RenameDefinition(splits, dims[i].name, Qualify(dims[i].name, x)).Blocked?
    ensures BuiltFrom(Replay(roots, splits').value.used, base)
    ensures RoundsCovered(splits) ==> RoundsCovered(splits')
  {
    var was, name := dims[i].name, Qualify(dims[i].name, x);
    LiveIsUsed(roots, splits);
    LiveIsBuilt(roots, splits, dims, i, base);
    QualifiedIsBuilt(was, x, base);
    assert LoopNames(dims)[i] in NameSet(dims);
    QualifiedIsFresh(roots, splits, was, x);
    RenameKeepsHistory(roots, splits, was, name);
    RenameKeepsCovered(roots, splits, was, name);
    if RenameDefinition(splits, was, name).Undefined? {
      AppendCovered(splits, RenameEntry(was, name, isRVar));
      AppendedIsBuilt(roots, splits, RenameEntry(was, name, isRVar), base);
    }
  }

  method PerformRemove(stage: Stage, d: Directive, ghost base: set<string>) returns (r: Result)
    requires d.Remove? && Kept(stage, base)
    modifies stage
    ensures r == Ok ==> Kept(stage, base)
  {
    ghost var dims, splits, roots := stage.dims, stage.splits, stage.roots;
    r := stage.Remove(d.name);
    if r == Ok {
      ghost var i :| 0 <= i < |dims| && dims[i].name == d.name;
      assert LoopNames(dims)[i] in NameSet(dims);
      RemoveKeepsHistory(roots, splits, {d.name}, d.name);
    }
  }

  method Perform(stage: Stage, d: Directive, ghost base: set<string>) returns (r: Result)
    requires Kept(stage, base) && PlainNames(d) && NewNames(d, base)
    modifies stage
    ensures r == Ok ==> Kept(stage, BaseAfter(d, base))
    ensures r == Ok && stage.isInit && LeavesTails(d) && old(RoundsCovered(stage.splits)) ==>
              RoundsCovered(stage.splits)
  {
    match d
    case Split(_, _, _, _, _, _) => r := PerformSplit(stage, d, base);
    case Fuse(_, _, _) => r := PerformFuse(stage, d, base);
    case Purify(_, _) => r := PerformPurify(stage, d, base);
    case Rename(_, _) => r := PerformRename(stage, d, base);
    case Remove(_) => r := PerformRemove(stage, d, base);
    case Reorder(vars, commutes) => r := stage.Reorder(vars, commutes);
  }

  ghost predicate AllNewNames(script: seq<Directive>, base: set<string>)
    decreases script
  {
    script == [] ||
    (PlainNames(script[0]) && NewNames(script[0], base) && AllNewNames(script[1..], BaseAfter(script[0], base)))
  }

  /**
   A script of directives, up to the first that is refused.  If all are accepted, and new names are new, the
   history explains the loops; so `UpdateStageIsSound` is about every such script.  If it belongs to a pure
   definition, removes no loop and never asks for rounding up, so is `PureStageIsSound`.
   */
  method PerformAll(stage: Stage, script: seq<Directive>, ghost base: set<string>) returns (r: Result)
    requires stage.Valid() && BuiltFrom(Replay(stage.roots, stage.splits).value.used, base) && AllNewNames(script, base)
    modifies stage
    ensures r == Ok ==> stage.Valid()
    ensures r == Ok && stage.isInit && old(RoundsCovered(stage.splits)) && AllLeaveTails(script) ==>
              RoundsCovered(stage.splits)
  {
    ghost var names := base;
    ghost var covered := RoundsCovered(stage.splits) && AllLeaveTails(script);
    for i := 0 to |script|
      invariant Kept(stage, names) && AllNewNames(script[i..], names)
      invariant stage.isInit && covered ==> RoundsCovered(stage.splits)
    {
      assert script[i..][0] == script[i] && script[i..][1..] == script[i + 1..];
      r := Perform(stage, script[i], names);
      if r != Ok {
        return;
      }
      names := BaseAfter(script[i], names);
    }
    r := Ok;
  }

  /** The names of the loops that a stage starts with can be taken as base. */
  lemma FirstNames(stage: Stage)
    requires stage.Valid() && stage.splits == []
    ensures BuiltFrom(Replay(stage.roots, stage.splits).value.used, NameSet(stage.dims))
  {
  }

  lemma FirstLoop(name: string, dims: seq<Dim>)
    requires |dims| >= 1 && dims[0].name == name
    ensures FindLoop(dims, name) == 0
  {
  }

  lemma SecondLoop(name: string, dims: seq<Dim>)
    requires |dims| == 2 && !VarNameMatch(dims[0].name, name) && VarNameMatch(dims[1].name, name)
    ensures FindLoop(dims, name) == 1
  {
    assert dims[1..][0] == dims[1];
  }

  method Vectorize() returns (stage: Stage, r: Result)
    ensures r == Ok && fresh(stage) && stage.Valid() && stage.isInit
    ensures LoopNames(stage.dims) == ["x.v", "x.x"]
    ensures stage.splits == [Entry("x", "x.x", "x.v", 8, false, ShiftInwards, SplitVar)]
  {
    var dims := [Dim("x", Serial, PureVar)];
    stage := new Stage(dims, true);
    FirstLoop("x", stage.dims);
    assert !NamesInUse(stage.dims, "x", "x", "v");
    assert !CoveredByLarger(stage.splits, "x", 8);
    r := stage.Split("x", "x", "v", 8, false, Auto);
    assert Qualify("x", "v") == "x.v" && Qualify("x", "x") == "x.x";
  }

  /** `f.vectorize(x, 8).unroll(x, 4)`: the first split shifts inwards, and the second rounds up below it. */
  method VectorizeThenUnroll() returns (stage: Stage, r: Result)
    ensures r == Ok && stage.Valid() && |stage.splits| == 2
    ensures stage.splits[0].tail == ShiftInwards && stage.splits[1].tail == RoundUp
  {
    stage, r := Vectorize();
    var names := LoopNames(stage.dims);
    assert stage.dims[0].name == names[0] && stage.dims[1].name == names[1];
    SecondLoop("x", stage.dims);
    assert !NamesInUse(stage.dims, "x", "x", "u");
    assert Descends(stage.splits, "x.x", 0, 0);
    assert CoveredBy(stage.splits, "x.x", 8);
    assert CoveredByLarger(stage.splits, "x.x", 4);
    r := stage.Split("x", "x", "u", 4, false, Auto);
  }
}
