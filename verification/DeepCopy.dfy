/**
 `deep_copy` of an environment of Funcs.  The copies call each other where the originals did, call the
 same Funcs outside the environment, and evaluate to the same values.
 */
module DeepCopy {
  import opened Collections
  import opened FunctionGraph

  // ----- Substituting calls -----

  /** Where a call goes after substitution, and the name it carries. */
  datatype Target = Target(func: FunctionContents, name: string)

  type Substitution = map<FunctionContents, Target>

  /** `SubstituteCalls`: calls of Funcs in the table are redirected, inside out. */
  function SubstituteExpr(e: Expr, subs: Substitution): Expr
    decreases e, 1
  {
    match e
    case Op(code, es) => Op(code, SubstituteAll(es, subs))
    case Call(n, f, es, i) =>
      var args := SubstituteAll(es, subs);
      if f != null && f in subs then Call(subs[f].name, subs[f].func, args, i) else Call(n, f, args, i)
    case _ => e
  }

  function SubstituteAll(es: seq<Expr>, subs: Substitution): (r: seq<Expr>)
    ensures |r| == |es|
    decreases es, 0
  {
    if es == [] then [] else [SubstituteExpr(es[0], subs)] + SubstituteAll(es[1..], subs)
  }

  function SubstituteDefinition(d: Definition, subs: Substitution): Definition {
    Definition(SubstituteAll(d.args, subs), SubstituteAll(d.values, subs), d.rdom, SubstituteExpr(d.cond, subs))
  }

  function SubstituteInit(d: Option<Definition>, subs: Substitution): Option<Definition> {
    match d
    case None => None
    case Some(v) => Some(SubstituteDefinition(v, subs))
  }

  function SubstituteUpdates(ds: seq<Definition>, subs: Substitution): (r: seq<Definition>)
    ensures |r| == |ds|
    ensures forall i :: 0 <= i < |ds| ==> r[i] == SubstituteDefinition(ds[i], subs)
  {
    seq(|ds|, i requires 0 <= i < |ds| => SubstituteDefinition(ds[i], subs))
  }

  // ----- The copying -----

  function AsSet(fs: seq<FunctionContents>): set<FunctionContents> {
    set f | f in fs
  }

  /** The table sends the Funcs of the environment to their copies and nothing else anywhere. */
  ghost predicate Redirects(subs: Substitution, env: seq<FunctionContents>, copies: seq<FunctionContents>)
    reads env`name
  {
    && |copies| == |env|
    && subs.Keys == (set f | f in env)
    && (forall i :: 0 <= i < |env| ==> env[i] in subs && subs[env[i]] == Target(copies[i], env[i].name))
  }

  /** `Function::deep_copy` of one Func into an empty one. */
  method CopyContents(f: FunctionContents, copy: FunctionContents)
    requires f != copy && copy.updates == []
    modifies copy
    ensures copy.name == f.name && copy.args == f.args && copy.frozen == f.frozen
    ensures copy.initDef == f.initDef && copy.updates == f.updates && copy.rank == f.rank
  {
    copy.rank := f.rank;
    copy.name := f.name;
    copy.args := f.args;
    copy.frozen := f.frozen;
    copy.initDef := f.initDef;
    for i := 0 to |f.updates|
      invariant copy.updates == f.updates[..i]
      invariant copy.name == f.name && copy.args == f.args && copy.frozen == f.frozen && copy.initDef == f.initDef
      invariant copy.rank == f.rank
    {
      copy.updates := copy.updates + [f.updates[i]];
    }
  }

  /** `Function::substitute_calls`. */
  method SubstituteCalls(f: FunctionContents, subs: Substitution)
    modifies f`initDef, f`updates, f`calls
    ensures f.initDef == SubstituteInit(old(f.initDef), subs)
    ensures f.updates == SubstituteUpdates(old(f.updates), subs)
    ensures f.Recorded()
  {
    f.initDef := SubstituteInit(f.initDef, subs);
    var updates := f.updates;
    for i := 0 to |updates|
      invariant |f.updates| == |updates| && f.initDef == SubstituteInit(old(f.initDef), subs)
      invariant forall k :: 0 <= k < |updates| ==>
        f.updates[k] == if k < i then SubstituteDefinition(updates[k], subs) else updates[k]
    {
      f.updates := f.updates[i := SubstituteDefinition(updates[i], subs)];
    }
    f.calls := Calls(f);
  }

  /** A copy of `f` with its calls redirected. */
  ghost predicate CopyOf(f: FunctionContents, copy: FunctionContents, subs: Substitution)
    reads f, copy
  {
    && copy.name == f.name && copy.args == f.args && copy.frozen == f.frozen
    && copy.initDef == SubstituteInit(f.initDef, subs)
    && copy.updates == SubstituteUpdates(f.updates, subs)
    && copy.rank == f.rank && copy.Recorded()
  }

  ghost predicate ClosedAt(fs: set<FunctionContents>, f: FunctionContents)
    reads f
  {
    f.Recorded() && f.calls <= fs
  }

  /** An ordered set of Funcs that holds the environment and everything it calls. */
  ghost predicate Surrounds(fs: set<FunctionContents>, env: seq<FunctionContents>)
    reads fs
  {
    AsSet(env) <= fs && Ordered(fs) && forall f {:trigger ClosedAt(fs, f)} :: f in fs ==> ClosedAt(fs, f)
  }

  /** `deep_copy` of the Funcs of an environment.  The originals are not touched. */
  method DeepCopyEnvironment(env: seq<FunctionContents>, ghost fs: set<FunctionContents>)
    returns (copies: seq<FunctionContents>, subs: Substitution)
    requires Distinct(env)
    ensures Redirects(subs, env, copies) && Distinct(copies)
    ensures forall i :: 0 <= i < |copies| ==> fresh(copies[i])
    ensures forall i :: 0 <= i < |env| ==> CopyOf(env[i], copies[i], subs)
    ensures Surrounds(fs, env) ==> Copied(env, copies, subs, fs)
  {
    copies, subs := EmptyCopies(env);
    FillCopies(env, copies);
    RedirectCopies(env, copies, subs);
  }

  method EmptyCopies(env: seq<FunctionContents>) returns (copies: seq<FunctionContents>, subs: Substitution)
    requires Distinct(env)
    ensures Redirects(subs, env, copies) && Distinct(copies)
    ensures forall i :: 0 <= i < |copies| ==> fresh(copies[i]) && copies[i].updates == []
  {
    copies, subs := [], map[];
    for i := 0 to |env|
      invariant Redirects(subs, env[..i], copies) && Distinct(copies)
      invariant forall k :: 0 <= k < |copies| ==> fresh(copies[k]) && copies[k].updates == []
    {
      var copy := new FunctionContents(env[i].name);
      copies := copies + [copy];
      subs := subs[env[i] := Target(copy, env[i].name)];
      assert env[..i + 1] == env[..i] + [env[i]];
    }
    assert env[..|env|] == env;
  }

  method FillCopies(env: seq<FunctionContents>, copies: seq<FunctionContents>)
    requires |copies| == |env| && Distinct(copies)
    requires forall i, j :: 0 <= i < |env| && 0 <= j < |copies| ==> env[i] != copies[j]
    requires forall i :: 0 <= i < |copies| ==> copies[i].updates == []
    modifies copies
    ensures forall i :: 0 <= i < |env| ==> Filled(env[i], copies[i])
  {
    for i := 0 to |env|
      invariant forall k :: i <= k < |env| ==> copies[k].updates == []
      invariant forall k :: 0 <= k < i ==> Filled(env[k], copies[k])
    {
      CopyContents(env[i], copies[i]);
    }
  }

  method RedirectCopies(env: seq<FunctionContents>, copies: seq<FunctionContents>, subs: Substitution)
    requires |copies| == |env| && Distinct(copies)
    requires forall i, j :: 0 <= i < |env| && 0 <= j < |copies| ==> env[i] != copies[j]
    requires forall i :: 0 <= i < |env| ==> Filled(env[i], copies[i])
    modifies copies
    ensures forall i :: 0 <= i < |env| ==> CopyOf(env[i], copies[i], subs)
  {
    for i := 0 to |env|
      invariant forall k :: 0 <= k < i ==> CopyOf(env[k], copies[k], subs)
      invariant forall k :: i <= k < |env| ==> Filled(env[k], copies[k])
    {
      RedirectCopy(env[i], copies[i], subs);
    }
  }

  method RedirectCopy(f: FunctionContents, copy: FunctionContents, subs: Substitution)
    requires f != copy && Filled(f, copy)
    modifies copy
    ensures CopyOf(f, copy, subs)
  {
    SubstituteCalls(copy, subs);
  }

  /** The state of a copy before its calls are redirected. */
  ghost predicate Filled(f: FunctionContents, copy: FunctionContents)
    reads f, copy
  {
    && copy.name == f.name && copy.args == f.args && copy.frozen == f.frozen
    && copy.initDef == f.initDef && copy.updates == f.updates && copy.rank == f.rank
  }

  /** The outputs become their copies; an output outside the environment is kept. */
  method CopyOutputs(outputs: seq<FunctionContents>, subs: Substitution) returns (r: seq<FunctionContents>)
    ensures |r| == |outputs|
    ensures forall i :: 0 <= i < |outputs| ==> r[i] == if outputs[i] in subs then subs[outputs[i]].func else outputs[i]
  {
    r := [];
    for i := 0 to |outputs|
      invariant |r| == i
      invariant forall k :: 0 <= k < i ==> r[k] == if outputs[k] in subs then subs[outputs[k]].func else outputs[k]
    {
      r := r + [if outputs[i] in subs then subs[outputs[i]].func else outputs[i]];
    }
  }

  // ----- No call is left behind -----

  /** After substitution no call targets a Func in the table; the other calls are the old ones. */
  lemma {:induction false} CalleesAfter(e: Expr, subs: Substitution)
    ensures Callees(SubstituteExpr(e, subs))
            == (set f | f in Callees(e) && f !in subs) + (set f | f in Callees(e) && f in subs :: subs[f].func)
    decreases e, 1
  {
    match e
    case Op(_, es) => CalleesAfterAll(es, subs);
    case Call(_, _, es, _) => CalleesAfterAll(es, subs);
    case _ =>
  }

  lemma {:induction false} CalleesAfterAll(es: seq<Expr>, subs: Substitution)
    ensures CalleesOf(SubstituteAll(es, subs))
            == (set f | f in CalleesOf(es) && f !in subs) + (set f | f in CalleesOf(es) && f in subs :: subs[f].func)
    decreases es, 0
  {
    if es != [] {
      CalleesAfter(es[0], subs);
      CalleesAfterAll(es[1..], subs);
      assert SubstituteAll(es, subs)[1..] == SubstituteAll(es[1..], subs);
    }
  }

  // ----- Values -----

  /** The definitions of a Func, as a value. */
  datatype FuncValue = FuncValue(args: seq<string>, initDef: Option<Definition>, updates: seq<Definition>)

  type Graph = map<FunctionContents, FuncValue>

  ghost function View(fs: set<FunctionContents>): Graph
    reads fs
  {
    map f | f in fs :: FuncValue(f.args, f.initDef, f.updates)
  }

  /** The meaning of operators and of Funcs outside the graph. */
  datatype Semantics = Semantics(op: (int, seq<int>) -> int, outside: (FunctionContents?, nat, seq<int>) -> int)

  function Bind(names: seq<string>, values: seq<int>): map<string, int>
    requires |names| <= |values|
  {
    if names == [] then map[] else Bind(names[..|names| - 1], values)[names[|names| - 1] := values[|names| - 1]]
  }

  function Lookup(env: map<string, int>, name: string): int {
    if name in env then env[name] else 0
  }

  /** The points of a reduction domain in order, the first variable fastest. */
  function Iterations(rdom: seq<RVarRange>): (r: seq<seq<int>>)
    ensures forall i :: 0 <= i < |r| ==> |r[i]| == |rdom|
  {
    if rdom == [] then [[]]
    else Spread(rdom[0].min, rdom[0].extent, Iterations(rdom[1..]), |rdom| - 1)
  }

  function Spread(min: int, n: nat, outer: seq<seq<int>>, width: nat): (r: seq<seq<int>>)
    requires forall i :: 0 <= i < |outer| ==> |outer[i]| == width
    ensures forall i :: 0 <= i < |r| ==> |r[i]| == width + 1
  {
    if outer == [] then []
    else
      var last := outer[|outer| - 1];
      Spread(min, n, outer[..|outer| - 1], width) + seq(n, i => [min + i] + last)
  }

  function RankOf(rank: map<FunctionContents, nat>, f: FunctionContents): nat {
    if f in rank then rank[f] else 0
  }

  /** How far the updates of a Func have run: not at all, or `j` iterations of update `k` after the earlier ones. */
  datatype Progress = Start | Reached(k: nat, j: nat)

  function ProgressRank(p: Progress): nat {
    if p.Start? then 0 else p.k + 1
  }

  function IterationRank(p: Progress): nat {
    if p.Start? then 0 else p.j
  }

  /**
   Component `c` of Func `f` at `point`, after `p` of its updates: each iteration of an update evaluates its
   left-hand side and predicate in the state before it and stores where they say.
   */
  ghost function ValueAt(s: Semantics, g: Graph, rank: map<FunctionContents, nat>, f: FunctionContents,
                         k: nat, j: nat, c: nat, point: seq<int>): int
    requires f in g
    decreases RankOf(rank, f), k + 1, j, 0
  {
    if k == 0 && j == 0 then
      if g[f].initDef.None? || c >= |g[f].initDef.value.values| || |g[f].args| != |point| then 0
      else Evaluate(s, g, rank, f, Start, g[f].initDef.value.values[c], Bind(g[f].args, point))
    else if j == 0 then
      var last := if k - 1 < |g[f].updates| then |Iterations(g[f].updates[k - 1].rdom)| else 0;
      ValueAt(s, g, rank, f, k - 1, last, c, point)
    else if k >= |g[f].updates| || j > |Iterations(g[f].updates[k].rdom)| || |g[f].args| != |point| then
      ValueAt(s, g, rank, f, k, j - 1, c, point)
    else
      var u := g[f].updates[k];
      var env := Bind(g[f].args, point) + Bind(RVarNames(u.rdom), Iterations(u.rdom)[j - 1]);
      var before := Reached(k, j - 1);
      if EvaluateAll(s, g, rank, f, before, u.args, env) == point
         && Evaluate(s, g, rank, f, before, u.cond, env) != 0 && c < |u.values|
      then Evaluate(s, g, rank, f, before, u.values[c], env)
      else ValueAt(s, g, rank, f, k, j - 1, c, point)
  }

  ghost function Evaluate(s: Semantics, g: Graph, rank: map<FunctionContents, nat>, f: FunctionContents,
                          p: Progress, e: Expr, env: map<string, int>): int
    requires f in g
    decreases RankOf(rank, f), ProgressRank(p), IterationRank(p), 1, e, 1
  {
    match e
    case Const(v) => v
    case Var(n) => Lookup(env, n)
    case RVar(n) => Lookup(env, n)
    case Op(code, es) => s.op(code, EvaluateAll(s, g, rank, f, p, es, env))
    case Call(_, h, es, i) =>
      var point := EvaluateAll(s, g, rank, f, p, es, env);
      if h == f then (if p.Start? then 0 else ValueAt(s, g, rank, f, p.k, p.j, i, point))
      else if h in g && RankOf(rank, h) < RankOf(rank, f) then ValueAt(s, g, rank, h, |g[h].updates|, 0, i, point)
      else s.outside(h, i, point)
  }

  ghost function EvaluateAll(s: Semantics, g: Graph, rank: map<FunctionContents, nat>, f: FunctionContents,
                             p: Progress, es: seq<Expr>, env: map<string, int>): (r: seq<int>)
    requires f in g
    ensures |r| == |es|
    decreases RankOf(rank, f), ProgressRank(p), IterationRank(p), 1, es, 0
  {
    if es == [] then []
    else [Evaluate(s, g, rank, f, p, es[0], env)] + EvaluateAll(s, g, rank, f, p, es[1..], env)
  }

  /** The value of a fully computed Func. */
  ghost function FuncAt(s: Semantics, g: Graph, rank: map<FunctionContents, nat>, f: FunctionContents, c: nat,
                        point: seq<int>): int
    requires f in g
  {
    ValueAt(s, g, rank, f, |g[f].updates|, 0, c, point)
  }

  // ----- What the variable checks are for -----

  ghost predicate SameVariables(names: set<string>, a: map<string, int>, b: map<string, int>) {
    forall n :: n in names ==> Lookup(a, n) == Lookup(b, n)
  }

  /** The value of an expression depends on the variables that it mentions only. */
  lemma {:induction false} EvaluateReads(s: Semantics, g: Graph, rank: map<FunctionContents, nat>, f: FunctionContents,
                                         p: Progress, e: Expr, a: map<string, int>, b: map<string, int>)
    requires f in g && SameVariables(FreeVars(e) + FreeRVars(e), a, b)
    ensures Evaluate(s, g, rank, f, p, e, a) == Evaluate(s, g, rank, f, p, e, b)
    decreases e, 1
  {
    match e
    case Op(_, es) => EvaluateAllReads(s, g, rank, f, p, es, a, b);
    case Call(_, _, es, _) => EvaluateAllReads(s, g, rank, f, p, es, a, b);
    case _ =>
  }

  lemma {:induction false} EvaluateAllReads(s: Semantics, g: Graph, rank: map<FunctionContents, nat>,
                                            f: FunctionContents, p: Progress, es: seq<Expr>, a: map<string, int>,
                                            b: map<string, int>)
    requires f in g && SameVariables(FreeVarsOf(es) + FreeRVarsOf(es), a, b)
    ensures EvaluateAll(s, g, rank, f, p, es, a) == EvaluateAll(s, g, rank, f, p, es, b)
    decreases es, 0
  {
    if es != [] {
      EvaluateReads(s, g, rank, f, p, es[0], a, b);
      EvaluateAllReads(s, g, rank, f, p, es[1..], a, b);
    }
  }

  /** A pure definition that is accepted gives a value that its arguments determine. */
  lemma AcceptedDefinitionIsAFunction(s: Semantics, g: Graph, rank: map<FunctionContents, nat>, f: FunctionContents,
                                      name: string, args: seq<string>, values: seq<Expr>, c: nat,
                                      a: map<string, int>, b: map<string, int>)
    requires f in g && c < |values| && DefineOutcome(false, name, args, values, false) == Ok
    requires SameVariables((set n | n in args), a, b)
    ensures Evaluate(s, g, rank, f, Start, values[c], a) == Evaluate(s, g, rank, f, Start, values[c], b)
  {
    DefineOutcomeMeans(false, name, args, values, false);
    FreeVarsAt(values, c);
    EvaluateReads(s, g, rank, f, Start, values[c], a, b);
  }

  lemma {:induction false} FreeVarsAt(es: seq<Expr>, c: nat)
    requires c < |es|
    ensures FreeVars(es[c]) <= FreeVarsOf(es) && FreeRVars(es[c]) <= FreeRVarsOf(es)
  {
    if c > 0 {
      FreeVarsAt(es[1..], c - 1);
    }
  }

  lemma {:induction false} EvaluateAllAt(s: Semantics, g: Graph, rank: map<FunctionContents, nat>, f: FunctionContents,
                                         p: Progress, es: seq<Expr>, env: map<string, int>, i: nat)
    requires f in g && i < |es|
    ensures EvaluateAll(s, g, rank, f, p, es, env)[i] == Evaluate(s, g, rank, f, p, es[i], env)
  {
    if i > 0 {
      EvaluateAllAt(s, g, rank, f, p, es[1..], env, i - 1);
    }
  }

  /**
   An accepted update reads its Func only at points that agree with the one it stores to, in every place where its
   left-hand side repeats the argument: so different values of that argument never meet.
   */
  lemma SelfCallsStayInSlice(s: Semantics, g: Graph, rank: map<FunctionContents, nat>, f: FunctionContents,
                             p: Progress, name: string, names: seq<string>, d: Definition, call: seq<Expr>, i: nat,
                             env: map<string, int>)
    requires f in g && |d.args| == |names| && UpdateBinds(name, names, d)
    requires call in SelfCallsOf(d.args, name) + SelfCallsOf(d.values, name) + SelfCallsOf([d.cond], name)
    requires i < |call| && i < |names| && names[i] != "" && d.args[i] == Var(names[i])
    ensures EvaluateAll(s, g, rank, f, p, call, env)[i] == EvaluateAll(s, g, rank, f, p, d.args, env)[i]
            == Lookup(env, names[i])
  {
    EvaluateAllAt(s, g, rank, f, p, call, env, i);
    EvaluateAllAt(s, g, rank, f, p, d.args, env, i);
    assert RepeatsAt(call, d.args, names);
  }

  // ----- Copies evaluate to the same values -----

  /** The target of `f` has the definitions of `f` with every call redirected. */
  ghost predicate MirrorsAt(g: Graph, g': Graph, subs: Substitution, f: FunctionContents)
    requires f in g
  {
    && f in subs && subs[f].func in g'
    && g'[subs[f].func] ==
         FuncValue(g[f].args, SubstituteInit(g[f].initDef, subs), SubstituteUpdates(g[f].updates, subs))
  }

  ghost predicate ApartAt(subs: Substitution, f: FunctionContents, h: FunctionContents) {
    f in subs && h in subs && subs[f].func == subs[h].func ==> f == h
  }

  /** `g'` is `g` with every Func replaced by its target and every call redirected. */
  ghost predicate Mirrors(g: Graph, g': Graph, subs: Substitution) {
    && subs.Keys == g.Keys
    && (forall f {:trigger MirrorsAt(g, g', subs, f)} :: f in g ==> MirrorsAt(g, g', subs, f))
    && (forall f, h {:trigger ApartAt(subs, f, h)} :: f in g && h in g ==> ApartAt(subs, f, h))
  }

  ghost function FuncCallees(v: FuncValue): set<FunctionContents> {
    (if v.initDef.Some? then DefinitionCallees(v.initDef.value) else {}) + UpdateCallees(v.updates)
  }

  lemma {:induction false} UpdateCalleesContain(ds: seq<Definition>, k: nat)
    requires k < |ds|
    ensures DefinitionCallees(ds[k]) <= UpdateCallees(ds)
  {
    if k < |ds| - 1 {
      UpdateCalleesContain(ds[..|ds| - 1], k);
    }
  }

  lemma {:induction false} CalleesContain(es: seq<Expr>, k: nat)
    requires k < |es|
    ensures Callees(es[k]) <= CalleesOf(es)
  {
    if k > 0 {
      CalleesContain(es[1..], k - 1);
    }
  }

  /** Calls to other Funcs of the graph go down in rank. */
  ghost predicate RanksDrop(g: Graph, rank: map<FunctionContents, nat>, f: FunctionContents,
                            called: set<FunctionContents>)
  {
    forall h :: h in called && h in g && h != f ==> RankOf(rank, h) < RankOf(rank, f)
  }

  /** A graph and its copy, with the meaning of the rest and termination ranks for both. */
  datatype Copying = Copying(s: Semantics, g: Graph, g': Graph, subs: Substitution,
                             rank: map<FunctionContents, nat>, rank': map<FunctionContents, nat>)
  {
    /** Originals call no copy, and calls go down in rank on both sides alike. */
    ghost predicate Valid() {
      && Mirrors(g, g', subs)
      && forall f {:trigger ValidAt(f)} :: f in g ==> ValidAt(f)
    }

    ghost predicate ValidAt(f: FunctionContents)
      requires f in g
    {
      && MayCall(f, FuncCallees(g[f]))
      && (f in subs ==> RankOf(rank', subs[f].func) == RankOf(rank, f))
    }

    /** What a subexpression of a definition of `f` may call. */
    ghost predicate MayCall(f: FunctionContents, called: set<FunctionContents>) {
      called !! g'.Keys && RanksDrop(g, rank, f, called)
    }
  }

  /** What is known of one Func and its copy. */
  lemma CopyFacts(w: Copying, f: FunctionContents)
    requires w.Valid() && f in w.g
    ensures f in w.subs && w.subs[f].func in w.g'
    ensures w.g'[w.subs[f].func] ==
              FuncValue(w.g[f].args, SubstituteInit(w.g[f].initDef, w.subs), SubstituteUpdates(w.g[f].updates, w.subs))
    ensures w.MayCall(f, FuncCallees(w.g[f])) && RankOf(w.rank', w.subs[f].func) == RankOf(w.rank, f)
  {
    assert MirrorsAt(w.g, w.g', w.subs, f) && w.ValidAt(f);
  }

  lemma {:induction false} SameValueAt(w: Copying, f: FunctionContents, k: nat, j: nat, c: nat, point: seq<int>)
    requires w.Valid() && f in w.g && f in w.subs && w.subs[f].func in w.g'
    ensures ValueAt(w.s, w.g', w.rank', w.subs[f].func, k, j, c, point) == ValueAt(w.s, w.g, w.rank, f, k, j, c, point)
    decreases RankOf(w.rank, f), k + 1, j, 0
  {
    CopyFacts(w, f);
    var v := w.g[f];
    if k == 0 && j == 0 {
      SameStart(w, f, c, point);
    } else if j == 0 {
      SameValueAt(w, f, k - 1, if k - 1 < |v.updates| then |Iterations(v.updates[k - 1].rdom)| else 0, c, point);
    } else {
      SameValueAt(w, f, k, j - 1, c, point);
      if k < |v.updates| && j <= |Iterations(v.updates[k].rdom)| && |v.args| == |point| {
        SameIteration(w, f, k, j, c, point);
      }
    }
  }

  lemma SameStart(w: Copying, f: FunctionContents, c: nat, point: seq<int>)
    requires w.Valid() && f in w.g && f in w.subs && w.subs[f].func in w.g'
    ensures ValueAt(w.s, w.g', w.rank', w.subs[f].func, 0, 0, c, point) == ValueAt(w.s, w.g, w.rank, f, 0, 0, c, point)
    decreases RankOf(w.rank, f), 0, 4
  {
    CopyFacts(w, f);
    var v := w.g[f];
    if v.initDef.Some? && c < |v.initDef.value.values| && |v.args| == |point| {
      SameComponent(w, f, Start, v.initDef.value, c, Bind(v.args, point));
    }
  }

  lemma SameIteration(w: Copying, f: FunctionContents, k: nat, j: nat, c: nat, point: seq<int>)
    requires w.Valid() && f in w.g && f in w.subs && w.subs[f].func in w.g' && j > 0 && k < |w.g[f].updates|
             && j <= |Iterations(w.g[f].updates[k].rdom)|
    requires |w.g[f].args| == |point|
    requires ValueAt(w.s, w.g', w.rank', w.subs[f].func, k, j - 1, c, point) ==
               ValueAt(w.s, w.g, w.rank, f, k, j - 1, c, point)
    ensures ValueAt(w.s, w.g', w.rank', w.subs[f].func, k, j, c, point) == ValueAt(w.s, w.g, w.rank, f, k, j, c, point)
    decreases RankOf(w.rank, f), k + 1, j - 1, 4
  {
    CopyFacts(w, f);
    var u := w.g[f].updates[k];
    var env := Bind(w.g[f].args, point) + Bind(RVarNames(u.rdom), Iterations(u.rdom)[j - 1]);
    UpdateCalleesContain(w.g[f].updates, k);
    assert w.MayCall(f, DefinitionCallees(u));
    SameStore(w, f, Reached(k, j - 1), u, env);
    if c < |u.values| {
      SameComponent(w, f, Reached(k, j - 1), u, c, env);
    }
  }

  /** One component of a definition's right-hand side. */
  lemma SameComponent(w: Copying, f: FunctionContents, p: Progress, d: Definition, c: nat, env: map<string, int>)
    requires w.Valid() && f in w.g && f in w.subs && w.subs[f].func in w.g' && w.MayCall(f, DefinitionCallees(d))
             && c < |d.values|
    ensures Evaluate(w.s, w.g', w.rank', w.subs[f].func, p, SubstituteDefinition(d, w.subs).values[c], env)
            == Evaluate(w.s, w.g, w.rank, f, p, d.values[c], env)
    decreases RankOf(w.rank, f), ProgressRank(p), IterationRank(p), 3
  {
    CopyFacts(w, f);
    CalleesContain(d.values, c);
    SubstituteAt(d.values, w.subs, c);
    SameEvaluate(w, f, p, d.values[c], env);
  }

  /** Where and whether an iteration stores. */
  lemma SameStore(w: Copying, f: FunctionContents, p: Progress, d: Definition, env: map<string, int>)
    requires w.Valid() && f in w.g && f in w.subs && w.subs[f].func in w.g' && w.MayCall(f, DefinitionCallees(d))
    ensures var d' := SubstituteDefinition(d, w.subs);
            && EvaluateAll(w.s, w.g', w.rank', w.subs[f].func, p, d'.args, env) ==
              EvaluateAll(w.s, w.g, w.rank, f, p, d.args, env)
            && Evaluate(w.s, w.g', w.rank', w.subs[f].func, p, d'.cond, env) ==
              Evaluate(w.s, w.g, w.rank, f, p, d.cond, env)
    decreases RankOf(w.rank, f), ProgressRank(p), IterationRank(p), 3
  {
    CopyFacts(w, f);
    SameEvaluateAll(w, f, p, d.args, env);
    SameEvaluate(w, f, p, d.cond, env);
  }

  lemma {:induction false} SubstituteAt(es: seq<Expr>, subs: Substitution, k: nat)
    requires k < |es|
    ensures SubstituteAll(es, subs)[k] == SubstituteExpr(es[k], subs)
  {
    if k > 0 {
      SubstituteAt(es[1..], subs, k - 1);
    }
  }

  lemma {:induction false} SameEvaluate(w: Copying, f: FunctionContents, p: Progress, e: Expr, env: map<string, int>)
    requires w.Valid() && f in w.g && f in w.subs && w.subs[f].func in w.g' && w.MayCall(f, Callees(e))
    ensures Evaluate(w.s, w.g', w.rank', w.subs[f].func, p, SubstituteExpr(e, w.subs), env)
            == Evaluate(w.s, w.g, w.rank, f, p, e, env)
    decreases RankOf(w.rank, f), ProgressRank(p), IterationRank(p), 2, e, 1
  {
    CopyFacts(w, f);
    match e
    case Const(_) =>
    case Var(_) =>
    case RVar(_) =>
    case Op(_, es) => SameEvaluateAll(w, f, p, es, env);
    case Call(n, h, es, i) =>
      SameEvaluateAll(w, f, p, es, env);
      SameCall(w, f, p, h, i, EvaluateAll(w.s, w.g, w.rank, f, p, es, env));
      var e' := SubstituteExpr(e, w.subs);
  }

  /** The value of a call of `h` in a definition of `f`, at an evaluated point. */
  ghost function CallValue(s: Semantics, g: Graph, rank: map<FunctionContents, nat>, f: FunctionContents,
                           p: Progress, h: FunctionContents?, i: nat, point: seq<int>): int
    requires f in g
  {
    if h == f then (if p.Start? then 0 else ValueAt(s, g, rank, f, p.k, p.j, i, point))
    else if h in g && RankOf(rank, h) < RankOf(rank, f) then ValueAt(s, g, rank, h, |g[h].updates|, 0, i, point)
    else s.outside(h, i, point)
  }

  lemma SameCall(w: Copying, f: FunctionContents, p: Progress, h: FunctionContents?, i: nat, point: seq<int>)
    requires w.Valid() && f in w.g && f in w.subs && w.subs[f].func in w.g' && (h != null ==> w.MayCall(f, {h}))
    ensures CallValue(w.s, w.g', w.rank', w.subs[f].func, p, if h in w.subs then w.subs[h].func else h, i, point)
            == CallValue(w.s, w.g, w.rank, f, p, h, i, point)
    decreases RankOf(w.rank, f), ProgressRank(p), IterationRank(p), 1
  {
    CopyFacts(w, f);
    if h == f {
      if p.Reached? {
        SameValueAt(w, f, p.k, p.j, i, point);
      }
    } else if h in w.g {
      CopyFacts(w, h);
      assert h in {h} && ApartAt(w.subs, f, h);
      SameValueAt(w, h, |w.g[h].updates|, 0, i, point);
    } else if h != null {
      assert h in {h} && h !in w.subs;
    }
  }

  lemma {:induction false} SameEvaluateAll(w: Copying, f: FunctionContents, p: Progress, es: seq<Expr>,
                                           env: map<string, int>)
    requires w.Valid() && f in w.g && f in w.subs && w.subs[f].func in w.g' && w.MayCall(f, CalleesOf(es))
    ensures EvaluateAll(w.s, w.g', w.rank', w.subs[f].func, p, SubstituteAll(es, w.subs), env)
            == EvaluateAll(w.s, w.g, w.rank, f, p, es, env)
    decreases RankOf(w.rank, f), ProgressRank(p), IterationRank(p), 2, es, 0
  {
    CopyFacts(w, f);
    if es != [] {
      SameEvaluate(w, f, p, es[0], env);
      SameEvaluateAll(w, f, p, es[1..], env);
      assert SubstituteAll(es, w.subs)[1..] == SubstituteAll(es[1..], w.subs);
    }
  }

  // ----- The copied environment -----

  ghost function Ranks(fs: set<FunctionContents>): map<FunctionContents, nat>
    reads fs
  {
    map f | f in fs :: f.rank
  }

  /** `copies` is the outcome of `DeepCopyEnvironment` on `env`, whose Funcs call Funcs of `fs` only. */
  ghost predicate Copied(env: seq<FunctionContents>, copies: seq<FunctionContents>, subs: Substitution,
                         fs: set<FunctionContents>)
    reads fs, env, copies
  {
    && Distinct(env) && Distinct(copies) && Redirects(subs, env, copies)
    && Surrounds(fs, env) && AsSet(copies) !! fs
    && forall i {:trigger CopyOf(env[i], copies[i], subs)} :: 0 <= i < |env| ==> CopyOf(env[i], copies[i], subs)
  }

  ghost function Pairing(env: seq<FunctionContents>, copies: seq<FunctionContents>, subs: Substitution,
                         s: Semantics): Copying
    reads env, copies
  {
    Copying(s, View(AsSet(env)), View(AsSet(copies)), subs, Ranks(AsSet(env)), Ranks(AsSet(copies)))
  }

  /** Each Func of the copied environment has the value of its original. */
  lemma CopiesEvaluateAlike(env: seq<FunctionContents>, copies: seq<FunctionContents>, subs: Substitution,
                            fs: set<FunctionContents>, s: Semantics, i: nat, c: nat, point: seq<int>)
    requires Copied(env, copies, subs, fs) && i < |env|
    ensures FuncAt(s, View(AsSet(copies)), Ranks(AsSet(copies)), copies[i], c, point)
            == FuncAt(s, View(AsSet(env)), Ranks(AsSet(env)), env[i], c, point)
  {
    var w := Pairing(env, copies, subs, s);
    PairingIsValid(env, copies, subs, fs, s);
    assert env[i] in w.g && copies[i] in w.g' && CopyOf(env[i], copies[i], subs);
    SameValueAt(w, env[i], |env[i].updates|, 0, c, point);
  }

  lemma PairingIsValid(env: seq<FunctionContents>, copies: seq<FunctionContents>, subs: Substitution,
                       fs: set<FunctionContents>, s: Semantics)
    requires Copied(env, copies, subs, fs)
    ensures Pairing(env, copies, subs, s).Valid()
  {
    forall f | f in env ensures PairsAt(Pairing(env, copies, subs, s), f) {
      PairingIsValidFor(env, copies, subs, fs, s, f);
    }
    TargetsApart(env, copies, subs);
    AssembleValid(Pairing(env, copies, subs, s));
  }

  ghost predicate PairsAt(w: Copying, f: FunctionContents) {
    f in w.g && MirrorsAt(w.g, w.g', w.subs, f) && w.ValidAt(f)
  }

  lemma AssembleValid(w: Copying)
    requires w.subs.Keys == w.g.Keys
    requires forall f {:trigger PairsAt(w, f)} :: f in w.g ==> PairsAt(w, f)
    requires forall f, h {:trigger ApartAt(w.subs, f, h)} :: f in w.g && h in w.g ==> ApartAt(w.subs, f, h)
    ensures w.Valid()
  {
    forall f | f in w.g ensures MirrorsAt(w.g, w.g', w.subs, f) && w.ValidAt(f) {
      assert PairsAt(w, f);
    }
  }

  lemma PairingIsValidFor(env: seq<FunctionContents>, copies: seq<FunctionContents>, subs: Substitution,
                          fs: set<FunctionContents>, s: Semantics, f: FunctionContents)
    requires Copied(env, copies, subs, fs) && f in env
    ensures PairsAt(Pairing(env, copies, subs, s), f)
  {
    var k :| 0 <= k < |env| && env[k] == f;
    PairingIsValidAt(env, copies, subs, fs, s, k);
  }

  lemma TargetsApart(env: seq<FunctionContents>, copies: seq<FunctionContents>, subs: Substitution)
    requires Distinct(copies) && Redirects(subs, env, copies)
    ensures forall f, h {:trigger ApartAt(subs, f, h)} :: f in AsSet(env) && h in AsSet(env) ==> ApartAt(subs, f, h)
  {
    forall f, h | f in AsSet(env) && h in AsSet(env) ensures ApartAt(subs, f, h) {
      var j :| 0 <= j < |env| && env[j] == f;
      var k :| 0 <= k < |env| && env[k] == h;
    }
  }

  lemma PairingIsValidAt(env: seq<FunctionContents>, copies: seq<FunctionContents>, subs: Substitution,
                         fs: set<FunctionContents>, s: Semantics, k: nat)
    requires Copied(env, copies, subs, fs) && k < |env|
    ensures var w := Pairing(env, copies, subs, s); MirrorsAt(w.g, w.g', subs, env[k]) && w.ValidAt(env[k])
  {
    assert CopyOf(env[k], copies[k], subs) && ClosedAt(fs, env[k]);
    OrderedRanksDrop(env, fs, env[k]);
    assert FuncCallees(View(AsSet(env))[env[k]]) == Calls(env[k]) <= fs;
  }

  lemma OrderedRanksDrop(env: seq<FunctionContents>, fs: set<FunctionContents>, f: FunctionContents)
    requires Ordered(fs) && AsSet(env) <= fs && f in env && f.Recorded()
    ensures RanksDrop(View(AsSet(env)), Ranks(AsSet(env)), f, FuncCallees(View(AsSet(env))[f]))
  {
    forall h | h in f.calls && h in env && h != f ensures h.rank < f.rank {
      assert CallsInOrder(Snapshot(fs), f, h);
    }
  }

  /** Calls after substitution: Funcs in the table are replaced by their targets, others are kept. */
  ghost function Redirected(called: set<FunctionContents>, subs: Substitution): set<FunctionContents> {
    (set f | f in called && f !in subs) + (set f | f in called && f in subs :: subs[f].func)
  }

  lemma DefinitionCalleesAfter(d: Definition, subs: Substitution)
    ensures DefinitionCallees(SubstituteDefinition(d, subs)) == Redirected(DefinitionCallees(d), subs)
  {
    CalleesAfterAll(d.args, subs);
    CalleesAfterAll(d.values, subs);
    CalleesAfter(d.cond, subs);
  }

  lemma {:induction false} UpdateCalleesAfter(ds: seq<Definition>, subs: Substitution)
    ensures UpdateCallees(SubstituteUpdates(ds, subs)) == Redirected(UpdateCallees(ds), subs)
  {
    if ds != [] {
      var front := ds[..|ds| - 1];
      assert SubstituteUpdates(ds, subs)[..|ds| - 1] == SubstituteUpdates(front, subs);
      UpdateCalleesAfter(front, subs);
      DefinitionCalleesAfter(ds[|ds| - 1], subs);
    }
  }

  /** A copy calls the copies of what its original called, the same Funcs outside, and no original. */
  lemma CopyCalls(f: FunctionContents, copy: FunctionContents, subs: Substitution)
    requires CopyOf(f, copy, subs) && f.Recorded()
    ensures copy.calls == Redirected(f.calls, subs)
  {
    UpdateCalleesAfter(f.updates, subs);
    if f.initDef.Some? {
      DefinitionCalleesAfter(f.initDef.value, subs);
    }
    var init := if f.initDef.Some? then DefinitionCallees(f.initDef.value) else {};
  }

  /** The copied environment is closed: its calls stay inside it or go where the originals' calls outside went. */
  lemma CopiesAreClosed(env: seq<FunctionContents>, copies: seq<FunctionContents>, subs: Substitution,
                        fs: set<FunctionContents>, i: nat)
    requires Copied(env, copies, subs, fs) && i < |env|
    ensures Calls(copies[i]) !! AsSet(env)
    ensures Calls(copies[i]) - AsSet(copies) == Calls(env[i]) - AsSet(env)
    ensures forall j :: 0 <= j < |env| ==> (copies[j] in Calls(copies[i]) <==> env[j] in Calls(env[i]))
  {
    assert CopyOf(env[i], copies[i], subs) && ClosedAt(fs, env[i]);
    CopyCalls(env[i], copies[i], subs);
    TargetsApart(env, copies, subs);
    forall f | f in env[i].calls && f in subs ensures subs[f].func in AsSet(copies) && subs[f].func !in fs {
      var k :| 0 <= k < |env| && env[k] == f;
    }
    forall j | 0 <= j < |env| && copies[j] in copies[i].calls ensures env[j] in env[i].calls {
      assert copies[j] in AsSet(copies);
      var f :| f in env[i].calls && f in subs && subs[f].func == copies[j];
      assert ApartAt(subs, f, env[j]);
    }
  }

  /** So the originals and the copies together are again free of cycles. */
  lemma CopiesKeepOrder(env: seq<FunctionContents>, copies: seq<FunctionContents>, subs: Substitution,
                        fs: set<FunctionContents>)
    requires Copied(env, copies, subs, fs)
    ensures Ordered(fs + AsSet(copies))
  {
    var m, m2 := Snapshot(fs), Snapshot(fs + AsSet(copies));
    forall f, g | f in m2 && g in m2[f].calls && g != f ensures CallsInOrder(m2, f, g) {
      if f in fs {
        assert CallsInOrder(m, f, g);
      } else {
        var k :| 0 <= k < |env| && copies[k] == f;
        CopyCallsInOrder(env, copies, subs, fs, k, g);
      }
    }
  }

  lemma CopyCallsInOrder(env: seq<FunctionContents>, copies: seq<FunctionContents>, subs: Substitution,
                         fs: set<FunctionContents>, k: nat, g: FunctionContents)
    requires Copied(env, copies, subs, fs) && k < |env| && g in copies[k].calls && g != copies[k]
    ensures CallsInOrder(Snapshot(fs + AsSet(copies)), copies[k], g)
  {
    assert CopyOf(env[k], copies[k], subs) && ClosedAt(fs, env[k]);
    CopyCalls(env[k], copies[k], subs);
    var h: FunctionContents :| h in env[k].calls && g == if h in subs then subs[h].func else h;
    assert CallsInOrder(Snapshot(fs), env[k], h);
    if h in subs {
      var j :| 0 <= j < |env| && env[j] == h;
      assert CopyOf(env[j], copies[j], subs);
    }
  }
}
