/**
 The graph of Funcs: definitions that call other Funcs, the freezing that keeps the graph acyclic, and
 the deep copy of a whole environment.
 */
module FunctionGraph {
  import opened Collections

  /** Expressions; operators are named by a code and interpreted by `Semantics`. */
  datatype Expr =
    | Const(value: int)
    | Var(name: string)
    | RVar(name: string)
    | Op(code: int, operands: seq<Expr>)
    | Call(name: string, func: FunctionContents?, args: seq<Expr>, valueIndex: nat)

  /** One reduction variable. */
  datatype RVarRange = RVarRange(name: string, min: int, extent: nat)

  /** `args` is the left-hand side; a nonzero `cond` lets an iteration store. */
  datatype Definition = Definition(args: seq<Expr>, values: seq<Expr>, rdom: seq<RVarRange>, cond: Expr)

  class FunctionContents {
    var name: string
    var args: seq<string>
    var initDef: Option<Definition>
    var updates: seq<Definition>
    var frozen: bool
    /** Larger than the rank of every other Func this one calls. */
    ghost var rank: nat
    /** The Funcs its definitions call. */
    ghost var calls: set<FunctionContents>

    constructor (name: string)
      ensures this.name == name && args == [] && initDef == None && updates == [] && !frozen && rank == 0 && calls == {}
    {
      this.name, args, initDef, updates, frozen, rank, calls := name, [], None, [], false, 0, {};
    }

    /** `calls` is what the definitions say. */
    ghost predicate Recorded()
      reads this`calls, this`initDef, this`updates
    {
      calls == Calls(this)
    }
  }

  // ----- Calls -----

  ghost function Callees(e: Expr): set<FunctionContents> {
    match e
    case Op(_, es) => CalleesOf(es)
    case Call(_, f, es, _) => (if f == null then {} else {f}) + CalleesOf(es)
    case _ => {}
  }

  ghost function CalleesOf(es: seq<Expr>): set<FunctionContents> {
    if es == [] then {} else Callees(es[0]) + CalleesOf(es[1..])
  }

  ghost function DefinitionCallees(d: Definition): set<FunctionContents> {
    CalleesOf(d.args) + CalleesOf(d.values) + Callees(d.cond)
  }

  ghost function UpdateCallees(ds: seq<Definition>): set<FunctionContents> {
    if ds == [] then {} else UpdateCallees(ds[..|ds| - 1]) + DefinitionCallees(ds[|ds| - 1])
  }

  /** The Funcs that the definitions of `f` call, itself included where it refers to itself. */
  ghost function Calls(f: FunctionContents): set<FunctionContents>
    reads f`initDef, f`updates
  {
    (if f.initDef.Some? then DefinitionCallees(f.initDef.value) else {}) + UpdateCallees(f.updates)
  }

  // ----- Freezing -----

  /** What ordering needs to know of a Func. */
  datatype Node = Node(calls: set<FunctionContents>, frozen: bool, rank: nat)

  ghost function Snapshot(fs: set<FunctionContents>): map<FunctionContents, Node>
    reads fs`calls, fs`frozen, fs`rank
  {
    map f | f in fs :: Node(f.calls, f.frozen, f.rank)
  }

  ghost predicate CallsInOrder(m: map<FunctionContents, Node>, f: FunctionContents, g: FunctionContents)
    requires f in m
  {
    g in m && m[g].frozen && m[g].rank < m[f].rank
  }

  ghost predicate OrderedNodes(m: map<FunctionContents, Node>) {
    forall f, g :: f in m && g in m[f].calls && g != f ==> CallsInOrder(m, f, g)
  }

  /** Every call from one Func to another is to a frozen Func of smaller rank. */
  ghost predicate Ordered(fs: set<FunctionContents>)
    reads fs`calls, fs`frozen, fs`rank
  {
    OrderedNodes(Snapshot(fs))
  }

  /** The Funcs called in `e` under a name other than `name`. */
  ghost function OtherCallees(e: Expr, name: string): (r: set<FunctionContents>)
    ensures r <= Callees(e)
  {
    match e
    case Op(_, es) => OtherCalleesOf(es, name)
    case Call(n, f, es, _) => (if f == null || n == name then {} else {f}) + OtherCalleesOf(es, name)
    case _ => {}
  }

  ghost function OtherCalleesOf(es: seq<Expr>, name: string): (r: set<FunctionContents>)
    ensures r <= CalleesOf(es)
  {
    if es == [] then {} else OtherCallees(es[0], name) + OtherCalleesOf(es[1..], name)
  }

  /** `FreezeFunctions`: every Func called in `e` under a name other than `name` is marked frozen. */
  method FreezeCalled(e: Expr, name: string, ghost fs: set<FunctionContents>)
    requires Callees(e) <= fs
    modifies fs`frozen
    ensures forall g :: g in fs ==> g.frozen == (old(g.frozen) || g in OtherCallees(e, name))
    decreases e, 1
  {
    match e
    case Op(_, es) => FreezeAllCalled(es, name, fs);
    case Call(n, f, es, _) =>
      FreezeAllCalled(es, name, fs);
      if f != null && n != name {
        f.frozen := true;
      }
    case _ =>
  }

  method FreezeAllCalled(es: seq<Expr>, name: string, ghost fs: set<FunctionContents>)
    requires CalleesOf(es) <= fs
    modifies fs`frozen
    ensures forall g :: g in fs ==> g.frozen == (old(g.frozen) || g in OtherCalleesOf(es, name))
    decreases es, 0
  {
    if es != [] {
      FreezeCalled(es[0], name, fs);
      FreezeAllCalled(es[1..], name, fs);
    }
  }

  // ----- Checking variables -----

  /**
   `CheckVars`: variables are pure arguments or reduction variables of the one domain, and self-calls repeat
   the pure arguments.  In a pure definition any reduction variable passes here and is refused later.
   */
  predicate VarsBound(e: Expr, self: string, pureArgs: seq<string>, rvars: Option<seq<string>>)
    decreases e, 1
  {
    match e
    case Const(_) => true
    case Var(n) => n in pureArgs
    case RVar(n) => rvars.Some? ==> n in rvars.value
    case Op(_, es) => AllVarsBound(es, self, pureArgs, rvars)
    case Call(n, _, es, _) =>
      && AllVarsBound(es, self, pureArgs, rvars)
      && (n == self ==> forall i :: 0 <= i < |es| && i < |pureArgs| && pureArgs[i] != "" ==> es[i] == Var(pureArgs[i]))
  }

  predicate AllVarsBound(es: seq<Expr>, self: string, pureArgs: seq<string>, rvars: Option<seq<string>>)
    decreases es, 0
  {
    es == [] || (VarsBound(es[0], self, pureArgs, rvars) && AllVarsBound(es[1..], self, pureArgs, rvars))
  }

  predicate MentionsRVar(e: Expr)
    decreases e, 1
  {
    match e
    case RVar(_) => true
    case Op(_, es) => AnyMentionsRVar(es)
    case Call(_, _, es, _) => AnyMentionsRVar(es)
    case _ => false
  }

  predicate AnyMentionsRVar(es: seq<Expr>)
    decreases es, 0
  {
    es != [] && (MentionsRVar(es[0]) || AnyMentionsRVar(es[1..]))
  }

  function RVarNames(rdom: seq<RVarRange>): (r: seq<string>)
    ensures |r| == |rdom|
  {
    seq(|rdom|, i requires 0 <= i < |rdom| => rdom[i].name)
  }

  /** The left-hand-side positions that repeat the pure argument; "" elsewhere. */
  function PureArgs(args: seq<Expr>, names: seq<string>): (r: seq<string>)
    requires |args| == |names|
    ensures |r| == |args|
  {
    seq(|args|, i requires 0 <= i < |args| => if args[i] == Var(names[i]) then names[i] else "")
  }

  // ----- What the checks mean -----

  /** The pure variables in `e`. */
  ghost function FreeVars(e: Expr): set<string> {
    match e
    case Var(n) => {n}
    case Op(_, es) => FreeVarsOf(es)
    case Call(_, _, es, _) => FreeVarsOf(es)
    case _ => {}
  }

  ghost function FreeVarsOf(es: seq<Expr>): set<string> {
    if es == [] then {} else FreeVars(es[0]) + FreeVarsOf(es[1..])
  }

  /** The reduction variables in `e`. */
  ghost function FreeRVars(e: Expr): set<string> {
    match e
    case RVar(n) => {n}
    case Op(_, es) => FreeRVarsOf(es)
    case Call(_, _, es, _) => FreeRVarsOf(es)
    case _ => {}
  }

  ghost function FreeRVarsOf(es: seq<Expr>): set<string> {
    if es == [] then {} else FreeRVars(es[0]) + FreeRVarsOf(es[1..])
  }

  /** The arguments of the calls under the name `self`. */
  ghost function SelfCalls(e: Expr, self: string): set<seq<Expr>> {
    match e
    case Op(_, es) => SelfCallsOf(es, self)
    case Call(n, _, es, _) => SelfCallsOf(es, self) + if n == self then {es} else {}
    case _ => {}
  }

  ghost function SelfCallsOf(es: seq<Expr>, self: string): set<seq<Expr>> {
    if es == [] then {} else SelfCalls(es[0], self) + SelfCallsOf(es[1..], self)
  }

  /** Each call has the variable `pureArgs[i]` in place `i`, wherever that is not empty. */
  ghost predicate AllRepeat(calls: set<seq<Expr>>, pureArgs: seq<string>) {
    forall es, i :: es in calls && 0 <= i < |es| && i < |pureArgs| && pureArgs[i] != "" ==> es[i] == Var(pureArgs[i])
  }

  lemma {:induction false} VarsBoundMeans(e: Expr, self: string, pureArgs: seq<string>, rvars: Option<seq<string>>)
    ensures VarsBound(e, self, pureArgs, rvars) <==>
              && (forall n :: n in FreeVars(e) ==> n in pureArgs)
              && (rvars.Some? ==> forall n :: n in FreeRVars(e) ==> n in rvars.value)
              && AllRepeat(SelfCalls(e, self), pureArgs)
    decreases e, 1
  {
    match e
    case Op(_, es) => AllVarsBoundMeans(es, self, pureArgs, rvars);
    case Call(_, _, es, _) => AllVarsBoundMeans(es, self, pureArgs, rvars);
    case _ =>
  }

  lemma {:induction false} AllVarsBoundMeans(es: seq<Expr>, self: string, pureArgs: seq<string>,
                                             rvars: Option<seq<string>>)
    ensures AllVarsBound(es, self, pureArgs, rvars) <==>
              && (forall n :: n in FreeVarsOf(es) ==> n in pureArgs)
              && (rvars.Some? ==> forall n :: n in FreeRVarsOf(es) ==> n in rvars.value)
              && AllRepeat(SelfCallsOf(es, self), pureArgs)
    decreases es, 0
  {
    if es != [] {
      VarsBoundMeans(es[0], self, pureArgs, rvars);
      AllVarsBoundMeans(es[1..], self, pureArgs, rvars);
    }
  }

  lemma {:induction false} MentionsRVarMeans(e: Expr)
    ensures MentionsRVar(e) <==> FreeRVars(e) != {}
    decreases e, 1
  {
    match e
    case Op(_, es) => AnyMentionsRVarMeans(es);
    case Call(_, _, es, _) => AnyMentionsRVarMeans(es);
    case _ =>
  }

  lemma {:induction false} AnyMentionsRVarMeans(es: seq<Expr>)
    ensures AnyMentionsRVar(es) <==> FreeRVarsOf(es) != {}
    decreases es, 0
  {
    if es != [] {
      MentionsRVarMeans(es[0]);
      AnyMentionsRVarMeans(es[1..]);
    }
  }

  // ----- define and define_update -----

  datatype Error =
    | Frozen | NoName | UnboundVar | BadArgument | ReductionInPureDefinition | AlreadyDefined
    | NoPureDefinition | WrongDimensions | WrongTupleSize

  datatype Result = Ok | Err(error: Error)

  predicate UsableArguments(args: seq<string>) {
    && (forall i :: 0 <= i < |args| ==> args[i] != "")
    && (forall i, j :: 0 <= i < j < |args| ==> args[i] != args[j])
  }

  function PureDefinition(args: seq<string>, values: seq<Expr>): Definition {
    Definition(seq(|args|, i requires 0 <= i < |args| => Var(args[i])), values, [], Const(1))
  }

  ghost function MaxRank(fs: set<FunctionContents>): (m: nat)
    reads fs`rank
    ensures forall g :: g in fs ==> g.rank <= m
  {
    if fs == {} then 0
    else
      var g :| g in fs;
      var m := MaxRank(fs - {g});
      if g.rank > m then g.rank else m
  }

  /** Every other Func in `called` is frozen already or is one of `others`, which the definition freezes. */
  ghost predicate AllFrozen(m: map<FunctionContents, Node>, f: FunctionContents, called: set<FunctionContents>,
                            others: set<FunctionContents>)
  {
    forall g :: g in called && g != f ==> (g in m && m[g].frozen) || g in others
  }

  /** `m'` is `m` with the Funcs in `others` frozen. */
  ghost predicate Froze(m: map<FunctionContents, Node>, m': map<FunctionContents, Node>,
                        others: set<FunctionContents>)
  {
    m'.Keys == m.Keys && forall h :: h in m ==> m'[h] == m[h].(frozen := m[h].frozen || h in others)
  }

  /** `m2` is `m` after one definition of `f` that calls `called` and freezes `others`. */
  ghost predicate Defined(m: map<FunctionContents, Node>, m2: map<FunctionContents, Node>, f: FunctionContents,
                          called: set<FunctionContents>, others: set<FunctionContents>)
  {
    && m2.Keys == m.Keys && f in m
    && (forall h :: h in m ==> m2[h].frozen == (m[h].frozen || h in others))
    && (forall h :: h in m && h != f ==> m2[h].calls == m[h].calls && m2[h].rank == m[h].rank < m2[f].rank)
    && m2[f].calls == m[f].calls + called
  }

  /** The checks of `Function::define`, in order. */
  function DefineOutcome(frozen: bool, name: string, args: seq<string>, values: seq<Expr>, defined: bool): Result {
    if frozen then Err(Frozen)
    else if name == "" then Err(NoName)
    else if !AllVarsBound(values, name, args, None) then Err(UnboundVar)
    else if !UsableArguments(args) then Err(BadArgument)
    else if AnyMentionsRVar(values) then Err(ReductionInPureDefinition)
    else if defined then Err(AlreadyDefined)
    else Ok
  }

  /**
   `Function::define`.  Callees are frozen before the later checks, so even a refused definition may have
   frozen them.
   */
  method Define(f: FunctionContents, args: seq<string>, values: seq<Expr>, ghost fs: set<FunctionContents>)
    returns (r: Result)
    requires f in fs && CalleesOf(values) <= fs && f.Recorded() && (f.initDef.None? ==> f.updates == [])
    modifies fs`frozen, f`args, f`initDef, f`rank, f`calls
    ensures r == DefineOutcome(old(f.frozen), f.name, args, values, old(f.initDef).Some?)
    ensures r == Ok ==> f.args == args && f.initDef == Some(PureDefinition(args, values))
    ensures r == Ok ==> OnlyArguments(values, f.name, args) && FreeRVarsOf(values) == {} && Distinct(args)
    ensures r == Err(UnboundVar) <==> !old(f.frozen) && f.name != "" && !OnlyArguments(values, f.name, args)
    ensures r == Ok ==>
              Defined(old(Snapshot(fs)), Snapshot(fs), f, CalleesOf(values), OtherCalleesOf(values, f.name))
    ensures r != Ok ==> f.args == old(f.args) && f.initDef == old(f.initDef)
    ensures r != Ok ==>
              Froze(old(Snapshot(fs)), Snapshot(fs), if CheckedFirst(r) then {} else OtherCalleesOf(values, f.name))
    ensures f.Recorded()
    ensures old(Ordered(fs)) ==>
              (Ordered(fs) <==>
                (r == Ok ==>
                  AllFrozen(old(Snapshot(fs)), f, CalleesOf(values), OtherCalleesOf(values, f.name))))
  {
    DefineOutcomeMeans(f.frozen, f.name, args, values, f.initDef.Some?);
    r := CheckPureDefinition(f, args, values, fs);
    if r == Ok {
      RecordPureDefinition(f, args, values, fs);
    }
  }

  method RecordPureDefinition(f: FunctionContents, args: seq<string>, values: seq<Expr>,
                              ghost fs: set<FunctionContents>)
    requires f in fs && f.initDef.None? && f.updates == [] && f.Recorded()
    modifies f`args, f`initDef, f`rank, f`calls
    ensures f.args == args && f.initDef == Some(PureDefinition(args, values)) && f.Recorded()
    ensures Defined(old(Snapshot(fs)), Snapshot(fs), f, CalleesOf(values), {})
  {
    f.args := args;
    f.initDef := Some(PureDefinition(args, values));
    PureCallees(args, values);
    RecordCalls(f, CalleesOf(values), fs);
  }

  /** Bookkeeping for the proof: the calls of `f` grow and its rank becomes the largest. */
  ghost method RecordCalls(f: FunctionContents, called: set<FunctionContents>, fs: set<FunctionContents>)
    requires f in fs
    modifies f`rank, f`calls
    ensures f.calls == old(f.calls) + called
    ensures Defined(old(Snapshot(fs)), Snapshot(fs), f, called, {})
  {
    f.rank := MaxRank(fs) + 1;
    f.calls := f.calls + called;
  }

  /** The checks of `define` and the freezing in their middle. */
  method CheckPureDefinition(f: FunctionContents, args: seq<string>, values: seq<Expr>, ghost fs: set<FunctionContents>)
    returns (r: Result)
    requires f in fs && CalleesOf(values) <= fs
    modifies fs`frozen
    ensures r == DefineOutcome(old(f.frozen), f.name, args, values, f.initDef.Some?)
    ensures forall g :: g in fs ==>
              g.frozen == (old(g.frozen) || (!CheckedFirst(r) && g in OtherCalleesOf(values, f.name)))
    ensures Froze(old(Snapshot(fs)), Snapshot(fs), if CheckedFirst(r) then {} else OtherCalleesOf(values, f.name))
  {
    if f.frozen {
      return Err(Frozen);
    }
    if f.name == "" {
      return Err(NoName);
    }
    if !AllVarsBound(values, f.name, args, None) {
      return Err(UnboundVar);
    }
    FreezeAllCalled(values, f.name, fs);
    if !UsableArguments(args) {
      return Err(BadArgument);
    }
    if AnyMentionsRVar(values) {
      return Err(ReductionInPureDefinition);
    }
    if f.initDef.Some? {
      return Err(AlreadyDefined);
    }
    return Ok;
  }

  /** The checks made before anything is frozen. */
  predicate CheckedFirst(r: Result) {
    r.Err? && r.error in {Frozen, NoName, UnboundVar, NoPureDefinition, WrongDimensions, WrongTupleSize}
  }

  /** The left-hand side of a pure definition calls nothing. */
  lemma PureCallees(args: seq<string>, values: seq<Expr>)
    ensures DefinitionCallees(PureDefinition(args, values)) == CalleesOf(values)
  {
    VarsCallNothing(PureDefinition(args, values).args);
  }

  lemma {:induction false} VarsCallNothing(es: seq<Expr>)
    requires forall i :: 0 <= i < |es| ==> es[i].Var?
    ensures CalleesOf(es) == {}
  {
    if es != [] {
      VarsCallNothing(es[1..]);
    }
  }

  /** The checks of `Function::define_update`, in order. */
  function UpdateOutcome(frozen: bool, name: string, names: seq<string>, init: Option<Definition>,
                         args: seq<Expr>, values: seq<Expr>, rdom: seq<RVarRange>, cond: Expr): Result
  {
    if name == "" then Err(NoName)
    else if init.None? then Err(NoPureDefinition)
    else if frozen then Err(Frozen)
    else if |args| != |names| then Err(WrongDimensions)
    else if |values| != |init.value.values| then Err(WrongTupleSize)
    else
      var pureArgs, rvars := PureArgs(args, names), Some(RVarNames(rdom));
      if AllVarsBound(args, name, pureArgs, rvars) && AllVarsBound(values, name, pureArgs, rvars)
         && VarsBound(cond, name, pureArgs, rvars)
      then Ok else Err(UnboundVar)
  }

  /** `es` mentions no variable but the arguments, and calls under the name `self` repeat these in their places. */
  ghost predicate OnlyArguments(es: seq<Expr>, self: string, args: seq<string>) {
    FreeVarsOf(es) <= (set n | n in args) && AllRepeat(SelfCallsOf(es, self), args)
  }

  /** A pure definition is accepted exactly when it mentions its arguments only, which are named and differ. */
  lemma DefineOutcomeMeans(frozen: bool, name: string, args: seq<string>, values: seq<Expr>, defined: bool)
    ensures var r := DefineOutcome(frozen, name, args, values, defined);
            && (r == Err(UnboundVar) <==> !frozen && name != "" && !OnlyArguments(values, name, args))
            && (r == Ok <==>
                 && !frozen && name != "" && !defined && OnlyArguments(values, name, args)
                 && FreeRVarsOf(values) == {} && "" !in args && Distinct(args))
  {
    AllVarsBoundMeans(values, name, args, None);
    AnyMentionsRVarMeans(values);
    assert UsableArguments(args) <==> "" !in args && Distinct(args);
  }

  /** The arguments that an update's left-hand side repeats in their places. */
  ghost function Repeated(args: seq<Expr>, names: seq<string>): set<string>
    requires |args| == |names|
  {
    set i | 0 <= i < |args| && args[i] == Var(names[i]) :: names[i]
  }

  /**
   `es` mentions no variable but those and the reduction variables, and calls under the name `self` repeat those in
   their places.  A variable without a name passes where some place repeats nothing.
   */
  ghost predicate OnlyRepeated(es: seq<Expr>, self: string, args: seq<Expr>, names: seq<string>, rdom: seq<RVarRange>)
    requires |args| == |names|
  {
    && (forall n :: n in FreeVarsOf(es) ==>
          n in Repeated(args, names) || (n == "" && exists i :: 0 <= i < |args| && args[i] != Var(names[i])))
    && FreeRVarsOf(es) <= (set i | 0 <= i < |rdom| :: rdom[i].name)
    && forall call :: call in SelfCallsOf(es, self) ==> RepeatsAt(call, args, names)
  }

  ghost predicate RepeatsAt(call: seq<Expr>, args: seq<Expr>, names: seq<string>)
    requires |args| == |names|
  {
    forall i :: 0 <= i < |call| && i < |args| && args[i] == Var(names[i]) && names[i] != "" ==> call[i] == args[i]
  }

  lemma RepeatMeans(calls: set<seq<Expr>>, args: seq<Expr>, names: seq<string>)
    requires |args| == |names|
    ensures AllRepeat(calls, PureArgs(args, names)) <==> forall call :: call in calls ==> RepeatsAt(call, args, names)
  {
    var pureArgs := PureArgs(args, names);
    if AllRepeat(calls, pureArgs) {
      forall call | call in calls ensures RepeatsAt(call, args, names) {
        forall i | 0 <= i < |call| && i < |args| && args[i] == Var(names[i]) && names[i] != ""
          ensures call[i] == args[i]
        {
          assert pureArgs[i] == names[i];
        }
      }
    }
    if forall call :: call in calls ==> RepeatsAt(call, args, names) {
      forall call, i | call in calls && 0 <= i < |call| && i < |pureArgs| && pureArgs[i] != ""
        ensures call[i] == Var(pureArgs[i])
      {
        assert RepeatsAt(call, args, names);
      }
    }
  }

  lemma PureArgsAre(args: seq<Expr>, names: seq<string>)
    requires |args| == |names|
    ensures forall n :: n in PureArgs(args, names) <==>
              n in Repeated(args, names) || (n == "" && exists i :: 0 <= i < |args| && args[i] != Var(names[i]))
  {
    var pureArgs := PureArgs(args, names);
    forall n
      ensures n in pureArgs <==>
                n in Repeated(args, names) || (n == "" && exists i :: 0 <= i < |args| && args[i] != Var(names[i]))
    {
      if i :| 0 <= i < |args| && args[i] == Var(names[i]) && n == names[i] {
        assert pureArgs[i] == n;
      }
      if n == "" {
        if i :| 0 <= i < |args| && args[i] != Var(names[i]) {
          assert pureArgs[i] == n;
        }
      }
    }
  }

  lemma OnlyRepeatedMeans(es: seq<Expr>, self: string, args: seq<Expr>, names: seq<string>, rdom: seq<RVarRange>)
    requires |args| == |names|
    ensures AllVarsBound(es, self, PureArgs(args, names), Some(RVarNames(rdom))) <==>
              OnlyRepeated(es, self, args, names, rdom)
  {
    var pureArgs, rvars := PureArgs(args, names), RVarNames(rdom);
    AllVarsBoundMeans(es, self, pureArgs, Some(rvars));
    assert AllRepeat(SelfCallsOf(es, self), pureArgs) <==>
             forall call :: call in SelfCallsOf(es, self) ==> RepeatsAt(call, args, names) by {
      RepeatMeans(SelfCallsOf(es, self), args, names);
    }
    PureArgsAre(args, names);
    RVarNamesAre(rdom);
    assert FreeRVarsOf(es) <= (set i | 0 <= i < |rdom| :: rdom[i].name) <==>
             forall n :: n in FreeRVarsOf(es) ==> n in rvars;
  }

  lemma RVarNamesAre(rdom: seq<RVarRange>)
    ensures forall n :: n in RVarNames(rdom) <==> n in (set i | 0 <= i < |rdom| :: rdom[i].name)
  {
    var rvars := RVarNames(rdom);
    forall n ensures n in rvars <==> n in (set i | 0 <= i < |rdom| :: rdom[i].name) {
      if i :| 0 <= i < |rdom| && rdom[i].name == n {
        assert rvars[i] == n;
      }
    }
  }

  /** What an accepted update may mention, the left-hand side, the values and the condition. */
  ghost predicate UpdateBinds(self: string, names: seq<string>, d: Definition)
    requires |d.args| == |names|
  {
    && OnlyRepeated(d.args, self, d.args, names, d.rdom) && OnlyRepeated(d.values, self, d.args, names, d.rdom)
    && OnlyRepeated([d.cond], self, d.args, names, d.rdom)
  }

  /** An update is accepted exactly when it binds its variables and fits the pure definition of a Func not frozen. */
  lemma UpdateOutcomeMeans(frozen: bool, name: string, names: seq<string>, init: Option<Definition>,
                           args: seq<Expr>, values: seq<Expr>, rdom: seq<RVarRange>, cond: Expr)
    ensures var r := UpdateOutcome(frozen, name, names, init, args, values, rdom, cond);
            var fits := !frozen && name != "" && init.Some? && |args| == |names| && |values| == |init.value.values|;
            && (r == Err(UnboundVar) <==> fits && !UpdateBinds(name, names, Definition(args, values, rdom, cond)))
            && (r == Ok <==> fits && UpdateBinds(name, names, Definition(args, values, rdom, cond)))
  {
    if |args| == |names| {
      OnlyRepeatedMeans(args, name, args, names, rdom);
      OnlyRepeatedMeans(values, name, args, names, rdom);
      OnlyRepeatedMeans([cond], name, args, names, rdom);
      assert [cond][1..] == [];
    }
  }

  /** `Function::define_update`. */
  method DefineUpdate(f: FunctionContents, args: seq<Expr>, values: seq<Expr>, rdom: seq<RVarRange>, cond: Expr,
                      ghost fs: set<FunctionContents>)
    returns (r: Result)
    requires f in fs && DefinitionCallees(Definition(args, values, rdom, cond)) <= fs && f.Recorded()
    modifies fs`frozen, f`updates, f`rank, f`calls
    ensures r == UpdateOutcome(old(f.frozen), f.name, f.args, f.initDef, args, values, rdom, cond)
    ensures r == Ok ==> f.updates == old(f.updates) + [Definition(args, values, rdom, cond)]
    ensures r == Ok ==> |args| == |f.args| && UpdateBinds(f.name, f.args, Definition(args, values, rdom, cond))
    ensures r == Err(UnboundVar) ==>
              |args| == |f.args| && !UpdateBinds(f.name, f.args, Definition(args, values, rdom, cond))
    ensures r == Ok ==>
              Defined(old(Snapshot(fs)), Snapshot(fs), f, DefinitionCallees(Definition(args, values, rdom, cond)),
                      UpdateOtherCallees(args, values, cond, f.name))
    ensures r != Ok ==> f.updates == old(f.updates) && Froze(old(Snapshot(fs)), Snapshot(fs), {})
    ensures f.Recorded()
    ensures old(Ordered(fs)) ==>
              (Ordered(fs) <==>
                (r == Ok ==> AllFrozen(old(Snapshot(fs)), f, DefinitionCallees(Definition(args, values, rdom, cond)),
                                       UpdateOtherCallees(args, values, cond, f.name))))
  {
    UpdateOutcomeMeans(f.frozen, f.name, f.args, f.initDef, args, values, rdom, cond);
    r := CheckUpdate(f, args, values, rdom, cond, fs);
    var d := Definition(args, values, rdom, cond);
    if r == Ok {
      RecordUpdate(f, d, fs);
    }
  }

  method RecordUpdate(f: FunctionContents, d: Definition, ghost fs: set<FunctionContents>)
    requires f in fs && f.Recorded()
    modifies f`updates, f`rank, f`calls
    ensures f.updates == old(f.updates) + [d] && f.Recorded()
    ensures Defined(old(Snapshot(fs)), Snapshot(fs), f, DefinitionCallees(d), {})
  {
    f.updates := f.updates + [d];
    assert f.updates[..|f.updates| - 1] == old(f.updates);
    RecordCalls(f, DefinitionCallees(d), fs);
  }

  /** The checks of `define_update` and the freezing after them. */
  method CheckUpdate(f: FunctionContents, args: seq<Expr>, values: seq<Expr>, rdom: seq<RVarRange>, cond: Expr,
                     ghost fs: set<FunctionContents>)
    returns (r: Result)
    requires f in fs && DefinitionCallees(Definition(args, values, rdom, cond)) <= fs
    modifies fs`frozen
    ensures r == UpdateOutcome(old(f.frozen), f.name, f.args, f.initDef, args, values, rdom, cond)
    ensures forall g :: g in fs ==>
              g.frozen == (old(g.frozen) || (r == Ok && g in UpdateOtherCallees(args, values, cond, f.name)))
    ensures var frozen := if CheckedFirst(r) then {} else UpdateOtherCallees(args, values, cond, f.name);
            Froze(old(Snapshot(fs)), Snapshot(fs), frozen)
  {
    if f.name == "" {
      return Err(NoName);
    }
    if f.initDef.None? {
      return Err(NoPureDefinition);
    }
    if f.frozen {
      return Err(Frozen);
    }
    if |args| != |f.args| {
      return Err(WrongDimensions);
    }
    if |values| != |f.initDef.value.values| {
      return Err(WrongTupleSize);
    }
    var pureArgs := PureArgs(args, f.args);
    var rvars := Some(RVarNames(rdom));
    if !AllVarsBound(args, f.name, pureArgs, rvars) || !AllVarsBound(values, f.name, pureArgs, rvars)
       || !VarsBound(cond, f.name, pureArgs, rvars)
    {
      return Err(UnboundVar);
    }
    FreezeUpdate(args, values, cond, f.name, fs);
    return Ok;
  }

  method FreezeUpdate(args: seq<Expr>, values: seq<Expr>, cond: Expr, name: string, ghost fs: set<FunctionContents>)
    requires CalleesOf(args) + CalleesOf(values) + Callees(cond) <= fs
    modifies fs`frozen
    ensures forall g :: g in fs ==> g.frozen == (old(g.frozen) || g in UpdateOtherCallees(args, values, cond, name))
  {
    FreezeAllCalled(args, name, fs);
    FreezeAllCalled(values, name, fs);
    FreezeCalled(cond, name, fs);
  }

  ghost function UpdateOtherCallees(args: seq<Expr>, values: seq<Expr>, cond: Expr,
                                    name: string): set<FunctionContents>
  {
    OtherCalleesOf(args, name) + OtherCalleesOf(values, name) + OtherCallees(cond, name)
  }

  // ----- Acyclicity -----

  /** Consecutive Funcs of the path call one another, and none calls itself. */
  ghost predicate CallPath(path: seq<FunctionContents>)
    reads path
  {
    forall i :: 0 <= i < |path| - 1 ==> path[i + 1] in Calls(path[i]) && path[i + 1] != path[i]
  }

  /** In an ordered environment no chain of calls returns to its start, apart from self-calls. */
  lemma {:induction false} NoCycles(fs: set<FunctionContents>, path: seq<FunctionContents>)
    requires Ordered(fs) && (forall f :: f in fs ==> f.Recorded()) && |path| >= 2 && path[0] in fs && CallPath(path)
    ensures path[|path| - 1] in fs && path[|path| - 1].rank < path[0].rank
    ensures path[|path| - 1] != path[0]
  {
    if |path| > 2 {
      var front := path[..|path| - 1];
      assert forall i :: 0 <= i < |front| ==> front[i] == path[i];
      NoCycles(fs, front);
    }
    var i := |path| - 2;
    assert path[i + 1] in Calls(path[i]);
    assert CallsInOrder(Snapshot(fs), path[i], path[i + 1]);
  }

  /** In `es`, only `f` itself is called under the name `name`. */
  ghost predicate NameReserved(es: seq<Expr>, f: FunctionContents, name: string) {
    forall i :: 0 <= i < |es| ==> NameReservedIn(es[i], f, name)
  }

  ghost predicate NameReservedIn(e: Expr, f: FunctionContents, name: string) {
    match e
    case Op(_, es) => NameReserved(es, f, name)
    case Call(n, g, es, _) => (g != null && n == name ==> g == f) && NameReserved(es, f, name)
    case _ => true
  }

  /** When names tell Funcs apart, every other Func called gets frozen, so definitions never break the order. */
  lemma {:induction false} DistinctNamesFreezeAll(es: seq<Expr>, f: FunctionContents, name: string)
    requires NameReserved(es, f, name)
    ensures CalleesOf(es) - {f} <= OtherCalleesOf(es, name)
    decreases es, 0
  {
    if es != [] {
      DistinctNamesFreeze(es[0], f, name);
      assert forall i :: 0 <= i < |es| - 1 ==> es[1..][i] == es[i + 1];
      DistinctNamesFreezeAll(es[1..], f, name);
    }
  }

  lemma {:induction false} DistinctNamesFreeze(e: Expr, f: FunctionContents, name: string)
    requires NameReservedIn(e, f, name)
    ensures Callees(e) - {f} <= OtherCallees(e, name)
    decreases e, 1
  {
    match e
    case Op(_, es) => DistinctNamesFreezeAll(es, f, name);
    case Call(_, _, es, _) => DistinctNamesFreezeAll(es, f, name);
    case _ =>
  }

  // ----- Whole scripts of definitions -----

  /** Every call carries the name of the Func it calls. */
  ghost predicate CallsByName(es: seq<Expr>, names: map<FunctionContents, string>) {
    forall i :: 0 <= i < |es| ==> CallsByNameIn(es[i], names)
  }

  ghost predicate CallsByNameIn(e: Expr, names: map<FunctionContents, string>) {
    match e
    case Op(_, es) => CallsByName(es, names)
    case Call(n, g, es, _) => (g != null ==> g in names && names[g] == n) && CallsByName(es, names)
    case _ => true
  }

  ghost predicate NamesDiffer(names: map<FunctionContents, string>) {
    forall f, g :: f in names && g in names && names[f] == names[g] ==> f == g
  }

  lemma {:induction false} NamedCallees(es: seq<Expr>, names: map<FunctionContents, string>, f: FunctionContents)
    requires CallsByName(es, names) && NamesDiffer(names) && f in names
    ensures NameReserved(es, f, names[f]) && CalleesOf(es) <= names.Keys
    decreases es, 0
  {
    if es != [] {
      NamedCalleesIn(es[0], names, f);
      assert forall i :: 0 <= i < |es| - 1 ==> es[1..][i] == es[i + 1];
      NamedCallees(es[1..], names, f);
      forall i | 0 <= i < |es| ensures NameReservedIn(es[i], f, names[f]) {
        assert i > 0 ==> es[i] == es[1..][i - 1];
      }
    }
  }

  lemma {:induction false} NamedCalleesIn(e: Expr, names: map<FunctionContents, string>, f: FunctionContents)
    requires CallsByNameIn(e, names) && NamesDiffer(names) && f in names
    ensures NameReservedIn(e, f, names[f]) && Callees(e) <= names.Keys
    decreases e, 1
  {
    match e
    case Op(_, es) => NamedCallees(es, names, f);
    case Call(_, _, es, _) => NamedCallees(es, names, f);
    case _ =>
  }

  /** A definition that a program asks for. */
  datatype Request =
    | Pure(f: FunctionContents, args: seq<string>, values: seq<Expr>)
    | Update(f: FunctionContents, lhs: seq<Expr>, values: seq<Expr>, rdom: seq<RVarRange>, cond: Expr)

  /** It is about a Func of the environment and calls others of it by their names. */
  ghost predicate Within(q: Request, names: map<FunctionContents, string>) {
    q.f in names && CallsByName(q.values, names)
    && (q.Update? ==> CallsByName(q.lhs, names) && CallsByNameIn(q.cond, names))
  }

  ghost predicate Told(f: FunctionContents, name: string)
    reads f`name, f`initDef, f`updates, f`calls
  {
    f.name == name && f.Recorded() && (f.initDef.None? ==> f.updates == [])
  }

  /** The Funcs of an environment, with names that tell them apart, in order. */
  ghost predicate Environment(names: map<FunctionContents, string>)
    reads names.Keys
  {
    && NamesDiffer(names)
    && (forall f :: f in names ==> Told(f, names[f]))
    && Ordered(names.Keys)
  }

  /** Funcs without definitions make an environment if their names differ. */
  lemma EmptyEnvironment(names: map<FunctionContents, string>)
    requires NamesDiffer(names)
    requires forall f :: f in names ==> f.name == names[f] && f.initDef.None? && f.updates == [] && f.calls == {}
    ensures Environment(names)
  {
  }

  /** The other Funcs called by a request are frozen by it. */
  lemma PureFreezesAll(q: Request, names: map<FunctionContents, string>)
    requires Within(q, names) && NamesDiffer(names)
    ensures CalleesOf(q.values) <= names.Keys
    ensures CalleesOf(q.values) - {q.f} <= OtherCalleesOf(q.values, names[q.f])
  {
    NamedCallees(q.values, names, q.f);
    DistinctNamesFreezeAll(q.values, q.f, names[q.f]);
  }

  lemma UpdateFreezesAll(q: Request, names: map<FunctionContents, string>)
    requires q.Update? && Within(q, names) && NamesDiffer(names)
    ensures var called := DefinitionCallees(Definition(q.lhs, q.values, q.rdom, q.cond));
            called <= names.Keys && called - {q.f} <= UpdateOtherCallees(q.lhs, q.values, q.cond, names[q.f])
  {
    PureFreezesAll(q, names);
    NamedCallees(q.lhs, names, q.f);
    NamedCalleesIn(q.cond, names, q.f);
    DistinctNamesFreezeAll(q.lhs, q.f, names[q.f]);
    DistinctNamesFreeze(q.cond, q.f, names[q.f]);
  }

  method CarryPure(q: Request, ghost names: map<FunctionContents, string>) returns (r: Result)
    requires q.Pure? && Environment(names) && Within(q, names)
    modifies names.Keys`frozen, q.f`args, q.f`initDef, q.f`rank, q.f`calls
    ensures r == DefineOutcome(old(q.f.frozen), q.f.name, q.args, q.values, old(q.f.initDef).Some?)
    ensures Environment(names)
  {
    PureFreezesAll(q, names);
    assert AllFrozen(Snapshot(names.Keys), q.f, CalleesOf(q.values), OtherCalleesOf(q.values, q.f.name));
    r := Define(q.f, q.args, q.values, names.Keys);
  }

  method CarryUpdate(q: Request, ghost names: map<FunctionContents, string>) returns (r: Result)
    requires q.Update? && Environment(names) && Within(q, names)
    modifies names.Keys`frozen, q.f`updates, q.f`rank, q.f`calls
    ensures r == UpdateOutcome(old(q.f.frozen), q.f.name, q.f.args, q.f.initDef, q.lhs, q.values, q.rdom, q.cond)
    ensures Environment(names)
  {
    UpdateFreezesAll(q, names);
    r := DefineUpdate(q.f, q.lhs, q.values, q.rdom, q.cond, names.Keys);
  }

  /** Any sequence of definitions, accepted or refused, leaves an environment, so by `NoCycles` no cycles. */
  method CarryAll(script: seq<Request>, ghost names: map<FunctionContents, string>) returns (results: seq<Result>)
    requires Environment(names) && forall i :: 0 <= i < |script| ==> Within(script[i], names)
    modifies names.Keys
    ensures |results| == |script| && Environment(names)
  {
    results := [];
    for i := 0 to |script|
      invariant |results| == i && Environment(names)
    {
      var r;
      if script[i].Pure? {
        r := CarryPure(script[i], names);
      } else {
        r := CarryUpdate(script[i], names);
      }
      results := results + [r];
    }
  }

  /** Defines `f` as a call of `g`, which has the same name. */
  method DefineAsCall(f: FunctionContents, g: FunctionContents, ghost fs: set<FunctionContents>) returns (r: Result)
    requires f in fs && g in fs && f.name == g.name != "" && !f.frozen && f.initDef.None? && f.updates == []
             && f.Recorded()
    modifies fs`frozen, f`args, f`initDef, f`rank, f`calls
    ensures r == Ok && g in Calls(f)
    ensures forall h :: h in fs ==> h.frozen == old(h.frozen)
  {
    var values := [Call(g.name, g, [], 0)];
    CallAlone(g.name, g);
    CalleesOfOne(values[0]);
    r := Define(f, [], values, fs);
    PureCallees([], values);
    forall h | h in fs ensures h.frozen == old(h.frozen) {
      assert Snapshot(fs)[h].frozen == h.frozen && old(Snapshot(fs))[h].frozen == old(h.frozen);
    }
  }

  /**
   Two Funcs may share a name.  Then each can be defined to call the other: freezing goes by name, so
   neither definition freezes its callee.
   */
  method SameNameCycle(name: string) returns (f: FunctionContents, g: FunctionContents, r1: Result, r2: Result)
    requires name != ""
    ensures r1 == Ok && r2 == Ok && f != g && fresh(f) && fresh(g)
    ensures CallPath([f, g, f])
  {
    f := new FunctionContents(name);
    g := new FunctionContents(name);
    r1 := DefineAsCall(f, g, {f, g});
    r2 := DefineAsCall(g, f, {f, g});
    assert [f, g, f][1] in Calls([f, g, f][0]) && [f, g, f][2] in Calls([f, g, f][1]);
  }

  /** A bare call passes the variable checks of a definition without arguments. */
  lemma CallAlone(name: string, f: FunctionContents)
    requires name != ""
    ensures DefineOutcome(false, name, [], [Call(name, f, [], 0)], false) == Ok
  {
    var es := [Call(name, f, [], 0)];
    assert es[1..] == [] && AllVarsBound([], name, [], None) && !AnyMentionsRVar([]);
    assert VarsBound(es[0], name, [], None) && !MentionsRVar(es[0]);
  }

  lemma CalleesOfOne(e: Expr)
    ensures CalleesOf([e]) == Callees(e)
    ensures forall n :: OtherCalleesOf([e], n) == OtherCallees(e, n)
  {
    assert [e][1..] == [];
  }
}
