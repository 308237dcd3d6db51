/**
 What a derivation history means for the loops that run: which points of the original domain an
 execution of the derived loops visits.  A split stands for `old = min + outer * factor + inner`.  Where that
 passes the old maximum, GuardWithIf skips it, RoundUp runs it, and ShiftInwards starts the last block earlier,
 so that it ends with the old loop.
 */
module LoopCoverage {
  import opened Arith
  import opened SplitHistory
  import opened LoopKinds
  import opened StageSchedule

  /** A loop runs over `[min, min + extent)`. */
  datatype Range = Range(min: int, extent: nat) {
    ghost predicate Contains(v: int) {
      min <= v < min + extent
    }
  }

  /** Values of the loop variables. */
  type Env = map<string, int>

  function RangeOf(ranges: map<string, Range>, name: string): Range {
    if name in ranges then ranges[name] else Range(0, 1)
  }

  function ValueOf(env: Env, name: string): int {
    if name in env then env[name] else 0
  }

  function CeilDiv(a: nat, b: int): nat
    requires b >= 1
  {
    DivAtLeast(a - 1 + b, b, 0);
    (a - 1 + b) / b
  }

  predicate PositiveFactors(splits: seq<Split>) {
    forall i :: 0 <= i < |splits| && splits[i].kind == SplitVar ==> splits[i].factor >= 1
  }

  /** The ranges of all the loops of a history, from those of the initial loops. */
  function Ranges(initial: map<string, Range>, splits: seq<Split>): map<string, Range>
    requires PositiveFactors(splits)
  {
    if splits == [] then initial
    else EntryRanges(Ranges(initial, splits[..|splits| - 1]), splits[|splits| - 1])
  }

  function EntryRanges(r: map<string, Range>, s: Split): map<string, Range>
    requires s.kind == SplitVar ==> s.factor >= 1
  {
    match s.kind
    case SplitVar =>
      r[s.inner := Range(0, s.factor)][s.outer := Range(0, CeilDiv(RangeOf(r, s.oldVar).extent, s.factor))]
    case FuseVars =>
      r[s.oldVar := Range(0, RangeOf(r, s.inner).extent * RangeOf(r, s.outer).extent)]
    case _ =>
      r[s.outer := RangeOf(r, s.oldVar)]
  }

  /** Where the block of a split starts, counted from the old minimum. */
  function BlockStart(s: Split, extent: int, outer: int): int {
    var at := outer * s.factor;
    if s.tail == ShiftInwards && at > extent - s.factor then extent - s.factor else at
  }

  /** The values of the loops an entry consumed, from the values of those it produced. */
  function Step(r: map<string, Range>, s: Split, env: Env): Env {
    match s.kind
    case SplitVar =>
      var range := RangeOf(r, s.oldVar);
      env[s.oldVar := range.min + BlockStart(s, range.extent, ValueOf(env, s.outer)) + ValueOf(env, s.inner)]
    case FuseVars =>
      var e := RangeOf(r, s.inner).extent;
      var v := ValueOf(env, s.oldVar);
      if e == 0 then env
      else env[s.inner := RangeOf(r, s.inner).min + v % e][s.outer := RangeOf(r, s.outer).min + v / e]
    case _ =>
      env[s.oldVar := ValueOf(env, s.outer)]
  }

  /** The values of the initial loops. */
  function Resolve(initial: map<string, Range>, splits: seq<Split>, env: Env): Env
    requires PositiveFactors(splits)
  {
    if splits == [] then env
    else
      var front := splits[..|splits| - 1];
      Resolve(initial, front, Step(Ranges(initial, front), splits[|splits| - 1], env))
  }

  /** A GuardWithIf split skips values past the old maximum. */
  ghost predicate Guarded(r: map<string, Range>, s: Split, before: Env) {
    s.kind == SplitVar && s.tail == GuardWithIf ==>
      ValueOf(before, s.oldVar) < RangeOf(r, s.oldVar).min + RangeOf(r, s.oldVar).extent
  }

  ghost predicate PassesGuards(initial: map<string, Range>, splits: seq<Split>, env: Env)
    requires PositiveFactors(splits)
  {
    splits == [] ||
    (var front, s := splits[..|splits| - 1], splits[|splits| - 1];
     var r := Ranges(initial, front);
     Guarded(r, s, Step(r, s, env)) && PassesGuards(initial, front, Step(r, s, env)))
  }

  /** `env` is one iteration of the derived loops that runs the body. */
  ghost predicate Executed(initial: map<string, Range>, splits: seq<Split>, live: set<string>, env: Env)
    requires PositiveFactors(splits)
  {
    && (forall n :: n in live ==> RangeOf(Ranges(initial, splits), n).Contains(ValueOf(env, n)))
    && PassesGuards(initial, splits, env)
  }

  ghost predicate AgreeOn(names: set<string>, a: Env, b: Env) {
    forall n :: n in names ==> ValueOf(a, n) == ValueOf(b, n)
  }

  /** `point` is in the original box. */
  ghost predicate InBox(initial: map<string, Range>, roots: set<string>, point: Env) {
    forall n :: n in roots ==> RangeOf(initial, n).Contains(ValueOf(point, n))
  }

  /** The loop bounds of a stage with a well-formed, acceptable history and no empty initial loop. */
  ghost predicate Scheduled(initial: map<string, Range>, splits: seq<Split>) {
    && Replay(initial.Keys, splits).Some? && PositiveFactors(splits)
    && forall n :: n in initial ==> initial[n].extent >= 1
  }

  ghost function Live(initial: map<string, Range>, splits: seq<Split>): set<string>
    requires Scheduled(initial, splits)
  {
    Replay(initial.Keys, splits).value.live
  }

  // ----- Ranges -----

  lemma {:induction false} RangesOfUsed(initial: map<string, Range>, splits: seq<Split>)
    requires Scheduled(initial, splits)
    ensures Ranges(initial, splits).Keys == Replay(initial.Keys, splits).value.used
    ensures Live(initial, splits) <= Ranges(initial, splits).Keys
    ensures forall n :: n in Ranges(initial, splits) ==> Ranges(initial, splits)[n].extent >= 1
  {
    LiveIsUsed(initial.Keys, splits);
    if splits != [] {
      var front, s := splits[..|splits| - 1], splits[|splits| - 1];
      RangesOfUsed(initial, front);
      LiveIsUsed(initial.Keys, front);
      EntryRangesPositive(Ranges(initial, front), s);
    }
  }

  lemma EntryRangesPositive(r: map<string, Range>, s: Split)
    requires s.kind == SplitVar ==> s.factor >= 1
    requires Consumed(s) <= r.Keys && forall n :: n in r ==> r[n].extent >= 1
    ensures EntryRanges(r, s).Keys == r.Keys + Produced(s)
    ensures forall n :: n in EntryRanges(r, s) ==> EntryRanges(r, s)[n].extent >= 1
  {
    match s.kind
    case SplitVar =>
      assert s.oldVar in Consumed(s);
    case FuseVars =>
      assert s.inner in Consumed(s) && s.outer in Consumed(s);
      MulAtLeast(r[s.inner].extent, r[s.outer].extent);
    case _ =>
      assert s.oldVar in Consumed(s);
  }

  // ----- No point is visited twice -----

  /** Inner loops stay in their range; the others may run past its end. */
  ghost predicate Loose(r: map<string, Range>, inner: set<string>, live: set<string>, env: Env) {
    forall n :: n in live ==>
      RangeOf(r, n).min <= ValueOf(env, n) && (n in inner ==> RangeOf(r, n).Contains(ValueOf(env, n)))
  }

  lemma FuseParts(v: int, e: int, eo: int)
    requires e >= 1 && v >= 0
    ensures 0 <= v % e < e && 0 <= v / e
    ensures v < e * eo ==> v / e < eo
  {
    DivAtLeast(v, e, 0);
    DivAtLeast(v, e, eo);
    assert e * eo == eo * e;
  }

  /** Undoing one entry keeps the values loose. */
  lemma StepKeepsLoose(initial: map<string, Range>, splits: seq<Split>, env: Env)
    requires Scheduled(initial, splits) && Acceptable(splits) && splits != []
    requires Loose(Ranges(initial, splits), InnerVars(splits), Live(initial, splits), env)
    requires var front, s := splits[..|splits| - 1], splits[|splits| - 1];
             Guarded(Ranges(initial, front), s, Step(Ranges(initial, front), s, env))
    ensures var front, s := splits[..|splits| - 1], splits[|splits| - 1];
            Loose(Ranges(initial, front), InnerVars(front), Live(initial, front), Step(Ranges(initial, front), s, env))
  {
    var front, s := splits[..|splits| - 1], splits[|splits| - 1];
    var r := Ranges(initial, front);
    RangesOfUsed(initial, front);
    InnerVarsUsed(initial.Keys, front);
    var before := Step(r, s, env);
    assert Produced(s) <= Live(initial, splits);
    ConsumedLoose(r, s, InnerVars(front), env);
    forall n | n in Live(initial, front)
      ensures RangeOf(r, n).min <= ValueOf(before, n)
      ensures n in InnerVars(front) ==> RangeOf(r, n).Contains(ValueOf(before, n))
    {
      if n !in Consumed(s) {
        assert n in Live(initial, splits) && n !in Produced(s);
      }
    }
  }

  /** The values of the loops an entry consumed, from loose values of the loops it produced. */
  lemma ConsumedLoose(r: map<string, Range>, s: Split, inner: set<string>, env: Env)
    requires s.kind == SplitVar ==> s.factor >= 1
    requires Paired(s) && Consumed(s) <= r.Keys && Produced(s) !! r.Keys && EntryAcceptable(inner, s) && inner <= r.Keys
    requires forall n :: n in r ==> r[n].extent >= 1
    requires Loose(EntryRanges(r, s), InnerVarsEntry(inner, s), Produced(s), env) && Guarded(r, s, Step(r, s, env))
    ensures Loose(r, inner, Consumed(s), Step(r, s, env))
  {
    match s.kind
    case SplitVar =>
      assert s.inner in Produced(s) && s.outer in Produced(s) && s.oldVar in Consumed(s);
      ProductNonneg(ValueOf(env, s.outer), s.factor);
    case FuseVars =>
      assert s.oldVar in Produced(s) && s.inner in Consumed(s) && s.outer in Consumed(s);
      FuseParts(ValueOf(env, s.oldVar), r[s.inner].extent, r[s.outer].extent);
    case _ =>
      assert s.outer in Produced(s) && s.oldVar in Consumed(s);
  }

  lemma ProductNonneg(x: int, y: int)
    requires x >= 0 && y >= 0
    ensures x * y >= 0
  {
  }

  lemma SameParts(v: int, w: int, e: int)
    requires e >= 1
    ensures v % e == w % e && v / e == w / e ==> v == w
  {
    DivModSplit(v, e);
    DivModSplit(w, e);
  }

  /** The values of the consumed loops determine those of the produced loops. */
  lemma StepIsInjective(initial: map<string, Range>, splits: seq<Split>, a: Env, b: Env)
    requires Scheduled(initial, splits) && splits != []
    requires var s := splits[|splits| - 1]; s.kind == SplitVar ==> s.tail != ShiftInwards
    requires Loose(Ranges(initial, splits), InnerVars(splits), Live(initial, splits), a)
    requires Loose(Ranges(initial, splits), InnerVars(splits), Live(initial, splits), b)
    requires var front, s := splits[..|splits| - 1], splits[|splits| - 1];
             AgreeOn(Live(initial, front), Step(Ranges(initial, front), s, a), Step(Ranges(initial, front), s, b))
    ensures AgreeOn(Live(initial, splits), a, b)
  {
    var front, s := splits[..|splits| - 1], splits[|splits| - 1];
    var r := Ranges(initial, front);
    RangesOfUsed(initial, front);
    var a', b' := Step(r, s, a), Step(r, s, b);
    forall n | n in Live(initial, splits) ensures ValueOf(a, n) == ValueOf(b, n) {
      if n !in Produced(s) {
        assert n in Live(initial, front) && n !in Consumed(s);
      } else {
        assert forall m :: m in Consumed(s) ==> ValueOf(a', m) == ValueOf(b', m);
        match s.kind
        case SplitVar =>
          assert s.inner in Live(initial, splits) && s.inner in InnerVars(splits) && s.oldVar in Consumed(s);
          UniqueQuotient(s.factor, ValueOf(a, s.outer), ValueOf(a, s.inner), ValueOf(b, s.outer), ValueOf(b, s.inner));
        case FuseVars =>
          assert s.inner in Consumed(s) && s.outer in Consumed(s);
          SameParts(ValueOf(a, s.oldVar), ValueOf(b, s.oldVar), r[s.inner].extent);
        case _ =>
          assert s.oldVar in Consumed(s);
      }
    }
  }

  lemma {:induction false} LooseIsInjective(initial: map<string, Range>, splits: seq<Split>, a: Env, b: Env)
    requires Scheduled(initial, splits) && Acceptable(splits)
    requires Loose(Ranges(initial, splits), InnerVars(splits), Live(initial, splits), a)
    requires Loose(Ranges(initial, splits), InnerVars(splits), Live(initial, splits), b)
    requires PassesGuards(initial, splits, a) && PassesGuards(initial, splits, b)
    requires AgreeOn(initial.Keys, Resolve(initial, splits, a), Resolve(initial, splits, b))
    ensures AgreeOn(Live(initial, splits), a, b)
  {
    if splits != [] {
      var front, s := splits[..|splits| - 1], splits[|splits| - 1];
      var r := Ranges(initial, front);
      StepKeepsLoose(initial, splits, a);
      StepKeepsLoose(initial, splits, b);
      LooseIsInjective(initial, front, Step(r, s, a), Step(r, s, b));
      StepIsInjective(initial, splits, a, b);
    }
  }

  /** Two executed iterations that reach the same original point are the same iteration. */
  lemma VisitedOnce(initial: map<string, Range>, splits: seq<Split>, a: Env, b: Env)
    requires Scheduled(initial, splits) && Acceptable(splits)
    requires Executed(initial, splits, Live(initial, splits), a) && Executed(initial, splits, Live(initial, splits), b)
    requires AgreeOn(initial.Keys, Resolve(initial, splits, a), Resolve(initial, splits, b))
    ensures AgreeOn(Live(initial, splits), a, b)
  {
    LooseIsInjective(initial, splits, a, b);
  }

  // ----- Every point is visited -----

  /** The iteration that visits an original point. */
  function Lift(initial: map<string, Range>, splits: seq<Split>, point: Env): Env
    requires PositiveFactors(splits)
  {
    if splits == [] then point
    else
      var front, s := splits[..|splits| - 1], splits[|splits| - 1];
      LiftEntry(Ranges(initial, front), s, Lift(initial, front, point))
  }

  function LiftEntry(r: map<string, Range>, s: Split, env: Env): Env
    requires s.kind == SplitVar ==> s.factor >= 1
  {
    match s.kind
    case SplitVar =>
      var v := ValueOf(env, s.oldVar) - RangeOf(r, s.oldVar).min;
      env[s.inner := v - BlockStart(s, RangeOf(r, s.oldVar).extent, v / s.factor)][s.outer := v / s.factor]
    case FuseVars =>
      env[s.oldVar := (ValueOf(env, s.outer) - RangeOf(r, s.outer).min) * RangeOf(r, s.inner).extent
                      + (ValueOf(env, s.inner) - RangeOf(r, s.inner).min)]
    case _ =>
      env[s.outer := ValueOf(env, s.oldVar)]
  }

  ghost predicate AllInRange(r: map<string, Range>, names: set<string>, env: Env) {
    forall n :: n in names ==> n in env && n in r && r[n].Contains(env[n])
  }

  lemma LiftSplit(r: map<string, Range>, s: Split, env: Env)
    requires s.kind == SplitVar && s.factor >= 1 && s.inner != s.outer && s.oldVar in r && s.oldVar in env
    requires s.inner != s.oldVar && s.outer != s.oldVar && r[s.oldVar].Contains(env[s.oldVar])
    ensures var after := LiftEntry(r, s, env);
            && after[s.oldVar] == env[s.oldVar]
            && Range(0, s.factor).Contains(after[s.inner])
            && Range(0, CeilDiv(r[s.oldVar].extent, s.factor)).Contains(after[s.outer])
            && r[s.oldVar].min + BlockStart(s, r[s.oldVar].extent, after[s.outer]) + after[s.inner] == env[s.oldVar]
  {
    var v, e := env[s.oldVar] - r[s.oldVar].min, r[s.oldVar].extent;
    DivModSplit(v, s.factor);
    FuseParts(v, s.factor, CeilDiv(e, s.factor));
    CeilCovers(e, s.factor);
  }

  lemma LiftFuse(r: map<string, Range>, s: Split, env: Env)
    requires s.kind == FuseVars && s.inner in r && s.outer in r && s.inner in env && s.outer in env
    requires s.oldVar != s.inner && s.oldVar != s.outer
    requires r[s.inner].Contains(env[s.inner]) && r[s.outer].Contains(env[s.outer])
    ensures var after := LiftEntry(r, s, env);
            var v, e := after[s.oldVar], r[s.inner].extent;
            && after[s.inner] == env[s.inner] && after[s.outer] == env[s.outer]
            && Range(0, e * r[s.outer].extent).Contains(v)
            && r[s.inner].min + v % e == env[s.inner] && r[s.outer].min + v / e == env[s.outer]
  {
    var e := r[s.inner].extent;
    MixedRadix(env[s.outer] - r[s.outer].min, r[s.outer].extent, e, env[s.inner] - r[s.inner].min);
    assert e * r[s.outer].extent == r[s.outer].extent * e;
  }

  /** Lifting through one entry stays in range, and undoing the entry gives the same values back. */
  lemma LiftEntryRoundTrip(initial: map<string, Range>, splits: seq<Split>, env: Env)
    requires Scheduled(initial, splits) && splits != []
    requires var front := splits[..|splits| - 1];
             AllInRange(Ranges(initial, front), Replay(initial.Keys, front).value.used, env)
    ensures var front, s := splits[..|splits| - 1], splits[|splits| - 1];
            var after := LiftEntry(Ranges(initial, front), s, env);
            && AllInRange(Ranges(initial, splits), Replay(initial.Keys, splits).value.used, after)
            && Step(Ranges(initial, front), s, after) == after
            && Guarded(Ranges(initial, front), s, after)
            && AgreeOn(Replay(initial.Keys, front).value.used, env, after)
  {
    var front, s := splits[..|splits| - 1], splits[|splits| - 1];
    var r := Ranges(initial, front);
    var used := Replay(initial.Keys, front).value.used;
    RangesOfUsed(initial, front);
    LiveIsUsed(initial.Keys, front);
    LiftKeepsOthers(r, s, env, used);
    match s.kind
    case SplitVar => SplitRoundTrip(r, s, env, used);
    case FuseVars => FuseRoundTrip(r, s, env, used);
    case _ => RenameRoundTrip(r, s, env, used);
  }

  /** What lifting through the entry `s` must give. */
  ghost predicate RoundTrips(r: map<string, Range>, s: Split, after: Env)
    requires s.kind == SplitVar ==> s.factor >= 1
  {
    && AllInRange(EntryRanges(r, s), Produced(s), after)
    && Step(r, s, after) == after
    && Guarded(r, s, after)
  }

  lemma SplitRoundTrip(r: map<string, Range>, s: Split, env: Env, used: set<string>)
    requires s.kind == SplitVar && s.factor >= 1 && Paired(s)
    requires Consumed(s) <= used && Produced(s) !! used && AllInRange(r, used, env)
    ensures RoundTrips(r, s, LiftEntry(r, s, env))
  {
    assert s.oldVar in Consumed(s) && s.inner in Produced(s) && s.outer in Produced(s);
    LiftSplit(r, s, env);
  }

  lemma FuseRoundTrip(r: map<string, Range>, s: Split, env: Env, used: set<string>)
    requires s.kind == FuseVars && Paired(s)
    requires Consumed(s) <= used && Produced(s) !! used && AllInRange(r, used, env)
    ensures RoundTrips(r, s, LiftEntry(r, s, env))
  {
    assert s.oldVar in Produced(s) && s.inner in Consumed(s) && s.outer in Consumed(s);
    LiftFuse(r, s, env);
  }

  lemma RenameRoundTrip(r: map<string, Range>, s: Split, env: Env, used: set<string>)
    requires s.kind == RenameVar || s.kind == PurifyRVar
    requires Consumed(s) <= used && Produced(s) !! used && AllInRange(r, used, env)
    ensures RoundTrips(r, s, LiftEntry(r, s, env))
  {
    assert s.oldVar in Consumed(s) && s.outer in Produced(s);
  }

  lemma LiftKeepsOthers(r: map<string, Range>, s: Split, env: Env, used: set<string>)
    requires s.kind == SplitVar ==> s.factor >= 1
    requires Produced(s) !! used && AllInRange(r, used, env)
    ensures AgreeOn(used, env, LiftEntry(r, s, env))
    ensures AllInRange(EntryRanges(r, s), used, LiftEntry(r, s, env))
  {
  }

  lemma CeilCovers(e: nat, f: int)
    requires f >= 1
    ensures e <= f * CeilDiv(e, f)
  {
    var q := CeilDiv(e, f);
    DivModSplit(e - 1 + f, f);
    assert q * f == f * q;
  }

  /** Undoing the entries reads the live loops only. */
  lemma {:induction false} ResolveReadsLive(initial: map<string, Range>, splits: seq<Split>, a: Env, b: Env)
    requires Scheduled(initial, splits) && AgreeOn(Live(initial, splits), a, b)
    ensures AgreeOn(initial.Keys, Resolve(initial, splits, a), Resolve(initial, splits, b))
    ensures PassesGuards(initial, splits, a) <==> PassesGuards(initial, splits, b)
  {
    if splits != [] {
      var front, s := splits[..|splits| - 1], splits[|splits| - 1];
      var r := Ranges(initial, front);
      RangesOfUsed(initial, front);
      var a', b' := Step(r, s, a), Step(r, s, b);
      forall n | n in Live(initial, front) ensures ValueOf(a', n) == ValueOf(b', n) {
        assert forall m :: m in Produced(s) ==> ValueOf(a, m) == ValueOf(b, m);
        assert s.kind == SplitVar ==> s.inner in Produced(s) && s.outer in Produced(s);
        assert s.kind != SplitVar ==> (if s.kind == FuseVars then s.oldVar else s.outer) in Produced(s);
        if n !in Consumed(s) {
          assert n in Live(initial, splits);
        }
      }
      ResolveReadsLive(initial, front, a', b');
      assert s.oldVar in Consumed(s) || s.kind == FuseVars;
    }
  }

  lemma {:induction false} LiftIsExecuted(initial: map<string, Range>, splits: seq<Split>, point: Env)
    requires Scheduled(initial, splits) && initial.Keys <= point.Keys && InBox(initial, initial.Keys, point)
    ensures var env := Lift(initial, splits, point);
            && AllInRange(Ranges(initial, splits), Replay(initial.Keys, splits).value.used, env)
            && PassesGuards(initial, splits, env)
            && AgreeOn(initial.Keys, Resolve(initial, splits, env), point)
            && AgreeOn(initial.Keys, env, point)
  {
    if splits != [] {
      var front, s := splits[..|splits| - 1], splits[|splits| - 1];
      LiftIsExecuted(initial, front, point);
      var below, env := Lift(initial, front, point), Lift(initial, splits, point);
      LiftEntryRoundTrip(initial, splits, below);
      LiveIsUsed(initial.Keys, front);
      ResolveReadsLive(initial, front, below, env);
    }
  }

  /** Every point of the original box is reached by an executed iteration. */
  lemma EveryPointVisited(initial: map<string, Range>, splits: seq<Split>, point: Env)
    requires Scheduled(initial, splits) && initial.Keys <= point.Keys && InBox(initial, initial.Keys, point)
    ensures exists env :: Executed(initial, splits, Live(initial, splits), env)
                          && AgreeOn(initial.Keys, Resolve(initial, splits, env), point)
  {
    LiftIsExecuted(initial, splits, point);
    LiveIsUsed(initial.Keys, splits);
    assert Executed(initial, splits, Live(initial, splits), Lift(initial, splits, point));
  }

  // ----- What is visited outside the box -----

  /** The initial loops that may run past their end, when the loops in `past` may. */
  ghost function Overshooting(splits: seq<Split>, past: set<string>): set<string> {
    if splits == [] then past
    else
      var front, s := splits[..|splits| - 1], splits[|splits| - 1];
      Overshooting(front, OvershootingEntry(s, past))
  }

  ghost function OvershootingEntry(s: Split, past: set<string>): set<string> {
    match s.kind
    case SplitVar => past - Produced(s) + (if s.tail == GuardWithIf then {} else {s.oldVar})
    case FuseVars => past - Produced(s) + (if s.oldVar in past then {s.outer} else {})
    case _ => past - Produced(s) + (if s.outer in past then {s.oldVar} else {})
  }

  lemma StepKeepsBox(initial: map<string, Range>, splits: seq<Split>, env: Env, past: set<string>)
    requires Scheduled(initial, splits) && Acceptable(splits) && splits != []
    requires Loose(Ranges(initial, splits), InnerVars(splits), Live(initial, splits), env)
    requires InBox(Ranges(initial, splits), Live(initial, splits) - past, env)
    requires var front, s := splits[..|splits| - 1], splits[|splits| - 1];
             Guarded(Ranges(initial, front), s, Step(Ranges(initial, front), s, env))
    ensures var front, s := splits[..|splits| - 1], splits[|splits| - 1];
            InBox(Ranges(initial, front), Live(initial, front) - OvershootingEntry(s, past),
              Step(Ranges(initial, front), s, env))
  {
    var front, s := splits[..|splits| - 1], splits[|splits| - 1];
    var r := Ranges(initial, front);
    RangesOfUsed(initial, front);
    StepKeepsLoose(initial, splits, env);
    var before := Step(r, s, env);
    forall n | n in Live(initial, front) - OvershootingEntry(s, past)
      ensures RangeOf(r, n).Contains(ValueOf(before, n))
    {
      if n !in Consumed(s) {
        assert n in Live(initial, splits) - past && n !in Produced(s);
      } else {
        match s.kind
        case SplitVar =>
        case FuseVars =>
          assert s.oldVar in Live(initial, splits);
          FuseParts(ValueOf(env, s.oldVar), r[s.inner].extent, r[s.outer].extent);
        case _ =>
          assert s.outer in Live(initial, splits) - past;
      }
    }
  }

  /** Executed iterations leave the box only in initial loops that some RoundUp split reaches. */
  lemma {:induction false} StaysInBox(initial: map<string, Range>, splits: seq<Split>, env: Env, past: set<string>)
    requires Scheduled(initial, splits) && Acceptable(splits)
    requires Loose(Ranges(initial, splits), InnerVars(splits), Live(initial, splits), env)
    requires InBox(Ranges(initial, splits), Live(initial, splits) - past, env) && PassesGuards(initial, splits, env)
    ensures InBox(initial, initial.Keys - Overshooting(splits, past), Resolve(initial, splits, env))
  {
    if splits != [] {
      var front, s := splits[..|splits| - 1], splits[|splits| - 1];
      var r := Ranges(initial, front);
      StepKeepsBox(initial, splits, env, past);
      StepKeepsLoose(initial, splits, env);
      StaysInBox(initial, front, Step(r, s, env), OvershootingEntry(s, past));
    }
  }

  /** The loops that a purify turned into pure ones, wholly or in part, when those in `past` were. */
  ghost function Purified(splits: seq<Split>, past: set<string>): set<string> {
    if splits == [] then past
    else
      var front, s := splits[..|splits| - 1], splits[|splits| - 1];
      Purified(front, PurifiedEntry(s, past))
  }

  ghost function PurifiedEntry(s: Split, past: set<string>): set<string> {
    past - Produced(s) + (if s.kind == PurifyRVar || !(Produced(s) !! past) then Consumed(s) else {})
  }

  /** Reduction loops that no purify reaches stay inside their range. */
  lemma {:induction false} RVarsNeverOvershoot(roots: set<string>, rvars: set<string>, splits: seq<Split>,
                                               past: set<string>, pure: set<string>)
    requires Replay(roots, splits).Some? && rvars <= roots
    requires SplitsRVarsExactly(rvars, splits) && Acceptable(splits) && past * RVarsOf(rvars, splits) <= pure
    ensures Overshooting(splits, past) * rvars <= Purified(splits, pure)
  {
    if splits != [] {
      var front, s := splits[..|splits| - 1], splits[|splits| - 1];
      assert s.kind == FuseVars ==> s.outer in Consumed(s) && s.oldVar in Produced(s);
      assert s.kind != FuseVars ==> s.oldVar in Consumed(s) && s.outer in Produced(s);
      RVarsNeverOvershoot(roots, rvars, front, OvershootingEntry(s, past), PurifiedEntry(s, pure));
    }
  }

  /**
   The loops of an update stage visit every point of the original box and visit no point twice.  They leave
   the reduction domain only in loops that were purified, if RVars were always split as RVars.
   */
  lemma UpdateStageIsSound(stage: Stage, initial: map<string, Range>, a: Env, b: Env, point: Env)
    requires stage.Valid() && !stage.isInit && Scheduled(initial, stage.splits) && initial.Keys == stage.roots
    requires Executed(initial, stage.splits, NameSet(stage.dims), a)
             && Executed(initial, stage.splits, NameSet(stage.dims), b)
    requires initial.Keys <= point.Keys && InBox(initial, initial.Keys, point)
    ensures AgreeOn(initial.Keys, Resolve(initial, stage.splits, a), Resolve(initial, stage.splits, b))
       <==> AgreeOn(NameSet(stage.dims), a, b)
    ensures exists env :: Executed(initial, stage.splits, NameSet(stage.dims), env)
                          && AgreeOn(initial.Keys, Resolve(initial, stage.splits, env), point)
    ensures stage.Kinded() ==>
              InBox(initial, stage.rvars - Purified(stage.splits, {}), Resolve(initial, stage.splits, a))
  {
    var splits := stage.splits;
    if AgreeOn(initial.Keys, Resolve(initial, splits, a), Resolve(initial, splits, b)) {
      VisitedOnce(initial, splits, a, b);
    }
    if AgreeOn(NameSet(stage.dims), a, b) {
      ResolveReadsLive(initial, splits, a, b);
    }
    EveryPointVisited(initial, splits, point);
    StaysInBox(initial, splits, a, {});
    if stage.Kinded() {
      RVarsNeverOvershoot(stage.roots, stage.rvars, splits, {}, {});
    }
  }

  /** An initial loop without iterations leaves nothing to run, however it is split and fused. */
  lemma {:induction false} EmptyLoopRunsNothing(initial: map<string, Range>, splits: seq<Split>)
    requires Replay(initial.Keys, splits).Some? && PositiveFactors(splits)
    requires exists n :: n in initial && initial[n].extent == 0
    ensures exists n :: n in Replay(initial.Keys, splits).value.live && RangeOf(Ranges(initial, splits), n).extent == 0
    ensures forall env :: !Executed(initial, splits, Replay(initial.Keys, splits).value.live, env)
  {
    if splits != [] {
      var front, s := splits[..|splits| - 1], splits[|splits| - 1];
      EmptyLoopRunsNothing(initial, front);
      var r := Ranges(initial, front);
      var n :| n in Replay(initial.Keys, front).value.live && RangeOf(r, n).extent == 0;
      LiveIsUsed(initial.Keys, front);
      if n in Consumed(s) {
        var m := if s.kind == FuseVars then s.oldVar else s.outer;
        assert m in Produced(s);
        if s.kind == SplitVar {
          DivModIs(s.factor - 1, s.factor, 0, s.factor - 1);
        }
        assert RangeOf(Ranges(initial, splits), m).extent == 0;
      }
    } else {
      var n :| n in initial && initial[n].extent == 0;
      assert RangeOf(Ranges(initial, splits), n).extent == 0;
    }
    var n :| n in Replay(initial.Keys, splits).value.live && RangeOf(Ranges(initial, splits), n).extent == 0;
    forall env ensures !Executed(initial, splits, Replay(initial.Keys, splits).value.live, env) {
      assert !RangeOf(Ranges(initial, splits), n).Contains(ValueOf(env, n));
    }
  }

  // ----- Why RoundUp is refused on inner loops -----

  predicate Different(a: string, b: string, c: string, d: string, e: string) {
    a !in {b, c, d, e} && b !in {c, d, e} && c !in {d, e} && d != e
  }

  /** A loop split by `big` whose inner loop is then rounded up by `small`. */
  function RoundedTwice(x: string, xo: string, xi: string, m: string, l: string, big: int, small: int,
                        tail: Tail): seq<Split>
  {
    [Entry(x, xo, xi, big, false, tail, SplitVar), Entry(xi, m, l, small, false, RoundUp, SplitVar)]
  }

  lemma RoundedTwiceMeaning(x: string, xo: string, xi: string, m: string, l: string, r: Range, big: int, small: int,
                            tail: Tail, env: Env)
    requires Different(x, xo, xi, m, l) && big >= 1 && small >= 1 && (tail == RoundUp || tail == GuardWithIf)
    ensures PositiveFactors(RoundedTwice(x, xo, xi, m, l, big, small, tail))
    ensures var h := RoundedTwice(x, xo, xi, m, l, big, small, tail);
            var v := r.min + ValueOf(env, xo) * big + ValueOf(env, m) * small + ValueOf(env, l);
            && ValueOf(Resolve(map[x := r], h, env), x) == v
            && (Executed(map[x := r], h, {xo, m, l}, env) <==>
                  && Range(0, CeilDiv(r.extent, big)).Contains(ValueOf(env, xo))
                  && Range(0, CeilDiv(big, small)).Contains(ValueOf(env, m))
                  && Range(0, small).Contains(ValueOf(env, l))
                  && (tail == GuardWithIf ==> v < r.min + r.extent))
  {
    var h := RoundedTwice(x, xo, xi, m, l, big, small, tail);
    var init := map[x := r];
    var first := [h[0]];
    assert h[..1] == first && first[..0] == [];
    assert Ranges(init, []) == init && Ranges(init, first) == EntryRanges(Ranges(init, first[..0]), first[0]);
    var r1 := Ranges(init, first);
    assert r1 == EntryRanges(init, h[0]);
    assert Ranges(init, h) == EntryRanges(r1, h[1]);
    var e1 := Step(r1, h[1], env);
    var e0 := Step(init, h[0], e1);
    assert Resolve(init, h, env) == Resolve(init, first, e1) == Resolve(init, first[..0], e0) == e0;
    assert PassesGuards(init, h, env) <==> PassesGuards(init, first, e1);
    assert PassesGuards(init, first, e1) <==> Guarded(init, h[0], e0);
  }

  /** Two different executed iterations reach the same original point. */
  ghost predicate Recomputes(initial: map<string, Range>, splits: seq<Split>, live: set<string>)
    requires PositiveFactors(splits)
  {
    exists a, b ::
      && Executed(initial, splits, live, a) && Executed(initial, splits, live, b)
      && AgreeOn(initial.Keys, Resolve(initial, splits, a), Resolve(initial, splits, b))
      && !AgreeOn(live, a, b)
  }

  /**
   What `Stage::split` refuses: rounding up the inner loop of a split by `big` with factor `small`
   recomputes some point exactly when `small` does not divide `big`.
   */
  lemma RoundUpInnerRecomputes(x: string, xo: string, xi: string, m: string, l: string, r: Range,
                               big: int, small: int, tail: Tail)
    requires Different(x, xo, xi, m, l) && 1 <= big < r.extent && small >= 1 && (tail == RoundUp || tail == GuardWithIf)
    ensures var h := RoundedTwice(x, xo, xi, m, l, big, small, tail);
            PositiveFactors(h) && (Recomputes(map[x := r], h, {xo, m, l}) <==> big % small != 0)
  {
    var h := RoundedTwice(x, xo, xi, m, l, big, small, tail);
    var init := map[x := r];
    var live := {xo, m, l};
    var q, rest := big / small, big % small;
    DivModSplit(big, small);
    DivAtLeast(big, small, 0);
    if rest != 0 {
      assert big - 1 + small == (q + 1) * small + (rest - 1);
      DivModIs(big - 1 + small, small, q + 1, rest - 1);
      DivAtLeast(r.extent - 1 + big, big, 2);
      var a: Env := map[xo := 0, m := q, l := rest];
      var b: Env := map[xo := 1, m := 0, l := 0];
      RoundedTwiceMeaning(x, xo, xi, m, l, r, big, small, tail, a);
      RoundedTwiceMeaning(x, xo, xi, m, l, r, big, small, tail, b);
      assert ValueOf(a, xo) != ValueOf(b, xo);
      assert Recomputes(init, h, live);
    } else {
      assert big - 1 + small == q * small + (small - 1);
      DivModIs(big - 1 + small, small, q, small - 1);
      RoundedTwiceMeaning(x, xo, xi, m, l, r, big, small, tail, map[]);
      forall a, b | Executed(init, h, live, a) && Executed(init, h, live, b)
                    && AgreeOn(init.Keys, Resolve(init, h, a), Resolve(init, h, b))
        ensures AgreeOn(live, a, b)
      {
        RoundedTwiceMeaning(x, xo, xi, m, l, r, big, small, tail, a);
        RoundedTwiceMeaning(x, xo, xi, m, l, r, big, small, tail, b);
        assert x in init.Keys;
        MixedRadix(ValueOf(a, m), q, small, ValueOf(a, l));
        MixedRadix(ValueOf(b, m), q, small, ValueOf(b, l));
        UniqueQuotient(big, ValueOf(a, xo), ValueOf(a, m) * small + ValueOf(a, l),
                       ValueOf(b, xo), ValueOf(b, m) * small + ValueOf(b, l));
        UniqueQuotient(small, ValueOf(a, m), ValueOf(a, l), ValueOf(b, m), ValueOf(b, l));
      }
    }
  }
}
