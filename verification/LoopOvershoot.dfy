/** Exactly which initial loops the derived loops run past their end. */
module LoopOvershoot {
  import opened Arith
  import opened Collections
  import opened SplitHistory
  import opened LoopKinds
  import opened LoopCoverage

  /**
   The loops before an entry that run past their end, when the loops `past` do after it: a split without guard
   whose outer loop does or whose factor does not divide the extent, and the outer loop of a fuse.
   */
  ghost function PastEntry(r: map<string, Range>, s: Split, past: set<string>): set<string> {
    past - Produced(s) +
    match s.kind
    case SplitVar =>
      if s.tail != GuardWithIf && s.factor >= 1 && (s.outer in past || RangeOf(r, s.oldVar).extent % s.factor != 0)
      then {s.oldVar} else {}
    case FuseVars => if s.oldVar in past then {s.outer} else {}
    case _ => if s.outer in past then {s.oldVar} else {}
  }

  ghost function RoundedPast(initial: map<string, Range>, splits: seq<Split>, past: set<string>): set<string>
    requires PositiveFactors(splits)
  {
    if splits == [] then past
    else
      var front, s := splits[..|splits| - 1], splits[|splits| - 1];
      RoundedPast(initial, front, PastEntry(Ranges(initial, front), s, past))
  }

  // ----- No other loop does -----

  lemma SplitInside(e: nat, f: int, outer: int, inner: int)
    requires f >= 1 && e % f == 0 && 0 <= outer < CeilDiv(e, f) && 0 <= inner < f
    ensures 0 <= outer * f + inner < e
  {
    DivModSplit(e, f);
    DivModIs(e - 1 + f, f, e / f, f - 1);
    MixedRadix(outer, e / f, f, inner);
  }

  lemma StepKeepsRest(initial: map<string, Range>, splits: seq<Split>, env: Env, past: set<string>)
    requires Scheduled(initial, splits) && Acceptable(splits) && splits != []
    requires Loose(Ranges(initial, splits), InnerVars(splits), Live(initial, splits), env)
    requires InBox(Ranges(initial, splits), Live(initial, splits) - past, env)
    requires var front, s := splits[..|splits| - 1], splits[|splits| - 1];
             Guarded(Ranges(initial, front), s, Step(Ranges(initial, front), s, env))
    ensures var front, s := splits[..|splits| - 1], splits[|splits| - 1];
            var r := Ranges(initial, front);
            InBox(r, Live(initial, front) - PastEntry(r, s, past), Step(r, s, env))
  {
    var front, s := splits[..|splits| - 1], splits[|splits| - 1];
    var r := Ranges(initial, front);
    RangesOfUsed(initial, front);
    StepKeepsLoose(initial, splits, env);
    var before := Step(r, s, env);
    forall n | n in Live(initial, front) - PastEntry(r, s, past) ensures RangeOf(r, n).Contains(ValueOf(before, n)) {
      if n !in Consumed(s) {
        assert n in Live(initial, splits) - past && n !in Produced(s);
      } else {
        match s.kind
        case SplitVar =>
          if s.tail != GuardWithIf {
            assert s.outer in Live(initial, splits) - past && s.inner in Live(initial, splits);
            assert s.inner in InnerVars(splits);
            SplitInside(RangeOf(r, n).extent, s.factor, ValueOf(env, s.outer), ValueOf(env, s.inner));
          }
        case FuseVars =>
          assert s.oldVar in Live(initial, splits);
          FuseParts(ValueOf(env, s.oldVar), r[s.inner].extent, r[s.outer].extent);
        case _ =>
          assert s.outer in Live(initial, splits) - past;
      }
    }
  }

  lemma {:induction false} StaysUnlessRounded(initial: map<string, Range>, splits: seq<Split>, env: Env,
                                              past: set<string>)
    requires Scheduled(initial, splits) && Acceptable(splits)
    requires Loose(Ranges(initial, splits), InnerVars(splits), Live(initial, splits), env)
    requires InBox(Ranges(initial, splits), Live(initial, splits) - past, env) && PassesGuards(initial, splits, env)
    ensures InBox(initial, initial.Keys - RoundedPast(initial, splits, past), Resolve(initial, splits, env))
  {
    if splits != [] {
      var front, s := splits[..|splits| - 1], splits[|splits| - 1];
      var r := Ranges(initial, front);
      StepKeepsRest(initial, splits, env, past);
      StepKeepsLoose(initial, splits, env);
      StaysUnlessRounded(initial, front, Step(r, s, env), PastEntry(r, s, past));
    }
  }

  // ----- These do -----

  /** `n` is just past its end, and every other loop at its start. */
  ghost predicate JustPast(r: map<string, Range>, live: set<string>, env: Env, n: string) {
    && n in live && ValueOf(env, n) == RangeOf(r, n).min + RangeOf(r, n).extent
    && forall m :: m in live && m != n ==> ValueOf(env, m) == RangeOf(r, m).min
  }

  ghost predicate InOrJustPast(r: map<string, Range>, live: set<string>, env: Env, past: set<string>) {
    InBox(r, live, env) || exists n :: n in past && JustPast(r, live, env, n)
  }

  /** Lifting through one entry, from iterations in range or just past the end of a loop in `past`. */
  ghost predicate Lifts(r: map<string, Range>, s: Split, live: set<string>, past: set<string>, env: Env)
    requires s.kind == SplitVar ==> s.factor >= 1
  {
    var after := LiftEntry(r, s, env);
    && AgreeOn(live, Step(r, s, after), env)
    && Guarded(r, s, Step(r, s, after))
    && InOrJustPast(EntryRanges(r, s), live - Consumed(s) + Produced(s), after, past)
  }

  ghost predicate Applies(r: map<string, Range>, s: Split, live: set<string>, past: set<string>) {
    && Paired(s) && Consumed(s) <= live <= r.Keys && Produced(s) !! r.Keys
    && (forall n :: n in r ==> r[n].extent >= 1) && past <= live - Consumed(s) + Produced(s)
    && (s.kind == SplitVar ==> s.tail != ShiftInwards)
  }

  lemma SplitLifts(r: map<string, Range>, s: Split, live: set<string>, past: set<string>, env: Env)
    requires s.kind == SplitVar && s.factor >= 1 && Applies(r, s, live, past)
    requires InOrJustPast(r, live, env, PastEntry(r, s, past))
    ensures Lifts(r, s, live, past, env)
  {
    var e, f, v := r[s.oldVar].extent, s.factor, ValueOf(env, s.oldVar) - r[s.oldVar].min;
    assert s.oldVar in Consumed(s) && s.inner in Produced(s) && s.outer in Produced(s);
    var after, r', live' := LiftEntry(r, s, env), EntryRanges(r, s), live - Consumed(s) + Produced(s);
    assert 0 <= v <= e;
    DivModSplit(v, f);
    FuseParts(v, f, CeilDiv(e, f));
    CeilCovers(e, f);
    if InBox(r, live, env) {
      assert InBox(r', live', after);
    } else {
      var n :| n in PastEntry(r, s, past) && JustPast(r, live, env, n);
      if n != s.oldVar {
        ZeroParts(f);
        assert JustPast(r', live', after, n);
      } else if e % f != 0 {
        PartialBlock(e, f);
        assert InBox(r', live', after);
      } else {
        WholeBlocks(e, f);
        assert JustPast(r', live', after, s.outer);
      }
    }
  }

  lemma ZeroParts(f: int)
    requires f >= 1
    ensures 0 % f == 0 && 0 / f == 0
  {
    DivModIs(0, f, 0, 0);
  }

  lemma PartialBlock(e: nat, f: int)
    requires f >= 1 && e % f != 0
    ensures 0 <= e / f < CeilDiv(e, f)
  {
    var q, m := e / f, e % f;
    DivModSplit(e, f);
    DivAtLeast(e, f, 0);
    DivModIs(e - 1 + f, f, q + 1, m - 1);
  }

  lemma WholeBlocks(e: nat, f: int)
    requires f >= 1 && e % f == 0
    ensures e / f == CeilDiv(e, f)
  {
    DivModSplit(e, f);
    DivModIs(e - 1 + f, f, e / f, f - 1);
  }

  lemma FuseLifts(r: map<string, Range>, s: Split, live: set<string>, past: set<string>, env: Env)
    requires s.kind == FuseVars && Applies(r, s, live, past)
    requires InOrJustPast(r, live, env, PastEntry(r, s, past))
    ensures Lifts(r, s, live, past, env)
  {
    assert s.oldVar in Produced(s) && s.inner in Consumed(s) && s.outer in Consumed(s);
    var e := r[s.inner].extent;
    var o, i := ValueOf(env, s.outer) - r[s.outer].min, ValueOf(env, s.inner) - r[s.inner].min;
    var after, r', live' := LiftEntry(r, s, env), EntryRanges(r, s), live - Consumed(s) + Produced(s);
    if InBox(r, live, env) {
      MixedRadix(o, r[s.outer].extent, e, i);
      assert e * r[s.outer].extent == r[s.outer].extent * e;
      assert InBox(r', live', after);
    } else {
      var n :| n in PastEntry(r, s, past) && JustPast(r, live, env, n);
      assert i == 0;
      DivModIs(o * e, e, o, 0);
      if n == s.outer {
        assert e * r[s.outer].extent == o * e;
        assert JustPast(r', live', after, s.oldVar);
      } else {
        assert JustPast(r', live', after, n);
      }
    }
  }

  lemma RenameLifts(r: map<string, Range>, s: Split, live: set<string>, past: set<string>, env: Env)
    requires (s.kind == RenameVar || s.kind == PurifyRVar) && Applies(r, s, live, past)
    requires InOrJustPast(r, live, env, PastEntry(r, s, past))
    ensures Lifts(r, s, live, past, env)
  {
    assert s.oldVar in Consumed(s) && s.outer in Produced(s);
    var after, r', live' := LiftEntry(r, s, env), EntryRanges(r, s), live - Consumed(s) + Produced(s);
    if InBox(r, live, env) {
      assert InBox(r', live', after);
    } else {
      var n :| n in PastEntry(r, s, past) && JustPast(r, live, env, n);
      assert JustPast(r', live', after, if n == s.oldVar then s.outer else n);
    }
  }

  lemma EntryLifts(initial: map<string, Range>, splits: seq<Split>, past: set<string>, below: Env)
    requires Scheduled(initial, splits) && Acceptable(splits) && splits != [] && past <= Live(initial, splits)
    requires var front, s := splits[..|splits| - 1], splits[|splits| - 1];
             var r := Ranges(initial, front);
             InOrJustPast(r, Live(initial, front), below, PastEntry(r, s, past))
    ensures var front, s := splits[..|splits| - 1], splits[|splits| - 1];
            Lifts(Ranges(initial, front), s, Live(initial, front), past, below)
  {
    var front, s := splits[..|splits| - 1], splits[|splits| - 1];
    var r, live := Ranges(initial, front), Live(initial, front);
    RangesOfUsed(initial, front);
    match s.kind
    case SplitVar => SplitLifts(r, s, live, past, below);
    case FuseVars => FuseLifts(r, s, live, past, below);
    case _ => RenameLifts(r, s, live, past, below);
  }

  lemma PastStaysLive(initial: map<string, Range>, splits: seq<Split>, past: set<string>)
    requires Scheduled(initial, splits) && splits != [] && past <= Live(initial, splits)
    ensures var front, s := splits[..|splits| - 1], splits[|splits| - 1];
            PastEntry(Ranges(initial, front), s, past) <= Live(initial, front)
  {
    var s := splits[|splits| - 1];
    assert s.kind != FuseVars ==> s.oldVar in Consumed(s);
    assert s.kind == FuseVars ==> s.outer in Consumed(s);
  }

  /** The iteration that is lifted from just past the end of an initial loop that the splits round up. */
  lemma {:induction false} LiftLeaves(initial: map<string, Range>, splits: seq<Split>, past: set<string>, n: string,
                                      point: Env)
    requires Scheduled(initial, splits) && Acceptable(splits)
    requires past <= Live(initial, splits) && n in RoundedPast(initial, splits, past)
    requires JustPast(initial, initial.Keys, point, n)
    ensures var env := Lift(initial, splits, point);
            && InOrJustPast(Ranges(initial, splits), Live(initial, splits), env, past)
            && PassesGuards(initial, splits, env)
            && AgreeOn(initial.Keys, Resolve(initial, splits, env), point)
  {
    if splits != [] {
      var front, s := splits[..|splits| - 1], splits[|splits| - 1];
      PastStaysLive(initial, splits, past);
      LiftLeaves(initial, front, PastEntry(Ranges(initial, front), s, past), n, point);
      var below, env := Lift(initial, front, point), Lift(initial, splits, point);
      EntryLifts(initial, splits, past, below);
      ResolveReadsLive(initial, front, Step(Ranges(initial, front), s, env), below);
    }
  }

  /**
   Some iteration runs past the end of an initial loop exactly when the splits round it up: when the extent of the
   loop, or of an outer loop that was split off from it, is not a multiple of the factor of a split without guard.
   */
  lemma OvershootsExactly(initial: map<string, Range>, splits: seq<Split>, n: string)
    requires Scheduled(initial, splits) && Acceptable(splits) && n in initial
    ensures n in RoundedPast(initial, splits, {}) <==>
              exists env :: Executed(initial, splits, Live(initial, splits), env)
                            && !initial[n].Contains(ValueOf(Resolve(initial, splits, env), n))
  {
    if n in RoundedPast(initial, splits, {}) {
      var point: Env := map m | m in initial :: initial[m].min + if m == n then initial[m].extent else 0;
      LiftLeaves(initial, splits, {}, n, point);
      var env := Lift(initial, splits, point);
      assert Executed(initial, splits, Live(initial, splits), env);
      assert ValueOf(Resolve(initial, splits, env), n) == ValueOf(point, n);
    } else {
      forall env | Executed(initial, splits, Live(initial, splits), env)
        ensures initial[n].Contains(ValueOf(Resolve(initial, splits, env), n))
      {
        StaysUnlessRounded(initial, splits, env, {});
      }
    }
  }

  /** A reduction loop that is purified and then split as a pure one, rounding up. */
  function PurifiedAndSplit(r: string, u: string, o: string, i: string, factor: int): seq<Split> {
    [Entry(r, u, "", 1, false, RoundUp, PurifyRVar), Entry(u, o, i, factor, false, RoundUp, SplitVar)]
  }

  lemma PurifiedHistory(r: string, u: string, o: string, i: string, factor: int)
    requires r !in {u, o, i} && u !in {o, i} && o != i
    ensures var h := PurifiedAndSplit(r, u, o, i, factor);
            Replay({r}, h) == Some(Derived({o, i}, {r, u, o, i})) && Acceptable(h) && SplitsRVarsExactly({r}, h)
  {
    var h := PurifiedAndSplit(r, u, o, i, factor);
    var first := [h[0]];
    assert h[..1] == first && first[..0] == [];
    var none: seq<Split> := [];
    assert first == none + [h[0]] && h == first + [h[1]];
    ReplayAppend({r}, none, h[0]);
    assert {r} - {r} + {u} == {u} && {r} + {u} == {r, u};
    ReplayAppend({r}, first, h[1]);
    assert {u} - {u} + {i, o} == {o, i} && {r, u} + {i, o} == {r, u, o, i};
    AppendAcceptable(none, h[0]);
    AppendAcceptable(first, h[1]);
    AppendKinds({r}, none, h[0]);
    AppendKinds({r}, first, h[1]);
  }

  lemma PurifiedRounds(r: string, u: string, o: string, i: string, range: Range, factor: int)
    requires r !in {u, o, i} && u !in {o, i} && o != i && factor >= 1
    ensures PositiveFactors(PurifiedAndSplit(r, u, o, i, factor))
    ensures r in RoundedPast(map[r := range], PurifiedAndSplit(r, u, o, i, factor), {}) <==> range.extent % factor != 0
  {
    var h, init := PurifiedAndSplit(r, u, o, i, factor), map[r := range];
    var first := [h[0]];
    assert h[..1] == first && first[..0] == [];
    assert Ranges(init, first) == init[u := range];
    var past := PastEntry(Ranges(init, first), h[1], {});
    assert past == if range.extent % factor != 0 then {u} else {};
    assert RoundedPast(init, h, {}) == RoundedPast(init, first, past) == PastEntry(init, h[0], past);
  }

  /** It runs past the end of the reduction domain exactly when the factor does not divide the extent. */
  lemma PurifiedOvershoots(r: string, u: string, o: string, i: string, range: Range, factor: int)
    requires r !in {u, o, i} && u !in {o, i} && o != i && factor >= 1 && range.extent >= 1
    ensures var h := PurifiedAndSplit(r, u, o, i, factor);
            && Replay({r}, h) == Some(Derived({o, i}, {r, u, o, i})) && Acceptable(h) && SplitsRVarsExactly({r}, h)
            && PositiveFactors(h)
            && ((forall env :: Executed(map[r := range], h, {o, i}, env) ==>
                               InBox(map[r := range], {r}, Resolve(map[r := range], h, env)))
                <==> range.extent % factor == 0)
  {
    var h, init := PurifiedAndSplit(r, u, o, i, factor), map[r := range];
    assert init.Keys == {r};
    PurifiedHistory(r, u, o, i, factor);
    PurifiedRounds(r, u, o, i, range, factor);
    OvershootsExactly(init, h, r);
    forall env ensures InBox(init, {r}, Resolve(init, h, env)) <==> range.Contains(ValueOf(Resolve(init, h, env), r)) {
    }
  }
}
