/**
 What the loops of a pure definition visit.  A pure definition may visit a point more than once, so splits may
 shift their last block inwards or round up; what counts is that no point outside the box is visited.
 */
module PureCoverage {
  import opened Arith
  import opened Collections
  import opened SplitHistory
  import opened StageSchedule
  import opened LoopCoverage

  // ----- The end of the box -----

  /** The loops before an entry that may run past their end, when those in `past` may after it. */
  ghost function PastEndEntry(s: Split, past: set<string>): set<string> {
    past - Produced(s) +
    match s.kind
    case SplitVar =>
      if s.tail == GuardWithIf || (s.tail == ShiftInwards && s.inner !in past) then {} else {s.oldVar}
    case FuseVars => if s.oldVar in past then {s.outer} else {}
    case _ => if s.outer in past then {s.oldVar} else {}
  }

  ghost function PastEnd(splits: seq<Split>, past: set<string>): set<string> {
    if splits == [] then past
    else
      var front, s := splits[..|splits| - 1], splits[|splits| - 1];
      PastEnd(front, PastEndEntry(s, past))
  }

  ghost predicate BeforeEnd(r: map<string, Range>, names: set<string>, env: Env) {
    forall n :: n in names ==> ValueOf(env, n) < RangeOf(r, n).min + RangeOf(r, n).extent
  }

  lemma FuseEnds(v: int, e: int, eo: int)
    requires e >= 1
    ensures v % e < e && (v < e * eo ==> v / e < eo)
  {
    DivAtLeast(v, e, eo);
    assert e * eo == eo * e;
  }

  lemma BlockEnds(s: Split, extent: int, outer: int, inner: int)
    requires s.tail == ShiftInwards && inner < s.factor
    ensures BlockStart(s, extent, outer) + inner < extent
  {
  }

  /** Undoing one entry keeps the other loops before their end. */
  lemma StepKeepsEnd(initial: map<string, Range>, splits: seq<Split>, env: Env, past: set<string>)
    requires Scheduled(initial, splits) && splits != []
    requires BeforeEnd(Ranges(initial, splits), Live(initial, splits) - past, env)
    requires var front, s := splits[..|splits| - 1], splits[|splits| - 1];
             Guarded(Ranges(initial, front), s, Step(Ranges(initial, front), s, env))
    ensures var front, s := splits[..|splits| - 1], splits[|splits| - 1];
            BeforeEnd(Ranges(initial, front), Live(initial, front) - PastEndEntry(s, past),
              Step(Ranges(initial, front), s, env))
  {
    var front, s := splits[..|splits| - 1], splits[|splits| - 1];
    var r := Ranges(initial, front);
    RangesOfUsed(initial, front);
    var before := Step(r, s, env);
    forall n | n in Live(initial, front) - PastEndEntry(s, past)
      ensures ValueOf(before, n) < RangeOf(r, n).min + RangeOf(r, n).extent
    {
      if n !in Consumed(s) {
        assert n in Live(initial, splits) - past && n !in Produced(s);
      } else {
        match s.kind
        case SplitVar =>
          if s.tail != GuardWithIf {
            assert s.inner in Live(initial, splits) - past;
            BlockEnds(s, RangeOf(r, n).extent, ValueOf(env, s.outer), ValueOf(env, s.inner));
          }
        case FuseVars =>
          assert s.oldVar in Live(initial, splits);
          FuseEnds(ValueOf(env, s.oldVar), r[s.inner].extent, r[s.outer].extent);
        case _ =>
          assert s.outer in Live(initial, splits) - past;
      }
    }
  }

  /** Executed iterations run past the end only of initial loops that a split without guard or shift reaches. */
  lemma {:induction false} EndsHold(initial: map<string, Range>, splits: seq<Split>, env: Env, past: set<string>)
    requires Scheduled(initial, splits) && PassesGuards(initial, splits, env)
    requires BeforeEnd(Ranges(initial, splits), Live(initial, splits) - past, env)
    ensures BeforeEnd(initial, initial.Keys - PastEnd(splits, past), Resolve(initial, splits, env))
  {
    if splits != [] {
      var front, s := splits[..|splits| - 1], splits[|splits| - 1];
      StepKeepsEnd(initial, splits, env, past);
      EndsHold(initial, front, Step(Ranges(initial, front), s, env), PastEndEntry(s, past));
    }
  }

  // ----- Loops that are rounded up below a ShiftInwards split -----

  /** Splits round up only loops that come down from the outer loop of a ShiftInwards split. */
  predicate RoundsCovered(splits: seq<Split>) {
    splits == [] ||
    (RoundsCovered(splits[..|splits| - 1]) && RoundCovered(splits[..|splits| - 1], splits[|splits| - 1]))
  }

  predicate RoundCovered(splits: seq<Split>, s: Split) {
    s.kind == SplitVar && s.tail != GuardWithIf && s.tail != ShiftInwards ==>
      s.oldVar in ShiftInwardsDescendants(splits)
  }

  lemma AppendCovered(splits: seq<Split>, s: Split)
    ensures RoundsCovered(splits + [s]) <==> RoundsCovered(splits) && RoundCovered(splits, s)
  {
    assert (splits + [s])[..|splits|] == splits;
  }

  /** What overshoots is always covered, so no initial loop does. */
  lemma {:induction false} CoveredRoundsStayInside(roots: set<string>, splits: seq<Split>, past: set<string>)
    requires Replay(roots, splits).Some? && RoundsCovered(splits) && past <= ShiftInwardsDescendants(splits).Keys
    ensures PastEnd(splits, past) == {}
  {
    if splits != [] {
      var front, s := splits[..|splits| - 1], splits[|splits| - 1];
      LiveIsUsed(roots, front);
      CoveredExactly(roots, front, "", 0);
      assert s.kind == SplitVar ==> s.inner in Produced(s) && s.outer in Produced(s);
      assert s.kind == FuseVars ==> s.oldVar in Produced(s);
      assert s.kind != FuseVars ==> s.outer in Produced(s);
      CoveredRoundsStayInside(roots, front, PastEndEntry(s, past));
    }
  }

  // ----- What keeps it so -----

  /** A split whose tail strategy is left to `Auto` keeps it so. */
  lemma AutoKeepsCovered(roots: set<string>, splits: seq<Split>, s: Split)
    requires Replay(roots, splits).Some? && s.kind == SplitVar
    requires s.tail == ShiftInwards || s.tail == GuardWithIf
             || AutoStandsFor(true, s.exact, splits, s.oldVar, s.factor, s.tail)
    ensures RoundsCovered(splits + [s]) <==> RoundsCovered(splits)
  {
    AppendCovered(splits, s);
    if s.tail == RoundUp {
      var f :| f >= s.factor && CoveredBy(splits, s.oldVar, f);
      CoveredExactly(roots, splits, s.oldVar, f);
    }
  }

  /** The covered loops after an entry. */
  function CoveredEntry(covered: set<string>, s: Split): set<string> {
    if s.kind == SplitVar && s.tail == ShiftInwards then covered + {s.outer}
    else if s.kind == FuseVars || s.oldVar !in covered then covered
    else covered + Produced(s)
  }

  lemma CoveredNames(splits: seq<Split>)
    requires splits != []
    ensures ShiftInwardsDescendants(splits).Keys ==
              CoveredEntry(ShiftInwardsDescendants(splits[..|splits| - 1]).Keys, splits[|splits| - 1])
  {
  }

  lemma CoveredElsewhere(covered: set<string>, s: Split, oldName: string, newName: string)
    requires oldName !in Produced(s) + Consumed(s) && newName !in Produced(s) + Consumed(s)
    ensures CoveredEntry(RenameIf(covered, oldName, newName), s)
            == RenameIf(CoveredEntry(covered, s), oldName, newName)
  {
    assert forall n :: n in Produced(s) + Consumed(s) ==> (n in covered <==> n in RenameIf(covered, oldName, newName));
    assert s.kind != FuseVars ==> s.oldVar in Consumed(s) && s.outer in Produced(s);
  }

  lemma CoveredRewritten(covered: set<string>, s: Split, s': Split, oldName: string, newName: string)
    requires oldName in Produced(s) && oldName !in Consumed(s) && oldName !in covered && Paired(s)
    requires newName !in Produced(s) + Consumed(s) + covered
    requires RewrittenEntry(s, s', oldName, newName)
    ensures CoveredEntry(covered, s') == RenameIf(CoveredEntry(covered, s), oldName, newName)
  {
    assert s.kind != FuseVars ==> s.oldVar in Consumed(s) && s.outer in Produced(s);
  }

  /** `rename` keeps it so: the covered loops are the same under their new names. */
  lemma {:induction false} RenameKeepsCovered(roots: set<string>, splits: seq<Split>, oldName: string, newName: string)
    requires Replay(roots, splits).Some? && InnerNamed(splits)
    requires oldName in Replay(roots, splits).value.live && oldName != ""
    requires newName !in Replay(roots, splits).value.used
    ensures var covered := ShiftInwardsDescendants(splits).Keys;
            match RenameDefinition(splits, oldName, newName)
            case Rewritten(r) =>
              && (RoundsCovered(splits) ==> RoundsCovered(r))
              && ShiftInwardsDescendants(r).Keys == RenameIf(covered, oldName, newName)
            case _ => oldName !in covered
  {
    LiveIsUsed(roots, splits);
    CoveredExactly(roots, splits, oldName, 0);
    if splits != [] {
      var front, s := splits[..|splits| - 1], splits[|splits| - 1];
      var d := Replay(roots, front).value;
      LiveIsUsed(roots, front);
      CoveredExactly(roots, front, oldName, 0);
      CoveredNames(splits);
      var covered := ShiftInwardsDescendants(front).Keys;
      if oldName in Produced(s) {
        RenameStops(splits, oldName, newName);
        var r := RenameDefinition(splits, oldName, newName).splits;
        CoveredNames(r);
        CoveredRewritten(covered, s, r[|r| - 1], oldName, newName);
      } else {
        RenameElsewhere(d, s, oldName, newName);
        RenameKeepsCovered(roots, front, oldName, newName);
        RenameSkips(splits, oldName, newName);
        CoveredElsewhere(covered, s, oldName, newName);
        match RenameDefinition(front, oldName, newName)
        case Rewritten(r) =>
          AppendCovered(r, s);
          CoveredNames(r + [s]);
          assert (r + [s])[..|r|] == r;
          assert s.kind != FuseVars ==> s.oldVar in Consumed(s);
        case _ =>
      }
    }
  }

  // ----- The start of the box -----

  /** The loops that ShiftInwards splits shift have room for one block. */
  ghost predicate Roomy(initial: map<string, Range>, splits: seq<Split>)
    requires PositiveFactors(splits)
  {
    splits == [] ||
    (var front, s := splits[..|splits| - 1], splits[|splits| - 1];
     Roomy(initial, front) && HasRoom(Ranges(initial, front), s))
  }

  ghost predicate HasRoom(r: map<string, Range>, s: Split) {
    s.kind == SplitVar && s.tail == ShiftInwards ==> RangeOf(r, s.oldVar).extent >= s.factor
  }

  ghost predicate AfterStart(r: map<string, Range>, names: set<string>, env: Env) {
    forall n :: n in names ==> RangeOf(r, n).min <= ValueOf(env, n)
  }

  lemma StepKeepsStart(initial: map<string, Range>, splits: seq<Split>, env: Env)
    requires Scheduled(initial, splits) && splits != []
    requires AfterStart(Ranges(initial, splits), Live(initial, splits), env)
    requires HasRoom(Ranges(initial, splits[..|splits| - 1]), splits[|splits| - 1])
    ensures var front, s := splits[..|splits| - 1], splits[|splits| - 1];
            AfterStart(Ranges(initial, front), Live(initial, front), Step(Ranges(initial, front), s, env))
  {
    var front, s := splits[..|splits| - 1], splits[|splits| - 1];
    var r := Ranges(initial, front);
    RangesOfUsed(initial, front);
    forall n | n in Live(initial, front) ensures RangeOf(r, n).min <= ValueOf(Step(r, s, env), n) {
      if n !in Consumed(s) {
        assert n in Live(initial, splits) && n !in Produced(s);
      } else {
        match s.kind
        case SplitVar =>
          assert s.inner in Live(initial, splits) && s.outer in Live(initial, splits);
          ProductNonneg(ValueOf(env, s.outer), s.factor);
        case FuseVars =>
          assert s.oldVar in Live(initial, splits);
          FuseParts(ValueOf(env, s.oldVar), r[s.inner].extent, r[s.outer].extent);
        case _ =>
          assert s.outer in Live(initial, splits);
      }
    }
  }

  /** With room for every shifted block nothing runs before its start. */
  lemma {:induction false} StartsHold(initial: map<string, Range>, splits: seq<Split>, env: Env)
    requires Scheduled(initial, splits) && Roomy(initial, splits)
    requires AfterStart(Ranges(initial, splits), Live(initial, splits), env)
    ensures AfterStart(initial, initial.Keys, Resolve(initial, splits, env))
  {
    if splits != [] {
      var front, s := splits[..|splits| - 1], splits[|splits| - 1];
      StepKeepsStart(initial, splits, env);
      StartsHold(initial, front, Step(Ranges(initial, front), s, env));
    }
  }

  /** A loop that is shifted inwards starts early exactly when it is shorter than a block, and never ends late. */
  lemma ShiftedExactly(r: map<string, Range>, s: Split)
    requires s.kind == SplitVar && s.tail == ShiftInwards && s.factor >= 1 && Paired(s)
    requires s.oldVar in r && r[s.oldVar].extent >= 1 && s.inner != s.oldVar && s.outer != s.oldVar
    ensures (exists env {:trigger Step(r, s, env)} ::
               && InBox(EntryRanges(r, s), {s.outer, s.inner}, env)
               && ValueOf(Step(r, s, env), s.oldVar) < r[s.oldVar].min)
       <==> r[s.oldVar].extent < s.factor
  {
    var after := EntryRanges(r, s);
    if r[s.oldVar].extent < s.factor {
      DivAtLeast(r[s.oldVar].extent - 1 + s.factor, s.factor, 1);
      var env: Env := map[s.outer := 0, s.inner := 0];
      assert InBox(after, {s.outer, s.inner}, env) && ValueOf(Step(r, s, env), s.oldVar) < r[s.oldVar].min;
    } else {
      forall env | InBox(after, {s.outer, s.inner}, env) ensures ValueOf(Step(r, s, env), s.oldVar) >= r[s.oldVar].min {
        ProductNonneg(ValueOf(env, s.outer), s.factor);
      }
    }
  }

  // ----- Pure definitions -----

  /**
   The loops of a pure definition visit every point of the box.  If it rounds up only loops that are covered, as
   `Auto` does, none runs past the end of the box, and if the loops that it shifts have room for a block, none
   runs before its start.
   */
  lemma PureStageIsSound(stage: Stage, initial: map<string, Range>, env: Env, point: Env)
    requires stage.Valid() && Scheduled(initial, stage.splits) && initial.Keys == stage.roots
    requires Executed(initial, stage.splits, NameSet(stage.dims), env)
    requires initial.Keys <= point.Keys && InBox(initial, initial.Keys, point)
    ensures exists visit :: Executed(initial, stage.splits, NameSet(stage.dims), visit)
                            && AgreeOn(initial.Keys, Resolve(initial, stage.splits, visit), point)
    ensures RoundsCovered(stage.splits) ==> BeforeEnd(initial, initial.Keys, Resolve(initial, stage.splits, env))
    ensures Roomy(initial, stage.splits) ==> AfterStart(initial, initial.Keys, Resolve(initial, stage.splits, env))
    ensures RoundsCovered(stage.splits) && Roomy(initial, stage.splits) ==>
              InBox(initial, initial.Keys, Resolve(initial, stage.splits, env))
  {
    EveryPointVisited(initial, stage.splits, point);
    if RoundsCovered(stage.splits) {
      EndsHold(initial, stage.splits, env, {});
      CoveredRoundsStayInside(stage.roots, stage.splits, {});
    }
    if Roomy(initial, stage.splits) {
      StartsHold(initial, stage.splits, env);
    }
  }
}
