/**
 Which loops of a derivation stand for reduction variables.  `Stage::split` splits exactly the loops that it
 is told are RVars; `purify` turns a reduction loop into a pure one.
 */
module LoopKinds {
  import opened SplitHistory

  /** The reduction loops ever derived, from those among the initial loops. */
  function RVarsOf(rvars: set<string>, splits: seq<Split>): set<string> {
    if splits == [] then rvars
    else RVarsEntry(RVarsOf(rvars, splits[..|splits| - 1]), splits[|splits| - 1])
  }

  function RVarsEntry(rvars: set<string>, s: Split): set<string> {
    match s.kind
    case PurifyRVar => rvars
    case _ => if Consumed(s) !! rvars then rvars else rvars + Produced(s)
  }

  /** Every split of a reduction loop is exact. */
  predicate SplitsRVarsExactly(rvars: set<string>, splits: seq<Split>) {
    splits == [] ||
    (&& SplitsRVarsExactly(rvars, splits[..|splits| - 1])
     && ExactIfRVar(RVarsOf(rvars, splits[..|splits| - 1]), splits[|splits| - 1]))
  }

  predicate ExactIfRVar(rvars: set<string>, s: Split) {
    s.kind == SplitVar && s.oldVar in rvars ==> s.exact
  }

  lemma {:induction false} RVarsAreUsed(roots: set<string>, rvars: set<string>, splits: seq<Split>)
    requires Replay(roots, splits).Some? && rvars <= roots
    ensures RVarsOf(rvars, splits) <= Replay(roots, splits).value.used
  {
    if splits != [] {
      RVarsAreUsed(roots, rvars, splits[..|splits| - 1]);
    }
  }

  lemma AppendKinds(rvars: set<string>, splits: seq<Split>, s: Split)
    ensures RVarsOf(rvars, splits + [s]) == RVarsEntry(RVarsOf(rvars, splits), s)
    ensures SplitsRVarsExactly(rvars, splits + [s])
       <==> SplitsRVarsExactly(rvars, splits) && ExactIfRVar(RVarsOf(rvars, splits), s)
  {
    assert (splits + [s])[..|splits|] == splits;
  }

  lemma RVarsElsewhere(rvars: set<string>, s: Split, oldName: string, newName: string)
    requires oldName !in Produced(s) + Consumed(s) && newName !in Produced(s) + Consumed(s)
    ensures RVarsEntry(RenameIf(rvars, oldName, newName), s) == RenameIf(RVarsEntry(rvars, s), oldName, newName)
    ensures ExactIfRVar(RenameIf(rvars, oldName, newName), s) <==> ExactIfRVar(rvars, s)
  {
    assert forall n :: n in Produced(s) + Consumed(s) ==> (n in rvars <==> n in RenameIf(rvars, oldName, newName));
    assert s.kind == SplitVar ==> s.oldVar in Consumed(s);
  }

  lemma RVarsRewritten(rvars: set<string>, s: Split, s': Split, oldName: string, newName: string)
    requires oldName in Produced(s) && oldName !in rvars && newName !in rvars
    requires Produced(s') == Renamed(Produced(s), oldName, newName) && RewrittenEntry(s, s', oldName, newName)
    ensures RVarsEntry(rvars, s') == RenameIf(RVarsEntry(rvars, s), oldName, newName)
    ensures ExactIfRVar(rvars, s') <==> ExactIfRVar(rvars, s)
  {
  }

  /** Rewriting the entry that defines a loop keeps the kinds of all loops. */
  lemma {:induction false} RenameKeepsKinds(roots: set<string>, rvars: set<string>, splits: seq<Split>,
                                            oldName: string, newName: string)
    requires Replay(roots, splits).Some? && InnerNamed(splits) && rvars <= roots
    requires oldName in Replay(roots, splits).value.live && oldName != ""
    requires newName !in Replay(roots, splits).value.used
    requires RenameDefinition(splits, oldName, newName).Rewritten?
    ensures var r := RenameDefinition(splits, oldName, newName).splits;
            && RVarsOf(rvars, r) == RenameIf(RVarsOf(rvars, splits), oldName, newName)
            && (SplitsRVarsExactly(rvars, splits) ==> SplitsRVarsExactly(rvars, r))
  {
    if splits != [] {
      var front, s := splits[..|splits| - 1], splits[|splits| - 1];
      var d := Replay(roots, front).value;
      LiveIsUsed(roots, front);
      RVarsAreUsed(roots, rvars, front);
      if oldName in Produced(s) {
        RenameStops(splits, oldName, newName);
        var r := RenameDefinition(splits, oldName, newName).splits;
        RVarsRewritten(RVarsOf(rvars, front), s, r[|r| - 1], oldName, newName);
      } else {
        RenameElsewhere(d, s, oldName, newName);
        RenameSkips(splits, oldName, newName);
        RenameKeepsKinds(roots, rvars, front, oldName, newName);
        RVarsElsewhere(RVarsOf(rvars, front), s, oldName, newName);
        AppendKinds(rvars, RenameDefinition(front, oldName, newName).splits, s);
      }
    }
  }

  /** Initial loops that the history does not mention have no effect on the kinds of others. */
  lemma {:induction false} MoreRVars(roots: set<string>, rvars: set<string>, splits: seq<Split>, extra: set<string>)
    requires Replay(roots, splits).Some? && extra !! Replay(roots, splits).value.used
    ensures RVarsOf(rvars + extra, splits) == RVarsOf(rvars, splits) + extra
    ensures SplitsRVarsExactly(rvars + extra, splits) <==> SplitsRVarsExactly(rvars, splits)
  {
    if splits != [] {
      var front, s := splits[..|splits| - 1], splits[|splits| - 1];
      LiveIsUsed(roots, front);
      MoreRVars(roots, rvars, front, extra);
      assert Consumed(s) !! extra;
      assert s.kind == SplitVar ==> s.oldVar in Consumed(s);
    }
  }

  /** The reduction loops among the initial loops of a shortened history. */
  ghost function RemainingRVars(roots: set<string>, rvars: set<string>, splits: seq<Split>,
                                removed: set<string>): set<string>
  {
    RemainingRoots(roots, splits, removed) * RVarsOf(rvars, splits)
  }

  /** A kept entry after a shortened history. */
  lemma KeptKinds(rest: set<string>, kept: seq<Split>, s: Split, before: set<string>, reductions: set<string>,
                  used: set<string>)
    requires Replay(rest, kept + [s]).Some?
    requires RVarsOf(before, kept) == reductions * Replay(rest, kept).value.used
    requires Replay(rest, kept).value.used <= used && Produced(s) !! used && reductions <= used
    ensures RVarsOf(before, kept + [s]) == RVarsEntry(reductions, s) * Replay(rest, kept + [s]).value.used
    ensures ExactIfRVar(reductions, s) ==> ExactIfRVar(RVarsOf(before, kept), s)
    ensures SplitsRVarsExactly(before, kept + [s])
       <==> SplitsRVarsExactly(before, kept) && ExactIfRVar(RVarsOf(before, kept), s)
  {
    ReplayAppend(rest, kept, s);
    AppendKinds(before, kept, s);
    LiveIsUsed(rest, kept);
    assert Consumed(s) <= Replay(rest, kept).value.used && (s.kind == SplitVar ==> s.oldVar in Consumed(s));
  }

  /** Dropping the entries of a removed loop keeps the kinds of the loops that remain. */
  lemma {:induction false} RemoveKeepsKinds(roots: set<string>, rvars: set<string>, splits: seq<Split>,
                                            removed: set<string>, name: string)
    requires Replay(roots, splits).Some? && name in removed && rvars <= roots
    requires forall m :: m in removed && m in Replay(roots, splits).value.used ==> m in Replay(roots, splits).value.live
    ensures var r := RemoveEntries(splits, removed, name);
            var rest := RemainingRoots(roots, splits, removed);
            var kinds := RemainingRVars(roots, rvars, splits, removed);
            && r.Kept? && Replay(rest, r.splits).Some?
            && RVarsOf(kinds, r.splits) == RVarsOf(rvars, splits) * Replay(rest, r.splits).value.used
            && (SplitsRVarsExactly(rvars, splits) ==> SplitsRVarsExactly(kinds, r.splits))
  {
    RemoveKeepsHistory(roots, splits, removed, name);
    if splits != [] {
      var front, s := splits[..|splits| - 1], splits[|splits| - 1];
      var d := Replay(roots, front).value;
      LiveIsUsed(roots, front);
      RVarsAreUsed(roots, rvars, front);
      var removed' := if Produced(s) !! removed then removed else removed + Consumed(s);
      RemoveKeepsHistory(roots, front, removed', name);
      RemoveKeepsKinds(roots, rvars, front, removed', name);
      var kept, rest := RemoveEntries(front, removed', name).splits, RemainingRoots(roots, front, removed');
      var e := Replay(rest, kept).value;
      LiveIsUsed(rest, kept);
      var before, reductions := RemainingRVars(roots, rvars, front, removed'), RVarsOf(rvars, splits);
      assert e.used <= d.used;
      assert rest * reductions == before;
      if Produced(s) !! removed {
        ReplayAppend(rest, kept, s);
        KeptKinds(rest, kept, s, before, RVarsOf(rvars, front), d.used);
      } else {
        var orphans := Produced(s) - removed;
        MoreRoots(rest, kept, orphans);
        MoreRVars(rest, before, kept, orphans * reductions);
        assert (rest + orphans) * reductions == before + orphans * reductions;
      }
    }
  }
}
