/**
 The derivation history that `Stage::split`, `fuse`, `purify` and `rename` append to and rewrite, read as
 a derivation of the current loops from the initial ones.
 */
module SplitHistory {
  import opened Collections
  import opened Names

  datatype Tail = Auto | RoundUp | GuardWithIf | ShiftInwards

  datatype SplitKind = SplitVar | FuseVars | RenameVar | PurifyRVar

  /** One entry of the `splits` list. For a fuse, `oldVar` is the fused loop; renames use `outer` only. */
  datatype Split = Entry(oldVar: string, outer: string, inner: string, factor: int, exact: bool, tail: Tail,
                         kind: SplitKind)

  /** The loops an entry removes from the nest. */
  function Consumed(s: Split): set<string> {
    if s.kind == FuseVars then {s.inner, s.outer} else {s.oldVar}
  }

  /** The loops an entry adds to the nest. */
  function Produced(s: Split): set<string> {
    match s.kind
    case SplitVar => {s.inner, s.outer}
    case FuseVars => {s.oldVar}
    case _ => {s.outer}
  }

  /** The two loops of a split, or of a fuse, differ. */
  predicate Paired(s: Split) {
    (s.kind == SplitVar || s.kind == FuseVars) ==> s.inner != s.outer
  }

  /** The loops of the nest, and every name that was ever one. */
  datatype Derived = Derived(live: set<string>, used: set<string>)

  /** Every entry consumes live loops and produces names never seen before. */
  function Replay(roots: set<string>, splits: seq<Split>): Option<Derived> {
    if splits == [] then Some(Derived(roots, roots))
    else
      match Replay(roots, splits[..|splits| - 1])
      case None => None
      case Some(d) => ReplayEntry(d, splits[|splits| - 1])
  }

  function ReplayEntry(d: Derived, s: Split): Option<Derived> {
    if Paired(s) && Consumed(s) <= d.live && Produced(s) !! d.used then
      Some(Derived(d.live - Consumed(s) + Produced(s), d.used + Produced(s)))
    else None
  }

  /** No name ever used was derived from a loop that is still live. */
  ghost predicate Unextended(d: Derived) {
    forall m, n :: m in d.live && n in d.used ==> !Extends(n, m)
  }

  /** The names a history leaves, and the fact that qualified names below a live loop are unused. */
  ghost predicate WellFormed(roots: set<string>, splits: seq<Split>) {
    && Replay(roots, splits).Some?
    && Unextended(Replay(roots, splits).value)
    && "" !in Replay(roots, splits).value.used
  }

  lemma ReplayAppend(roots: set<string>, splits: seq<Split>, s: Split)
    requires Replay(roots, splits).Some?
    ensures Replay(roots, splits + [s]) == ReplayEntry(Replay(roots, splits).value, s)
  {
    assert (splits + [s])[..|splits|] == splits;
  }

  lemma {:induction false} LiveIsUsed(roots: set<string>, splits: seq<Split>)
    requires Replay(roots, splits).Some?
    ensures Replay(roots, splits).value.live <= Replay(roots, splits).value.used
    ensures roots <= Replay(roots, splits).value.used
  {
    if splits != [] {
      LiveIsUsed(roots, splits[..|splits| - 1]);
    }
  }

  /** Deriving `parent.x` for some unqualified `x` keeps qualified names unambiguous. */
  ghost predicate DerivedFrom(name: string, parent: string) {
    exists x :: Unqualified(x) && name == Qualify(parent, x)
  }

  /** Names below one live loop may replace it without making any name ambiguous. */
  lemma DerivedKeepsUnextended(d: Derived, parent: string, gone: set<string>, added: set<string>, used: set<string>)
    requires Unextended(d) && d.live <= d.used && parent in d.live && parent in gone
    requires forall n :: n in added ==> DerivedFrom(n, parent)
    requires used <= d.used + added
    ensures Unextended(Derived(d.live - gone + added, used))
  {
    forall m, n | m in d.live - gone + added && n in used
      ensures !Extends(n, m)
    {
      if m in added {
        var x :| Unqualified(x) && m == Qualify(parent, x);
        QualifyExtends(parent, x);
        if n in d.used {
          if Extends(n, m) {
            ExtendsTransitive(n, m, parent);
          }
        } else {
          var y :| Unqualified(y) && n == Qualify(parent, y);
          AncestorsOfQualified(parent, y, m);
          assert |m| > |parent|;
        }
      } else if n !in d.used {
        var y :| Unqualified(y) && n == Qualify(parent, y);
        AncestorsOfQualified(parent, y, m);
      }
    }
  }

  // ----- rename's backward search -----

  /** The outcome of looking backward for the entry that defines a loop. */
  datatype Search = Undefined | Blocked | Rewritten(splits: seq<Split>)

  /** `Stage::rename`'s search: the last entry that mentions the loop decides. */
  function RenameDefinition(splits: seq<Split>, oldName: string, newName: string): Search {
    if splits == [] then Undefined
    else
      var front, s := splits[..|splits| - 1], splits[|splits| - 1];
      if s.kind == FuseVars && (s.inner == oldName || s.outer == oldName) then Blocked
      else if s.kind == FuseVars && s.oldVar == oldName then Rewritten(front + [s.(oldVar := newName)])
      else if s.kind != FuseVars && s.inner == oldName then Rewritten(front + [s.(inner := newName)])
      else if s.kind != FuseVars && s.outer == oldName then Rewritten(front + [s.(outer := newName)])
      else if s.kind != FuseVars && s.oldVar == oldName then Blocked
      else
        match RenameDefinition(front, oldName, newName)
        case Rewritten(r) => Rewritten(r + [s])
        case other => other
  }

  function Renamed(names: set<string>, oldName: string, newName: string): (r: set<string>)
    requires oldName in names
  {
    names - {oldName} + {newName}
  }

  /** Entries of these kinds leave `inner` empty. */
  predicate InnerNamed(splits: seq<Split>) {
    forall i :: 0 <= i < |splits| && (splits[i].kind == RenameVar || splits[i].kind == PurifyRVar) ==>
      splits[i].inner == ""
  }

  lemma RenameProduced(d: Derived, s: Split, s': Split, oldName: string, newName: string)
    requires d.live <= d.used && ReplayEntry(d, s).Some? && oldName in Produced(s)
    requires newName !in ReplayEntry(d, s).value.used
    requires Consumed(s') == Consumed(s) && Paired(s') && Produced(s') == Renamed(Produced(s), oldName, newName)
    ensures var e := ReplayEntry(d, s).value;
            oldName in e.live && oldName in e.used
            && ReplayEntry(d, s') == Some(Derived(Renamed(e.live, oldName, newName), Renamed(e.used, oldName, newName)))
  {
    var e := ReplayEntry(d, s).value;
    assert oldName !in d.used;
    assert d.live - Consumed(s') + Produced(s') == Renamed(e.live, oldName, newName);
    assert d.used + Produced(s') == Renamed(e.used, oldName, newName);
  }

  /** An entry that does not mention the renamed loop has the same effect on the renamed nest. */
  lemma RenameElsewhere(d: Derived, s: Split, oldName: string, newName: string)
    requires d.live <= d.used && ReplayEntry(d, s).Some? && oldName !in Produced(s)
    requires oldName in ReplayEntry(d, s).value.live && newName !in ReplayEntry(d, s).value.used
    ensures var e := ReplayEntry(d, s).value;
            && oldName in d.live && oldName in d.used && oldName in e.used && newName !in d.used
            && oldName !in Consumed(s)
            && ReplayEntry(Derived(Renamed(d.live, oldName, newName), Renamed(d.used, oldName, newName)), s)
               == Some(Derived(Renamed(e.live, oldName, newName), Renamed(e.used, oldName, newName)))
  {
    var e := ReplayEntry(d, s).value;
    assert Renamed(d.live, oldName, newName) - Consumed(s) + Produced(s) == Renamed(e.live, oldName, newName);
    assert Renamed(d.used, oldName, newName) + Produced(s) == Renamed(e.used, oldName, newName);
  }

  /** The last entry defines the loop: the search stops there. */
  lemma RenameStops(splits: seq<Split>, oldName: string, newName: string)
    requires splits != [] && InnerNamed(splits) && oldName != ""
    requires oldName in Produced(splits[|splits| - 1]) && oldName !in Consumed(splits[|splits| - 1])
    requires Paired(splits[|splits| - 1]) && newName !in Produced(splits[|splits| - 1])
    ensures var r := RenameDefinition(splits, oldName, newName);
            && r.Rewritten? && |r.splits| == |splits| && InnerNamed(r.splits)
            && r.splits[..|splits| - 1] == splits[..|splits| - 1]
            && var s, s' := splits[|splits| - 1], r.splits[|splits| - 1];
               && Consumed(s') == Consumed(s) && Paired(s')
               && Produced(s') == Renamed(Produced(s), oldName, newName)
               && RewrittenEntry(s, s', oldName, newName)
  {
  }

  /**
   Renaming a live loop never meets an entry that consumed it, and rewriting the entry that defines it
   gives a history of the same loops under the new name.
   */
  lemma {:induction false} RenameKeepsHistory(roots: set<string>, splits: seq<Split>, oldName: string, newName: string)
    requires Replay(roots, splits).Some? && InnerNamed(splits)
    requires oldName in Replay(roots, splits).value.live && oldName != ""
    requires newName !in Replay(roots, splits).value.used
    ensures oldName in Replay(roots, splits).value.used
    ensures var d := Replay(roots, splits).value;
            match RenameDefinition(splits, oldName, newName)
            case Blocked => false
            case Undefined => oldName in roots
            case Rewritten(r) =>
              && |r| == |splits| && InnerNamed(r)
              && Replay(roots, r)
                 == Some(Derived(Renamed(d.live, oldName, newName), Renamed(d.used, oldName, newName)))
  {
    LiveIsUsed(roots, splits);
    if splits != [] {
      var front, s := splits[..|splits| - 1], splits[|splits| - 1];
      var d := Replay(roots, front).value;
      LiveIsUsed(roots, front);
      if oldName in Produced(s) {
        RenameStops(splits, oldName, newName);
        var r := RenameDefinition(splits, oldName, newName).splits;
        RenameProduced(d, s, r[|r| - 1], oldName, newName);
      } else {
        RenameElsewhere(d, s, oldName, newName);
        RenameKeepsHistory(roots, front, oldName, newName);
        RenameSkips(splits, oldName, newName);
        match RenameDefinition(front, oldName, newName)
        case Rewritten(r) => ReplayAppend(roots, r, s);
        case _ =>
      }
    }
  }

  /** An entry that does not mention the loop is skipped. */
  lemma RenameSkips(splits: seq<Split>, oldName: string, newName: string)
    requires splits != [] && InnerNamed(splits) && oldName != ""
    requires oldName !in Produced(splits[|splits| - 1]) && oldName !in Consumed(splits[|splits| - 1])
    ensures RenameDefinition(splits, oldName, newName)
            == match RenameDefinition(splits[..|splits| - 1], oldName, newName)
               case Rewritten(r) => Rewritten(r + [splits[|splits| - 1]])
               case other => other
  {
    var s := splits[|splits| - 1];
    assert s.kind == SplitVar ==> s.inner in Produced(s);
  }

  // ----- The inner-variable rule for update definitions -----

  /** `inner_vars` of `Stage::split`: loops that recompute a point of another iteration when they run past their end. */
  function InnerVars(splits: seq<Split>): set<string> {
    if splits == [] then {}
    else InnerVarsEntry(InnerVars(splits[..|splits| - 1]), splits[|splits| - 1])
  }

  function InnerVarsEntry(inner: set<string>, s: Split): set<string> {
    match s.kind
    case SplitVar =>
      var withInner := inner + {s.inner};
      if s.oldVar in withInner then withInner + {s.outer} else withInner
    case FuseVars =>
      if s.inner in inner || s.outer in inner then inner + {s.oldVar} else inner
    case _ =>
      if s.oldVar in inner then inner + {s.outer} else inner
  }

  /** What `Stage::split` lets into the history of an update definition. */
  predicate Acceptable(splits: seq<Split>) {
    splits == [] ||
    (&& Acceptable(splits[..|splits| - 1])
     && EntryAcceptable(InnerVars(splits[..|splits| - 1]), splits[|splits| - 1]))
  }

  predicate EntryAcceptable(inner: set<string>, s: Split) {
    s.kind == SplitVar ==>
      && (s.tail == RoundUp || s.tail == GuardWithIf)
      && (s.tail == RoundUp ==> s.oldVar !in inner)
      && (s.exact ==> s.tail == GuardWithIf)
  }

  /**
   Entry `k` made the loop `n`, and by way of splits, fuses and renames `n` comes from the inner loop of a split, if it
   is not one itself.
   */
  ghost predicate FromInnerAt(splits: seq<Split>, n: string, k: nat)
    requires k < |splits|
    decreases k
  {
    && n in Produced(splits[k])
    && ((splits[k].kind == SplitVar && n == splits[k].inner)
        || exists c, i :: c in Consumed(splits[k]) && 0 <= i < k && FromInnerAt(splits, c, i))
  }

  ghost predicate FromInner(splits: seq<Split>, n: string) {
    exists k :: 0 <= k < |splits| && FromInnerAt(splits, n, k)
  }

  lemma {:induction false} FromInnerInFront(splits: seq<Split>, n: string, k: nat)
    requires k < |splits| - 1
    ensures FromInnerAt(splits, n, k) <==> FromInnerAt(splits[..|splits| - 1], n, k)
    decreases k
  {
    var front := splits[..|splits| - 1];
    forall c, i | c in Consumed(splits[k]) && 0 <= i < k
      ensures FromInnerAt(splits, c, i) <==> FromInnerAt(front, c, i)
    {
      FromInnerInFront(splits, c, i);
    }
    assert front[k] == splits[k];
  }

  lemma FromInnerBelow(splits: seq<Split>, n: string, k: nat) returns (c: string, i: nat)
    requires k < |splits| && FromInnerAt(splits, n, k)
    ensures n in Produced(splits[k])
    ensures (splits[k].kind == SplitVar && n == splits[k].inner)
            || (c in Consumed(splits[k]) && i < k && FromInnerAt(splits, c, i))
  {
    c, i := "", 0;
    if !(splits[k].kind == SplitVar && n == splits[k].inner) {
      c, i :| c in Consumed(splits[k]) && 0 <= i < k && FromInnerAt(splits, c, i);
    }
  }

  /** What the last entry adds to the loops that come from inner loops. */
  lemma FromInnerByLast(splits: seq<Split>, n: string)
    requires splits != []
    ensures var front, s := splits[..|splits| - 1], splits[|splits| - 1];
            FromInner(splits, n) <==>
              || FromInner(front, n)
              || (n in Produced(s)
                  && ((s.kind == SplitVar && n == s.inner) || exists c :: c in Consumed(s) && FromInner(front, c)))
  {
    var last := |splits| - 1;
    var front, s := splits[..last], splits[last];
    forall m, k | 0 <= k < last ensures FromInnerAt(splits, m, k) <==> FromInnerAt(front, m, k) {
      FromInnerInFront(splits, m, k);
    }
    if FromInner(front, n) {
      var k :| 0 <= k < last && FromInnerAt(front, n, k);
      assert FromInnerAt(splits, n, k);
    }
    if n in Produced(s) {
      if s.kind == SplitVar && n == s.inner {
        assert FromInnerAt(splits, n, last);
      }
      if c :| c in Consumed(s) && FromInner(front, c) {
        var i :| 0 <= i < last && FromInnerAt(front, c, i);
        assert FromInnerAt(splits, c, i);
        assert FromInnerAt(splits, n, last);
      }
    }
    if FromInner(splits, n) {
      var k :| 0 <= k <= last && FromInnerAt(splits, n, k);
      if k < last {
        assert FromInnerAt(front, n, k);
      } else {
        var c, i := FromInnerBelow(splits, n, k);
        assert !(s.kind == SplitVar && n == s.inner) ==> FromInnerAt(front, c, i);
      }
    }
  }

  /** `inner_vars` are exactly the loops that come from inner loops of splits. */
  lemma {:induction false} InnerVarsExactly(roots: set<string>, splits: seq<Split>, n: string)
    requires Replay(roots, splits).Some?
    ensures n in InnerVars(splits) <==> FromInner(splits, n)
  {
    if splits != [] {
      var front, s := splits[..|splits| - 1], splits[|splits| - 1];
      LiveIsUsed(roots, front);
      forall c ensures c in InnerVars(front) <==> FromInner(front, c) {
        InnerVarsExactly(roots, front, c);
      }
      FromInnerByLast(splits, n);
    }
  }

  function RenameIf(names: set<string>, oldName: string, newName: string): set<string> {
    if oldName in names then names - {oldName} + {newName} else names
  }

  lemma {:induction false} InnerVarsUsed(roots: set<string>, splits: seq<Split>)
    requires Replay(roots, splits).Some?
    ensures InnerVars(splits) <= Replay(roots, splits).value.used
  {
    if splits != [] {
      InnerVarsUsed(roots, splits[..|splits| - 1]);
    }
  }

  lemma AppendAcceptable(splits: seq<Split>, s: Split)
    ensures Acceptable(splits + [s]) <==> Acceptable(splits) && EntryAcceptable(InnerVars(splits), s)
    ensures InnerVars(splits + [s]) == InnerVarsEntry(InnerVars(splits), s)
  {
    assert (splits + [s])[..|splits|] == splits;
  }

  lemma InnerVarsElsewhere(inner: set<string>, s: Split, oldName: string, newName: string)
    requires oldName !in Produced(s) + Consumed(s) && newName !in Produced(s) + Consumed(s)
    ensures InnerVarsEntry(RenameIf(inner, oldName, newName), s)
            == RenameIf(InnerVarsEntry(inner, s), oldName, newName)
    ensures EntryAcceptable(inner, s) ==> EntryAcceptable(RenameIf(inner, oldName, newName), s)
  {
    var after := InnerVarsEntry(inner, s);
    assert forall n :: n in Produced(s) + Consumed(s) ==> (n in inner <==> n in RenameIf(inner, oldName, newName));
    assert oldName in after <==> oldName in inner;
  }

  /** The defining entry before and after it is rewritten. */
  ghost predicate RewrittenEntry(s: Split, s': Split, oldName: string, newName: string) {
    && s'.kind == s.kind && s'.tail == s.tail && s'.exact == s.exact && s'.factor == s.factor
    && Consumed(s') == Consumed(s)
    && s'.oldVar == (if s.kind == FuseVars then newName else s.oldVar)
    && s'.inner == (if s.kind == SplitVar && s.inner == oldName then newName else s.inner)
    && s'.outer == (if s.kind != FuseVars && s.outer == oldName then newName else s.outer)
  }

  lemma InnerVarsRewritten(inner: set<string>, s: Split, s': Split, oldName: string, newName: string)
    requires oldName in Produced(s) && oldName !in Consumed(s) && oldName !in inner && Paired(s)
    requires newName !in Produced(s) + Consumed(s) + inner
    requires RewrittenEntry(s, s', oldName, newName)
    ensures InnerVarsEntry(inner, s') == RenameIf(InnerVarsEntry(inner, s), oldName, newName)
    ensures EntryAcceptable(inner, s) ==> EntryAcceptable(inner, s')
  {
  }

  /** Rewriting the defining entry renames the loop in `inner_vars` and keeps the history acceptable. */
  lemma {:induction false} RenameKeepsAcceptable(roots: set<string>, splits: seq<Split>, oldName: string,
                                                 newName: string)
    requires Replay(roots, splits).Some? && InnerNamed(splits)
    requires oldName in Replay(roots, splits).value.live && oldName != ""
    requires newName !in Replay(roots, splits).value.used
    ensures match RenameDefinition(splits, oldName, newName)
            case Rewritten(r) =>
              && (Acceptable(splits) ==> Acceptable(r))
              && InnerVars(r) == RenameIf(InnerVars(splits), oldName, newName)
            case _ => oldName !in InnerVars(splits)
  {
    InnerVarsUsed(roots, splits);
    LiveIsUsed(roots, splits);
    if splits != [] {
      var front, s := splits[..|splits| - 1], splits[|splits| - 1];
      var d := Replay(roots, front).value;
      LiveIsUsed(roots, front);
      InnerVarsUsed(roots, front);
      if oldName in Produced(s) {
        RenameStops(splits, oldName, newName);
        var r := RenameDefinition(splits, oldName, newName).splits;
        InnerVarsRewritten(InnerVars(front), s, r[|r| - 1], oldName, newName);
      } else {
        RenameElsewhere(d, s, oldName, newName);
        RenameKeepsAcceptable(roots, front, oldName, newName);
        RenameSkips(splits, oldName, newName);
        InnerVarsElsewhere(InnerVars(front), s, oldName, newName);
        match RenameDefinition(front, oldName, newName)
        case Rewritten(r) => AppendAcceptable(r, s);
        case _ =>
      }
    }
  }

  // ----- remove's backward sweep -----

  datatype Sweep = Stuck | Kept(splits: seq<Split>, removed: set<string>)

  /** `Stage::remove`: entries that produce a removed loop are dropped and their sources are removed too. */
  function RemoveEntries(splits: seq<Split>, removed: set<string>, name: string): Sweep {
    if splits == [] then Kept([], removed)
    else
      var front, s := splits[..|splits| - 1], splits[|splits| - 1];
      if name in Consumed(s) then Stuck
      else if Produced(s) !! removed then
        match RemoveEntries(front, removed, name)
        case Stuck => Stuck
        case Kept(kept, r) => Kept(kept + [s], r)
      else RemoveEntries(front, removed + Consumed(s), name)
  }

  /** The initial loops of the shortened history: what is left of the old ones, and orphaned siblings. */
  ghost function RemainingRoots(roots: set<string>, splits: seq<Split>, removed: set<string>): set<string> {
    if splits == [] then roots - removed
    else
      var front, s := splits[..|splits| - 1], splits[|splits| - 1];
      if Produced(s) !! removed then RemainingRoots(roots, front, removed)
      else RemainingRoots(roots, front, removed + Consumed(s)) + (Produced(s) - removed)
  }

  lemma {:induction false} MoreRoots(roots: set<string>, splits: seq<Split>, extra: set<string>)
    requires Replay(roots, splits).Some? && extra !! Replay(roots, splits).value.used
    ensures var d := Replay(roots, splits).value;
            Replay(roots + extra, splits) == Some(Derived(d.live + extra, d.used + extra))
  {
    if splits != [] {
      var front, s := splits[..|splits| - 1], splits[|splits| - 1];
      var d := Replay(roots, front).value;
      LiveIsUsed(roots, front);
      MoreRoots(roots, front, extra);
      assert (d.live + extra) - Consumed(s) + Produced(s) == (d.live - Consumed(s) + Produced(s)) + extra;
      assert d.used + extra + Produced(s) == d.used + Produced(s) + extra;
    }
  }

  /** Removing a live loop never gets stuck and leaves a derivation of the other live loops. */
  lemma {:induction false} RemoveKeepsHistory(roots: set<string>, splits: seq<Split>, removed: set<string>,
                                              name: string)
    requires Replay(roots, splits).Some? && name in removed
    requires forall m :: m in removed && m in Replay(roots, splits).value.used ==> m in Replay(roots, splits).value.live
    ensures var d := Replay(roots, splits).value;
            var r := RemoveEntries(splits, removed, name);
            && r.Kept? && |r.splits| <= |splits| && (InnerNamed(splits) ==> InnerNamed(r.splits))
            && Replay(RemainingRoots(roots, splits, removed), r.splits).Some?
            && var e := Replay(RemainingRoots(roots, splits, removed), r.splits).value;
               && e.live == d.live - removed && e.used <= d.used
  {
    LiveIsUsed(roots, splits);
    if splits != [] {
      var front, s := splits[..|splits| - 1], splits[|splits| - 1];
      var d := Replay(roots, front).value;
      LiveIsUsed(roots, front);
      if Produced(s) !! removed {
        RemoveKeepsHistory(roots, front, removed, name);
        var kept := RemoveEntries(front, removed, name).splits;
        var rest := RemainingRoots(roots, front, removed);
        ReplayAppend(rest, kept, s);
        var e := Replay(rest, kept).value;
        assert e.live - Consumed(s) + Produced(s) == (d.live - Consumed(s) + Produced(s)) - removed;
      } else {
        RemoveKeepsHistory(roots, front, removed + Consumed(s), name);
        var kept := RemoveEntries(front, removed + Consumed(s), name).splits;
        var rest := RemainingRoots(roots, front, removed + Consumed(s));
        var orphans := Produced(s) - removed;
        MoreRoots(rest, kept, orphans);
        assert (d.live - (removed + Consumed(s))) + orphans == (d.live - Consumed(s) + Produced(s)) - removed;
      }
    }
  }

  lemma {:induction false} RemoveKeepsAcceptable(splits: seq<Split>, removed: set<string>, name: string)
    requires RemoveEntries(splits, removed, name).Kept?
    ensures var kept := RemoveEntries(splits, removed, name).splits;
            && InnerVars(kept) <= InnerVars(splits)
            && (Acceptable(splits) ==> Acceptable(kept))
  {
    if splits != [] {
      var front, s := splits[..|splits| - 1], splits[|splits| - 1];
      if Produced(s) !! removed {
        RemoveKeepsAcceptable(front, removed, name);
        AppendAcceptable(RemoveEntries(front, removed, name).splits, s);
      } else {
        RemoveKeepsAcceptable(front, removed + Consumed(s), name);
      }
    }
  }

  // ----- Loops below a ShiftInwards split -----

  /** `descends_from_shiftinwards_outer` of `Stage::split`: loops and the factors that cover them. */
  function ShiftInwardsDescendants(splits: seq<Split>): map<string, int> {
    if splits == [] then map[]
    else
      var m, s := ShiftInwardsDescendants(splits[..|splits| - 1]), splits[|splits| - 1];
      if s.kind == SplitVar && s.tail == ShiftInwards then m[s.outer := s.factor]
      else if s.kind == SplitVar && s.oldVar in m then m[s.inner := m[s.oldVar]][s.outer := m[s.oldVar]]
      else if (s.kind == RenameVar || s.kind == PurifyRVar) && s.oldVar in m then m[s.outer := m[s.oldVar]]
      else m
  }

  /** Entry `k` made the loop `n`, by splits and renames alone, out of the outer loop of the ShiftInwards split `j`. */
  ghost predicate Descends(splits: seq<Split>, n: string, j: nat, k: nat)
    requires j <= k < |splits|
    decreases k
  {
    if k == j then splits[j].kind == SplitVar && splits[j].tail == ShiftInwards && n == splits[j].outer
    else
      && n in Produced(splits[k]) && splits[k].kind != FuseVars
      && !(splits[k].kind == SplitVar && splits[k].tail == ShiftInwards)
      && exists i :: j <= i < k && Descends(splits, splits[k].oldVar, j, i)
  }

  /** `n` descends from a ShiftInwards split by the factor `f`. */
  ghost predicate CoveredBy(splits: seq<Split>, n: string, f: int) {
    exists j, k :: 0 <= j <= k < |splits| && Descends(splits, n, j, k) && splits[j].factor == f
  }

  lemma {:induction false} DescendsInFront(splits: seq<Split>, n: string, j: nat, k: nat)
    requires j <= k < |splits| - 1
    ensures Descends(splits, n, j, k) <==> Descends(splits[..|splits| - 1], n, j, k)
    decreases k
  {
    var front, above := splits[..|splits| - 1], splits[k].oldVar;
    forall i | j <= i < k ensures Descends(splits, above, j, i) <==> Descends(front, above, j, i) {
      DescendsInFront(splits, above, j, i);
    }
    assert front[k] == splits[k] && front[j] == splits[j];
    if i :| j <= i < k && Descends(splits, above, j, i) {
      assert Descends(front, front[k].oldVar, j, i);
    }
  }

  lemma DescendsBelow(splits: seq<Split>, n: string, j: nat, k: nat) returns (i: nat)
    requires j < k < |splits| && Descends(splits, n, j, k)
    ensures j <= i < k && Descends(splits, splits[k].oldVar, j, i)
  {
    i :| j <= i < k && Descends(splits, splits[k].oldVar, j, i);
  }

  lemma CoveredInFront(splits: seq<Split>, n: string, f: int)
    requires splits != [] && CoveredBy(splits[..|splits| - 1], n, f)
    ensures CoveredBy(splits, n, f)
  {
    var front := splits[..|splits| - 1];
    var j, k :| 0 <= j <= k < |front| && Descends(front, n, j, k) && front[j].factor == f;
    DescendsInFront(splits, n, j, k);
  }

  /** What the last entry adds to the loops below ShiftInwards splits. */
  lemma CoveredByLast(splits: seq<Split>, n: string, f: int)
    requires splits != []
    ensures var front, s := splits[..|splits| - 1], splits[|splits| - 1];
            CoveredBy(splits, n, f) <==>
              || CoveredBy(front, n, f)
              || (if s.kind == SplitVar && s.tail == ShiftInwards then n == s.outer && f == s.factor
                  else s.kind != FuseVars && n in Produced(s) && CoveredBy(front, s.oldVar, f))
  {
    var last := |splits| - 1;
    var front, s := splits[..last], splits[last];
    if CoveredBy(front, n, f) {
      CoveredInFront(splits, n, f);
    } else if s.kind == SplitVar && s.tail == ShiftInwards && n == s.outer && f == s.factor {
      assert Descends(splits, n, last, last);
    } else if !(s.kind == SplitVar && s.tail == ShiftInwards) && s.kind != FuseVars && n in Produced(s)
              && CoveredBy(front, s.oldVar, f) {
      var j, i :| 0 <= j <= i < last && Descends(front, s.oldVar, j, i) && front[j].factor == f;
      DescendsInFront(splits, s.oldVar, j, i);
      assert Descends(splits, n, j, last);
    }
    if CoveredBy(splits, n, f) {
      var j, k :| 0 <= j <= k < |splits| && Descends(splits, n, j, k) && splits[j].factor == f;
      if k < last {
        DescendsInFront(splits, n, j, k);
        assert CoveredBy(front, n, f);
      } else if j < last {
        var i := DescendsBelow(splits, n, j, k);
        DescendsInFront(splits, s.oldVar, j, i);
        assert CoveredBy(front, s.oldVar, f);
      }
    }
  }

  /** The map holds exactly the loops that descend from a ShiftInwards split, each with that split's factor. */
  lemma {:induction false} CoveredExactly(roots: set<string>, splits: seq<Split>, n: string, f: int)
    requires Replay(roots, splits).Some?
    ensures var m := ShiftInwardsDescendants(splits);
            && m.Keys <= Replay(roots, splits).value.used
            && (n in m && m[n] == f <==> CoveredBy(splits, n, f))
  {
    if splits != [] {
      var front, s := splits[..|splits| - 1], splits[|splits| - 1];
      LiveIsUsed(roots, front);
      CoveredExactly(roots, front, n, f);
      CoveredExactly(roots, front, s.oldVar, f);
      CoveredByLast(splits, n, f);
      assert s.kind != FuseVars ==> s.outer in Produced(s) && (s.kind == SplitVar ==> s.inner in Produced(s));
    }
  }
}
