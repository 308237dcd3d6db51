/**
 `Stage::rfactor` rewrites an associative update of a Func into partial reductions, one per value of
 the preserved loops, followed by a merge.  This module gives the update, the intermediate Func and
 the merge their loop semantics and proves that the rewrite keeps the final array.
 */
module ReductionFactoring {
  import opened Collections
  import opened LoopNest
  import opened Names

  /** A site of the Func being updated. */
  type Cell = seq<int>

  /** A conjunct of the reduction-domain predicate and the reduction loops it mentions. */
  datatype Predicate = Predicate(holds: Point -> bool, uses: set<nat>)

  /** The update `f(index(r)) = op(f(index(r)), value(r))` for every `r` that meets `predicates`. */
  datatype Update<!V> = Update(
    index: Point -> Cell,
    value: Point -> V,
    predicates: seq<Predicate>,
    op: (V, V) -> V,
    identity: V)

  ghost predicate AssociatesOn<V>(op: (V, V) -> V, x: V, y: V, z: V) {
    op(op(x, y), z) == op(x, op(y, z))
  }

  ghost predicate Associative<V(!new)>(op: (V, V) -> V) {
    forall x, y, z :: AssociatesOn(op, x, y, z)
  }

  ghost predicate CommutesOn<V>(op: (V, V) -> V, x: V, y: V) {
    op(x, y) == op(y, x)
  }

  ghost predicate Commutative<V(!new)>(op: (V, V) -> V) {
    forall x, y :: CommutesOn(op, x, y)
  }

  ghost predicate IdentityOn<V>(op: (V, V) -> V, e: V, x: V) {
    op(e, x) == x && op(x, e) == x
  }

  ghost predicate TwoSidedIdentity<V(!new)>(op: (V, V) -> V, e: V) {
    forall x :: IdentityOn(op, e, x)
  }

  ghost predicate Agree(p: Point, q: Point, positions: set<nat>) {
    |p| == |q| && forall i :: i in positions && i < |p| ==> p[i] == q[i]
  }

  /** A predicate's truth depends only on the loops it mentions. */
  ghost predicate RespectsUses(pr: Predicate) {
    forall p, q :: Agree(p, q, pr.uses) ==> pr.holds(p) == pr.holds(q)
  }

  /** What `prove_associativity` and the update definition supply. */
  ghost predicate WellFormed<V(!new)>(u: Update<V>) {
    && Associative(u.op)
    && TwoSidedIdentity(u.op, u.identity)
    && forall i :: 0 <= i < |u.predicates| ==> RespectsUses(u.predicates[i])
  }

  // ----- The three reductions -----

  predicate Enabled<V>(u: Update<V>, p: Point) {
    forall i :: 0 <= i < |u.predicates| ==> u.predicates[i].holds(p)
  }

  /** Does the predicate mention a lifted loop? */
  predicate UsesLifted(pr: Predicate, keep: seq<bool>) {
    exists i :: 0 <= i < |keep| && !keep[i] && i in pr.uses
  }

  /** The predicates the merge keeps: those that mention no lifted loop. */
  function MergePredicates(predicates: seq<Predicate>, keep: seq<bool>): seq<Predicate> {
    if predicates == [] then []
    else
      MergePredicates(predicates[..|predicates| - 1], keep)
      + if UsesLifted(predicates[|predicates| - 1], keep) then [] else [predicates[|predicates| - 1]]
  }

  predicate MergeEnabled(predicates: seq<Predicate>, keep: seq<bool>, key: Point) {
    forall i :: 0 <= i < |predicates| ==> predicates[i].holds(Inject(keep, key))
  }

  ghost predicate InBounds<V>(u: Update<V>, pts: seq<Point>, cells: set<Cell>) {
    forall i :: 0 <= i < |pts| && Enabled(u, pts[i]) ==> u.index(pts[i]) in cells
  }

  /** The original update: one read-modify-write per enabled point, in order. */
  function RunOriginal<V>(u: Update<V>, f: map<Cell, V>, pts: seq<Point>): (r: map<Cell, V>)
    requires InBounds(u, pts, f.Keys)
    ensures r.Keys == f.Keys
  {
    if pts == [] then f
    else
      var p := pts[|pts| - 1];
      var g := RunOriginal(u, f, pts[..|pts| - 1]);
      if Enabled(u, p) then g[u.index(p) := u.op(g[u.index(p)], u.value(p))] else g
  }

  /** The pure definition of the intermediate Func: the identity everywhere. */
  function InitIntermediate<V>(u: Update<V>, cells: set<Cell>, keys: seq<Point>): map<(Cell, Point), V> {
    map c, k | c in cells && k in keys :: (c, k) := u.identity
  }

  ghost predicate Covers(keep: seq<bool>, pts: seq<Point>, keys: seq<Point>) {
    && (forall i :: 0 <= i < |pts| ==> |pts[i]| == |keep|)
    && (forall i :: 0 <= i < |pts| ==> Project(keep, pts[i]) in keys)
  }

  /** The update of the intermediate Func: the same points, each charged to its own partial. */
  function RunIntermediate<V>(u: Update<V>, keep: seq<bool>, cells: set<Cell>, keys: seq<Point>, pts: seq<Point>)
    : (m: map<(Cell, Point), V>)
    requires InBounds(u, pts, cells) && Covers(keep, pts, keys)
    ensures m.Keys == InitIntermediate(u, cells, keys).Keys
  {
    if pts == [] then InitIntermediate(u, cells, keys)
    else
      var p := pts[|pts| - 1];
      var m := RunIntermediate(u, keep, cells, keys, pts[..|pts| - 1]);
      if Enabled(u, p) then
        var site := (u.index(p), Project(keep, p));
        assert site.1 in keys;
        m[site := u.op(m[site], u.value(p))]
      else m
  }

  /** Every cell of the array absorbs the partial of one preserved point. */
  function Absorb<V>(u: Update<V>, g: map<Cell, V>, m: map<(Cell, Point), V>, k: Point): (r: map<Cell, V>)
    requires forall c :: c in g ==> (c, k) in m
    ensures r.Keys == g.Keys
    ensures forall c :: c in g ==> r[c] == u.op(g[c], m[(c, k)])
  {
    map c | c in g :: u.op(g[c], m[(c, k)])
  }

  /** The new update definition: every cell absorbs its partials, one preserved point after another. */
  function RunMerge<V>(u: Update<V>, keep: seq<bool>, predicates: seq<Predicate>,
                       f: map<Cell, V>, m: map<(Cell, Point), V>, keys: seq<Point>)
    : (r: map<Cell, V>)
    requires forall c, k :: c in f && k in keys ==> (c, k) in m
    ensures r.Keys == f.Keys
  {
    if keys == [] then f
    else
      var k := keys[|keys| - 1];
      var g := RunMerge(u, keep, predicates, f, m, keys[..|keys| - 1]);
      if MergeEnabled(predicates, keep, k) then
        assert k in keys;
        Absorb(u, g, m, k)
      else g
  }

  // ----- Predicates that survive into the merge -----

  lemma {:induction false} InjectProject(keep: seq<bool>, p: Point)
    requires |keep| == |p|
    ensures forall i :: 0 <= i < |p| && keep[i] ==> Inject(keep, Project(keep, p))[i] == p[i]
  {
    if keep != [] {
      InjectProject(keep[1..], p[1..]);
      var inner, key := Project(keep[1..], p[1..]), Project(keep, p);
      assert if keep[0] then key[0] == p[0] && key[1..] == inner else key == inner;
      var back := Inject(keep, key);
      assert back[1..] == Inject(keep[1..], inner);
      forall i | 0 <= i < |p| && keep[i] ensures back[i] == p[i] {
        if i > 0 {
          assert keep[1..][i - 1] && p[1..][i - 1] == p[i] && back[1..][i - 1] == back[i];
        }
      }
    }
  }

  /** A point that updates the original array is never filtered out of the merge. */
  lemma {:induction false} EnabledIsMerged(predicates: seq<Predicate>, keep: seq<bool>, p: Point)
    requires |keep| == |p|
    requires forall i :: 0 <= i < |predicates| ==> RespectsUses(predicates[i]) && predicates[i].holds(p)
    ensures MergeEnabled(MergePredicates(predicates, keep), keep, Project(keep, p))
  {
    if predicates != [] {
      var last := predicates[|predicates| - 1];
      EnabledIsMerged(predicates[..|predicates| - 1], keep, p);
      if !UsesLifted(last, keep) {
        InjectProject(keep, p);
        assert Agree(p, Inject(keep, Project(keep, p)), last.uses);
      }
    }
  }

  // ----- The merge absorbs one more partial update -----

  ghost predicate HasPartials<V>(f: map<Cell, V>, m: map<(Cell, Point), V>, keys: seq<Point>) {
    forall c, k :: c in f && k in keys ==> (c, k) in m
  }

  lemma {:induction false} MergeIgnores<V>(u: Update<V>, keep: seq<bool>, preds: seq<Predicate>, f: map<Cell, V>,
                                           m: map<(Cell, Point), V>, m': map<(Cell, Point), V>, keys: seq<Point>)
    requires HasPartials(f, m, keys) && HasPartials(f, m', keys)
    requires forall c, k :: c in f && k in keys ==> m[(c, k)] == m'[(c, k)]
    ensures RunMerge(u, keep, preds, f, m, keys) == RunMerge(u, keep, preds, f, m', keys)
  {
    if keys != [] {
      MergeIgnores(u, keep, preds, f, m, m', keys[..|keys| - 1]);
      assert keys[|keys| - 1] in keys;
    }
  }

  lemma {:induction false} MergeOfIdentities<V(!new)>(u: Update<V>, keep: seq<bool>, preds: seq<Predicate>,
                                                      f: map<Cell, V>, m: map<(Cell, Point), V>, keys: seq<Point>)
    requires HasPartials(f, m, keys) && TwoSidedIdentity(u.op, u.identity)
    requires forall c, k :: c in f && k in keys ==> m[(c, k)] == u.identity
    ensures RunMerge(u, keep, preds, f, m, keys) == f
  {
    if keys != [] {
      MergeOfIdentities(u, keep, preds, f, m, keys[..|keys| - 1]);
      assert keys[|keys| - 1] in keys;
      assert forall c :: c in f ==> IdentityOn(u.op, u.identity, f[c]);
    }
  }

  /** One read-modify-write of a cell. */
  function Bump<V>(u: Update<V>, g: map<Cell, V>, c: Cell, v: V): (r: map<Cell, V>)
    requires c in g
    ensures r.Keys == g.Keys
  {
    g[c := u.op(g[c], v)]
  }

  /** Adding `v` to the partial that is absorbed now adds it to the cell. */
  lemma AbsorbChanged<V(!new)>(u: Update<V>, g: map<Cell, V>, m: map<(Cell, Point), V>, k: Point, c: Cell, v: V)
    requires (forall c :: c in g ==> (c, k) in m) && c in g && Associative(u.op)
    ensures Absorb(u, g, m[(c, k) := u.op(m[(c, k)], v)], k) == Bump(u, Absorb(u, g, m, k), c, v)
  {
    assert AssociatesOn(u.op, g[c], m[(c, k)], v);
  }

  /** A value added to the cell before a partial is absorbed can be added after it. */
  lemma AbsorbLater<V(!new)>(u: Update<V>, g: map<Cell, V>, m: map<(Cell, Point), V>, k: Point, c: Cell, v: V)
    requires (forall c :: c in g ==> (c, k) in m) && c in g && Associative(u.op)
    requires TwoSidedIdentity(u.op, u.identity)
    requires Commutative(u.op) || m[(c, k)] == u.identity
    ensures Absorb(u, Bump(u, g, c, v), m, k) == Bump(u, Absorb(u, g, m, k), c, v)
  {
    var x := m[(c, k)];
    if Commutative(u.op) {
      assert AssociatesOn(u.op, g[c], v, x) && AssociatesOn(u.op, g[c], x, v) && CommutesOn(u.op, v, x);
    } else {
      assert IdentityOn(u.op, u.identity, g[c]) && IdentityOn(u.op, u.identity, u.op(g[c], v));
    }
  }

  /** The partials of cell `c` after key number `i` still hold the identity. */
  ghost predicate LaterUntouched<V>(u: Update<V>, m: map<(Cell, Point), V>, c: Cell, keys: seq<Point>, i: nat) {
    forall j :: i < j < |keys| ==> (c, keys[j]) in m && m[(c, keys[j])] == u.identity
  }

  lemma LaterUntouchedFront<V>(u: Update<V>, m: map<(Cell, Point), V>, c: Cell, keys: seq<Point>, i: nat)
    requires i + 1 < |keys|
    ensures LaterUntouched(u, m, c, keys, i) ==>
              LaterUntouched(u, m, c, keys[..|keys| - 1], i)
              && (c, keys[|keys| - 1]) in m && m[(c, keys[|keys| - 1])] == u.identity
  {
  }

  lemma {:induction false} MergeAbsorbs<V(!new)>(u: Update<V>, keep: seq<bool>, preds: seq<Predicate>,
                                                 f: map<Cell, V>, m: map<(Cell, Point), V>,
                                                 m': map<(Cell, Point), V>, keys: seq<Point>,
                                                 i: nat, c: Cell, v: V)
    requires HasPartials(f, m, keys) && Associative(u.op) && TwoSidedIdentity(u.op, u.identity)
    requires Distinct(keys) && i < |keys| && c in f && MergeEnabled(preds, keep, keys[i])
    requires (c, keys[i]) in m && m' == m[(c, keys[i]) := u.op(m[(c, keys[i])], v)]
    requires Commutative(u.op) || LaterUntouched(u, m, c, keys, i)
    ensures HasPartials(f, m', keys)
    ensures RunMerge(u, keep, preds, f, m', keys) == Bump(u, RunMerge(u, keep, preds, f, m, keys), c, v)
  {
    var n := |keys| - 1;
    var front, k := keys[..n], keys[n];
    assert k in keys;
    SamePartials(f, m, m', keys);
    assert HasPartials(f, m, front) && HasPartials(f, m', front);
    var g := RunMerge(u, keep, preds, f, m, front);
    if i == n {
      MergeIgnores(u, keep, preds, f, m, m', front);
      AbsorbChanged(u, g, m, k, c, v);
    } else {
      assert front[i] == keys[i];
      LaterUntouchedFront(u, m, c, keys, i);
      MergeAbsorbs(u, keep, preds, f, m, m', front, i, c, v);
      if MergeEnabled(preds, keep, k) {
        AbsorbBumped(u, g, m, m', k, c, v);
      }
    }
  }

  /** One more key is absorbed after the value was added. */
  lemma AbsorbBumped<V(!new)>(u: Update<V>, g: map<Cell, V>, m: map<(Cell, Point), V>, m': map<(Cell, Point), V>,
                              k: Point, c: Cell, v: V)
    requires (forall c :: c in g ==> (c, k) in m && (c, k) in m' && m[(c, k)] == m'[(c, k)]) && c in g
    requires Associative(u.op) && TwoSidedIdentity(u.op, u.identity)
    requires Commutative(u.op) || m[(c, k)] == u.identity
    ensures Absorb(u, Bump(u, g, c, v), m', k) == Bump(u, Absorb(u, g, m, k), c, v)
  {
    AbsorbLater(u, g, m, k, c, v);
    AbsorbSame(u, Bump(u, g, c, v), m, m', k);
  }

  lemma SamePartials<V>(f: map<Cell, V>, m: map<(Cell, Point), V>, m': map<(Cell, Point), V>, keys: seq<Point>)
    requires HasPartials(f, m, keys) && m'.Keys == m.Keys
    ensures HasPartials(f, m', keys)
  {
  }

  /** Absorbing reads the partials of one key only. */
  lemma AbsorbSame<V>(u: Update<V>, g: map<Cell, V>, m: map<(Cell, Point), V>, m': map<(Cell, Point), V>, k: Point)
    requires forall c :: c in g ==> (c, k) in m && (c, k) in m' && m[(c, k)] == m'[(c, k)]
    ensures Absorb(u, g, m, k) == Absorb(u, g, m', k)
  {
  }

  // ----- Meaning preservation -----

  /** The keys of later points never come before the keys of earlier ones. */
  ghost predicate KeysInOrder(keep: seq<bool>, pts: seq<Point>, keys: seq<Point>)
    requires Covers(keep, pts, keys)
  {
    forall a, b, i, j ::
      0 <= a <= b < |pts| && 0 <= i < |keys| && 0 <= j < |keys|
      && Project(keep, pts[a]) == keys[i] && Project(keep, pts[b]) == keys[j]
      ==> i <= j
  }

  /** A partial that no point was charged to still holds the identity. */
  lemma {:induction false} UntouchedPartial<V>(u: Update<V>, keep: seq<bool>, cells: set<Cell>, keys: seq<Point>,
                                               pts: seq<Point>, c: Cell, k: Point)
    requires InBounds(u, pts, cells) && Covers(keep, pts, keys) && c in cells && k in keys
    requires forall i :: 0 <= i < |pts| ==> Project(keep, pts[i]) != k
    ensures RunIntermediate(u, keep, cells, keys, pts)[(c, k)] == u.identity
  {
    if pts != [] {
      var front := pts[..|pts| - 1];
      UntouchedPartial(u, keep, cells, keys, front, c, k);
    }
  }

  /** When keys come in order, the partials after the last point's key are untouched before it runs. */
  lemma OrderedLaterUntouched<V>(u: Update<V>, keep: seq<bool>, cells: set<Cell>, keys: seq<Point>, pts: seq<Point>,
                                 i: nat, c: Cell)
    requires pts != [] && InBounds(u, pts, cells) && Covers(keep, pts, keys) && Distinct(keys) && c in cells
    requires KeysInOrder(keep, pts, keys) && i < |keys| && keys[i] == Project(keep, pts[|pts| - 1])
    ensures LaterUntouched(u, RunIntermediate(u, keep, cells, keys, pts[..|pts| - 1]), c, keys, i)
  {
    var front := pts[..|pts| - 1];
    forall j | i < j < |keys|
      ensures keys[j] in keys && RunIntermediate(u, keep, cells, keys, front)[(c, keys[j])] == u.identity
    {
      forall a | 0 <= a < |front| ensures Project(keep, front[a]) != keys[j] {
        assert front[a] == pts[a];
      }
      UntouchedPartial(u, keep, cells, keys, front, c, keys[j]);
    }
  }

  /** Partials followed by the merge compute what the original update computes. */
  lemma {:induction false} PartialsThenMerge<V(!new)>(u: Update<V>, keep: seq<bool>, f: map<Cell, V>,
                                                      keys: seq<Point>, pts: seq<Point>)
    requires WellFormed(u) && InBounds(u, pts, f.Keys) && Covers(keep, pts, keys) && Distinct(keys)
    requires Commutative(u.op) || KeysInOrder(keep, pts, keys)
    ensures HasPartials(f, RunIntermediate(u, keep, f.Keys, keys, pts), keys)
    ensures RunMerge(u, keep, MergePredicates(u.predicates, keep), f,
                     RunIntermediate(u, keep, f.Keys, keys, pts), keys)
         == RunOriginal(u, f, pts)
  {
    var preds := MergePredicates(u.predicates, keep);
    if pts == [] {
      MergeOfIdentities(u, keep, preds, f, InitIntermediate(u, f.Keys, keys), keys);
    } else {
      var n := |pts| - 1;
      var front, p := pts[..n], pts[n];
      PartialsThenMerge(u, keep, f, keys, front);
      if Enabled(u, p) {
        var m := RunIntermediate(u, keep, f.Keys, keys, front);
        var c := u.index(p);
        var i :| 0 <= i < |keys| && keys[i] == Project(keep, p);
        EnabledIsMerged(u.predicates, keep, p);
        if !Commutative(u.op) {
          OrderedLaterUntouched(u, keep, f.Keys, keys, pts, i, c);
        }
        var m' := m[(c, keys[i]) := u.op(m[(c, keys[i])], u.value(p))];
        MergeAbsorbs(u, keep, preds, f, m, m', keys, i, c, u.value(p));
      }
    }
  }

  /** The final array of the original update stage. */
  function Original<V>(u: Update<V>, dims: seq<Dim>, f: map<Cell, V>): map<Cell, V>
    requires InBounds(u, Points(RVarDims(dims)), f.Keys)
  {
    RunOriginal(u, f, Points(RVarDims(dims)))
  }

  lemma {:induction false} KeysCover(loops: seq<Dim>, keep: seq<bool>)
    requires |keep| == |loops|
    ensures Covers(keep, Points(loops), Points(Project(keep, loops)))
    ensures Distinct(Points(Project(keep, loops)))
    ensures ClosedOutward(keep) ==> KeysInOrder(keep, Points(loops), Points(Project(keep, loops)))
  {
    var pts, kept := Points(loops), Project(keep, loops);
    var keys := Points(kept);
    PointsLength(loops);
    PointsLength(kept);
    forall n | 0 <= n < |pts|
      ensures |pts[n]| == |keep| && Project(keep, pts[n]) in keys
    {
      KeyIsAtPosition(loops, keep, n);
    }
    forall a, b | 0 <= a < b < |keys| ensures keys[a] != keys[b] {
      PointsDistinct(kept, a, b);
    }
    if ClosedOutward(keep) {
      forall a, b, i, j | 0 <= a <= b < |pts| && 0 <= i < |keys| && 0 <= j < |keys|
        && Project(keep, pts[a]) == keys[i] && Project(keep, pts[b]) == keys[j]
        ensures i <= j
      {
        KeyIsAtPosition(loops, keep, a);
        KeyIsAtPosition(loops, keep, b);
        ClosedKeyOrder(loops, keep, a, b);
        assert i == KeyPosition(loops, keep, a) && j == KeyPosition(loops, keep, b);
      }
    }
  }

  /** The final array after `rfactor`. */
  function Factored<V>(u: Update<V>, loops: seq<Dim>, keep: seq<bool>, preds: seq<Predicate>, f: map<Cell, V>)
    : map<Cell, V>
    requires |keep| == |loops| && InBounds(u, Points(loops), f.Keys)
  {
    KeysCover(loops, keep);
    var keys := Points(Project(keep, loops));
    var m := RunIntermediate(u, keep, f.Keys, keys, Points(loops));
    RunMerge(u, keep, preds, f, m, keys)
  }

  // ----- Accepting a set of preserved RVars -----

  /** Among the RVar dims, everything outside a preserved dim is preserved. */
  ghost predicate OutwardClosed(dims: seq<Dim>, rfactored: seq<bool>)
    requires |dims| == |rfactored|
  {
    forall i, j :: 0 <= i < j < |dims| && dims[i].isRVar && dims[j].isRVar && rfactored[i] ==> rfactored[j]
  }

  ghost predicate AllPreserved(dims: seq<Dim>, rfactored: seq<bool>)
    requires |dims| == |rfactored|
  {
    forall i :: 0 <= i < |dims| && dims[i].isRVar ==> rfactored[i]
  }

  ghost predicate AllTrue(keep: seq<bool>) {
    forall i :: 0 <= i < |keep| ==> keep[i]
  }

  lemma OutwardClosedHead(dims: seq<Dim>, rfactored: seq<bool>)
    requires |dims| == |rfactored| && dims != []
    ensures OutwardClosed(dims, rfactored) <==>
            && OutwardClosed(dims[1..], rfactored[1..])
            && (dims[0].isRVar && rfactored[0] ==> AllPreserved(dims[1..], rfactored[1..]))
    ensures AllPreserved(dims, rfactored) <==>
            (dims[0].isRVar ==> rfactored[0]) && AllPreserved(dims[1..], rfactored[1..])
  {
    var ds, rs := dims[1..], rfactored[1..];
    assert forall i :: 1 <= i < |dims| ==> dims[i] == ds[i - 1] && rfactored[i] == rs[i - 1];
  }

  lemma ClosedOutwardHead(keep: seq<bool>)
    requires keep != []
    ensures ClosedOutward(keep) <==> ClosedOutward(keep[1..]) && (keep[0] ==> AllTrue(keep[1..]))
    ensures AllTrue(keep) <==> keep[0] && AllTrue(keep[1..])
  {
    var ks := keep[1..];
    assert forall i :: 1 <= i < |keep| ==> keep[i] == ks[i - 1];
  }

  /** The flags of the reduction loops alone say the same thing as the flags of the whole dim list. */
  lemma {:induction false} FilteredClosed(dims: seq<Dim>, rfactored: seq<bool>)
    requires |dims| == |rfactored|
    ensures OutwardClosed(dims, rfactored) <==> ClosedOutward(RVarFlags(dims, rfactored))
    ensures AllPreserved(dims, rfactored) <==> AllTrue(RVarFlags(dims, rfactored))
  {
    if dims != [] {
      var keep, inner := RVarFlags(dims, rfactored), RVarFlags(dims[1..], rfactored[1..]);
      FilteredClosed(dims[1..], rfactored[1..]);
      OutwardClosedHead(dims, rfactored);
      if dims[0].isRVar {
        assert keep[0] == rfactored[0] && keep[1..] == inner;
        ClosedOutwardHead(keep);
      } else {
        assert keep == inner;
      }
    }
  }

  /** The downward scan made when the operator is not known to be commutative. */
  method ScanOuterLoops(dims: seq<Dim>, rfactored: seq<bool>) returns (ok: bool)
    requires |dims| == |rfactored|
    requires forall i :: 0 <= i < |dims| && rfactored[i] ==> dims[i].isRVar
    ensures ok <==> OutwardClosed(dims, rfactored)
  {
    var lastRVar := -1;
    var i := |dims|;
    while i > 0
      invariant 0 <= i <= |dims|
      invariant lastRVar == -1 || (i <= lastRVar < |dims| && dims[lastRVar].isRVar)
      invariant forall j :: i <= j < |dims| && dims[j].isRVar ==> lastRVar != -1 && lastRVar <= j
      invariant forall a, b :: i <= a < b < |dims| && dims[a].isRVar && dims[b].isRVar && rfactored[a] ==> rfactored[b]
    {
      i := i - 1;
      if lastRVar != -1 && rfactored[i] && !rfactored[lastRVar] {
        return false;
      }
      if dims[i].isRVar {
        lastRVar := i;
      }
    }
    return true;
  }

  // ----- rfactor -----

  /** What `prove_associativity` answers. */
  datatype ProverResult = ProverResult(associative: bool, commutative: bool)

  /** The prover is trusted to answer yes only when the fact holds. */
  ghost predicate Sound<V(!new)>(proof: ProverResult, u: Update<V>) {
    && (proof.associative ==> WellFormed(u))
    && (proof.commutative ==> Commutative(u.op))
  }

  datatype Refusal = NotAssociative | NotAnRVar | NameInUse | InnerWithoutOuter | AmbiguousNames

  /** The loops the merge keeps and the predicates it keeps, or the reason for refusing. */
  datatype Outcome = Refused(reason: Refusal) | Accepted(keep: seq<bool>, mergePredicates: seq<Predicate>)

  function DimNames(dims: seq<Dim>): (r: seq<string>)
    ensures |r| == |dims|
  {
    seq(|dims|, i requires 0 <= i < |dims| => dims[i].name)
  }

  function CountTrue(flags: seq<bool>): nat {
    if flags == [] then 0 else (if flags[0] then 1 else 0) + CountTrue(flags[1..])
  }

  /** Every preserved RVar names a reduction loop and every new Var is unused. */
  ghost predicate PairsUsable(dims: seq<Dim>, preserved: seq<(string, string)>) {
    forall k :: 0 <= k < |preserved| ==>
      && FirstMatch(DimNames(dims), preserved[k].0) < |dims| && dims[FirstMatch(DimNames(dims), preserved[k].0)].isRVar
      && FirstMatch(DimNames(dims), preserved[k].1) == |dims|
  }

  /** The dims that some pair names. */
  ghost function Marked(dims: seq<Dim>, preserved: seq<(string, string)>): (flags: seq<bool>)
    ensures |flags| == |dims|
  {
    seq(|dims|, i => exists k :: 0 <= k < |preserved| && FirstMatch(DimNames(dims), preserved[k].0) == i)
  }

  lemma MarkOneMore(dims: seq<Dim>, preserved: seq<(string, string)>, k: nat)
    requires k < |preserved| && FirstMatch(DimNames(dims), preserved[k].0) < |dims|
    ensures Marked(dims, preserved[..k + 1]) ==
              Marked(dims, preserved[..k])[FirstMatch(DimNames(dims), preserved[k].0) := true]
  {
    var before, after := preserved[..k], preserved[..k + 1];
    forall i | 0 <= i < |dims|
      ensures Marked(dims, after)[i] == (i == FirstMatch(DimNames(dims), preserved[k].0) || Marked(dims, before)[i])
    {
      if Marked(dims, before)[i] {
        var j :| 0 <= j < k && FirstMatch(DimNames(dims), before[j].0) == i;
        assert after[j] == before[j];
      }
      assert after[k] == preserved[k];
      if Marked(dims, after)[i] {
        var j :| 0 <= j <= k && FirstMatch(DimNames(dims), after[j].0) == i;
        assert j < k ==> before[j] == after[j];
      }
    }
  }

  /** Marks the dims named by `preserved`, with the checks made on each pair. */
  method MarkPreserved(dims: seq<Dim>, preserved: seq<(string, string)>)
    returns (refusal: Outcome, rfactored: seq<bool>)
    ensures refusal.Accepted? <==> PairsUsable(dims, preserved)
    ensures refusal.Accepted? ==> rfactored == Marked(dims, preserved)
    ensures refusal.Accepted? ==> forall i :: 0 <= i < |dims| && rfactored[i] ==> dims[i].isRVar
    ensures refusal.Refused? ==> refusal.reason == NotAnRVar || refusal.reason == NameInUse
  {
    rfactored := seq(|dims|, _ => false);
    for k := 0 to |preserved|
      invariant rfactored == Marked(dims, preserved[..k]) && PairsUsable(dims, preserved[..k])
      invariant forall i :: 0 <= i < |dims| && rfactored[i] ==> dims[i].isRVar
    {
      var d := FirstMatch(DimNames(dims), preserved[k].0);
      if d == |dims| || !dims[d].isRVar {
        return Refused(NotAnRVar), rfactored;
      }
      MarkOneMore(dims, preserved, k);
      rfactored := rfactored[d := true];
      if FirstMatch(DimNames(dims), preserved[k].1) < |dims| {
        return Refused(NameInUse), rfactored;
      }
    }
    assert preserved[..|preserved|] == preserved;
    refusal := Accepted([], []);
  }

  /**
   `Stage::rfactor`.  When it accepts, the partial reductions followed by the merge leave every array
   exactly as the original update would.
   */
  method Rfactor<V(!new)>(u: Update<V>, proof: ProverResult, dims: seq<Dim>, preserved: seq<(string, string)>)
    returns (r: Outcome)
    requires Sound(proof, u)
    ensures r == Refused(NotAssociative) <==> !proof.associative
    ensures r == Refused(InnerWithoutOuter) <==>
            && proof.associative && PairsUsable(dims, preserved)
            && !proof.commutative && !OutwardClosed(dims, Marked(dims, preserved))
    ensures r.Accepted? <==>
            && proof.associative && PairsUsable(dims, preserved)
            && (proof.commutative || OutwardClosed(dims, Marked(dims, preserved)))
            && CountTrue(RVarFlags(dims, Marked(dims, preserved))) == |preserved|
    ensures r.Accepted? ==>
      && r.keep == RVarFlags(dims, Marked(dims, preserved))
      && forall f: map<Cell, V> :: InBounds(u, Points(RVarDims(dims)), f.Keys) ==>
           Factored(u, RVarDims(dims), r.keep, r.mergePredicates, f) == Original(u, dims, f)
  {
    if !proof.associative {
      return Refused(NotAssociative);
    }
    var refusal, rfactored := MarkPreserved(dims, preserved);
    if refusal.Refused? {
      return refusal;
    }
    if !proof.commutative {
      var ok := ScanOuterLoops(dims, rfactored);
      if !ok {
        return Refused(InnerWithoutOuter);
      }
    }
    FilteredClosed(dims, rfactored);
    var keep := RVarFlags(dims, rfactored);
    if CountTrue(keep) != |preserved| {
      return Refused(AmbiguousNames);
    }
    var kept: seq<Predicate> := [];
    for i := 0 to |u.predicates|
      invariant kept == MergePredicates(u.predicates[..i], keep)
    {
      assert u.predicates[..i + 1][..i] == u.predicates[..i];
      if !UsesLifted(u.predicates[i], keep) {
        kept := kept + [u.predicates[i]];
      }
    }
    assert u.predicates[..|u.predicates|] == u.predicates;
    r := Accepted(keep, kept);
    forall f: map<Cell, V> | InBounds(u, Points(RVarDims(dims)), f.Keys)
      ensures Factored(u, RVarDims(dims), keep, kept, f) == Original(u, dims, f)
    {
      RfactorPreservesMeaning(u, RVarDims(dims), keep, f);
    }
  }

  /**
   For an operator that is commutative, or a preserved set closed outward, the rewritten reduction and
   the original ordered one agree on every cell of every array.
   */
  lemma RfactorPreservesMeaning<V(!new)>(u: Update<V>, loops: seq<Dim>, keep: seq<bool>, f: map<Cell, V>)
    requires |keep| == |loops| && WellFormed(u) && InBounds(u, Points(loops), f.Keys)
    requires Commutative(u.op) || ClosedOutward(keep)
    ensures Factored(u, loops, keep, MergePredicates(u.predicates, keep), f) == RunOriginal(u, f, Points(loops))
  {
    KeysCover(loops, keep);
    PartialsThenMerge(u, keep, f, Points(Project(keep, loops)), Points(loops));
  }
}
