/** `Func::reorder_storage`: puts the listed storage dimensions in order by swapping pairs. */
module StorageOrder {
  import opened Collections
  import opened Names

  datatype StorageDim = StorageDim(variable: string, alignment: int)

  datatype Error = SameName | NotFound | TooFew

  datatype Result = Ok | Err(error: Error)

  predicate Matches(d: StorageDim, v: string) {
    VarNameMatch(d.variable, v)
  }

  function Swap<T>(s: seq<T>, i: nat, j: nat): (r: seq<T>)
    requires i < |s| && j < |s|
    ensures |r| == |s|
  {
    s[i := s[j]][j := s[i]]
  }

  /** `v` names the dimension at `p` and no other. */
  ghost predicate IsAt(dims: seq<StorageDim>, v: string, p: nat) {
    p < |dims| && forall q {:trigger dims[q]} :: 0 <= q < |dims| ==> (Matches(dims[q], v) <==> q == p)
  }

  ghost predicate Missing(dims: seq<StorageDim>, v: string) {
    forall q {:trigger dims[q]} :: 0 <= q < |dims| ==> !Matches(dims[q], v)
  }

  /** Each variable names one dimension, different variables different ones; only the last may name none. */
  ghost predicate Located(dims: seq<StorageDim>, vars: seq<string>, places: seq<nat>) {
    && (|places| == |vars| || (|places| == |vars| - 1 && Missing(dims, vars[|places|])))
    && Distinct(places)
    && forall k {:trigger LocatedAt(dims, vars, places, k)} :: 0 <= k < |places| ==> LocatedAt(dims, vars, places, k)
  }

  ghost predicate LocatedAt(dims: seq<StorageDim>, vars: seq<string>, places: seq<nat>, k: nat) {
    k < |vars| && k < |places| && IsAt(dims, vars[k], places[k])
  }

  /** What is listed may have moved along with its place; the rest has not. */
  ghost predicate Moved(dims: seq<StorageDim>, places: seq<nat>, dims': seq<StorageDim>, places': seq<nat>) {
    && |dims'| == |dims| && |places'| == |places|
    && multiset(places') == multiset(places)
    && (forall k {:trigger MovedAt(dims, places, dims', places', k)} :: 0 <= k < |places| ==>
      MovedAt(dims, places, dims', places', k))
    && (forall p :: 0 <= p < |dims| && p !in places ==> dims'[p] == dims[p])
  }

  predicate MovedAt(dims: seq<StorageDim>, places: seq<nat>, dims': seq<StorageDim>, places': seq<nat>, k: nat) {
    && k < |places| && k < |places'| && places[k] < |dims| && places'[k] < |dims'|
    && dims'[places'[k]] == dims[places[k]]
  }

  lemma MovedTwice(dims: seq<StorageDim>, places: seq<nat>, dims1: seq<StorageDim>, places1: seq<nat>,
                   dims2: seq<StorageDim>, places2: seq<nat>)
    requires Moved(dims, places, dims1, places1) && Moved(dims1, places1, dims2, places2)
    ensures Moved(dims, places, dims2, places2)
  {
    forall k | 0 <= k < |places| ensures MovedAt(dims, places, dims2, places2, k) {
      assert MovedAt(dims, places, dims1, places1, k) && MovedAt(dims1, places1, dims2, places2, k);
    }
    forall p | 0 <= p < |dims| && p !in places ensures dims2[p] == dims[p] {
      assert p in places1 ==> p in multiset(places1) ==> p in multiset(places) ==> p in places;
    }
  }

  /** The outcome of one pairwise call: the dimensions, or None if `x` is not found. */
  function PairOutcome(dims: seq<StorageDim>, x: string, y: string, i: nat,
                       yLoc: Option<nat>): (r: Option<seq<StorageDim>>)
    requires i <= |dims| && (yLoc.Some? ==> yLoc.value < |dims|)
    ensures r.Some? ==> |r.value| == |dims|
    decreases |dims| - i
  {
    if i == |dims| then None
    else if Matches(dims[i], y) then PairOutcome(dims, x, y, i + 1, Some(i))
    else if Matches(dims[i], x) then Some(if yLoc.Some? then Swap(dims, i, yLoc.value) else dims)
    else PairOutcome(dims, x, y, i + 1, yLoc)
  }

  predicate NamesFirst(d: StorageDim, x: string, y: string) {
    Matches(d, x) && !Matches(d, y)
  }

  /** A pairwise call is refused exactly when no dimension goes by `x` alone; `y` need not be there at all. */
  lemma {:induction false} RefusedExactlyWhen(dims: seq<StorageDim>, x: string, y: string, i: nat, yLoc: Option<nat>)
    requires i <= |dims| && (yLoc.Some? ==> yLoc.value < |dims|)
    ensures PairOutcome(dims, x, y, i, yLoc).None? <==>
              forall k {:trigger NamesFirst(dims[k], x, y)} :: i <= k < |dims| ==> !NamesFirst(dims[k], x, y)
    decreases |dims| - i
  {
    if i < |dims| {
      assert NamesFirst(dims[i], x, y) <==> Matches(dims[i], x) && !Matches(dims[i], y);
      RefusedExactlyWhen(dims, x, y, i + 1, if Matches(dims[i], y) then Some(i) else yLoc);
    }
  }

  /** A missing `y` goes unnoticed. */
  lemma {:induction false} MissingIsIgnored(dims: seq<StorageDim>, x: string, y: string, i: nat, a: nat)
    requires IsAt(dims, x, a) && Missing(dims, y) && i <= a
    ensures PairOutcome(dims, x, y, i, None) == Some(dims)
    decreases a - i
  {
    assert Matches(dims[i], x) <==> i == a;
    if i < a {
      MissingIsIgnored(dims, x, y, i + 1, a);
    }
  }

  /** A pairwise call that is accepted permutes the dimensions. */
  lemma {:induction false} PairPermutes(dims: seq<StorageDim>, x: string, y: string, i: nat, yLoc: Option<nat>)
    requires i <= |dims| && (yLoc.Some? ==> yLoc.value < i)
    ensures match PairOutcome(dims, x, y, i, yLoc) case None => true case Some(r) => multiset(r) == multiset(dims)
    decreases |dims| - i
  {
    if i < |dims| {
      PairPermutes(dims, x, y, i + 1, if Matches(dims[i], y) then Some(i) else yLoc);
    }
  }

  /** Some dimension goes by `x` and not by `y`. */
  ghost predicate HasFirst(dims: seq<StorageDim>, x: string, y: string) {
    exists d :: d in multiset(dims) && NamesFirst(d, x, y)
  }

  /** The listed variables differ from each later one and name a dimension that the later one does not. */
  ghost predicate Orderable(dims: seq<StorageDim>, vars: seq<string>, k: nat, l: nat)
    requires k < |vars| && l < |vars|
  {
    vars[k] != vars[l] && HasFirst(dims, vars[k], vars[l])
  }

  ghost predicate FirstOrderable(dims: seq<StorageDim>, vars: seq<string>, k: nat, to: nat)
    requires k < to <= |vars|
  {
    forall l :: k < l < to ==> Orderable(dims, vars, k, l)
  }

  ghost predicate AllOrderable(dims: seq<StorageDim>, vars: seq<string>, from: nat) {
    forall k :: from <= k < |vars| ==> FirstOrderable(dims, vars, k, |vars|)
  }

  lemma OrderablePermuted(dims: seq<StorageDim>, dims': seq<StorageDim>, vars: seq<string>, from: nat)
    requires multiset(dims') == multiset(dims)
    ensures AllOrderable(dims', vars, from) <==> AllOrderable(dims, vars, from)
  {
    forall k, l | from <= k < l < |vars| ensures Orderable(dims', vars, k, l) <==> Orderable(dims, vars, k, l) {
    }
    forall k | from <= k < |vars|
      ensures FirstOrderable(dims', vars, k, |vars|) <==> FirstOrderable(dims, vars, k, |vars|)
    {
    }
  }

  lemma OrderableFrom(dims: seq<StorageDim>, dims': seq<StorageDim>, vars: seq<string>, from: nat)
    requires from < |vars| && multiset(dims') == multiset(dims)
    ensures AllOrderable(dims, vars, from)
       <==> FirstOrderable(dims, vars, from, |vars|) && AllOrderable(dims', vars, from + 1)
    ensures |vars| - from <= 2 ==> AllOrderable(dims', vars, from + 1)
  {
    OrderablePermuted(dims, dims', vars, from + 1);
  }

  /** With `x` and `y` each naming one dimension, a pairwise call puts `x` first. */
  lemma {:induction false} PairOutcomeIs(dims: seq<StorageDim>, x: string, y: string, i: nat, yLoc: Option<nat>, a: nat,
                                         b: nat)
    requires IsAt(dims, x, a) && IsAt(dims, y, b) && a != b && i <= a
    requires yLoc == if b < i then Some(b) else None
    ensures PairOutcome(dims, x, y, i, yLoc) == Some(if b < a then Swap(dims, a, b) else dims)
    decreases |dims| - i
  {
    assert Matches(dims[i], x) <==> i == a;
    assert Matches(dims[i], y) <==> i == b;
    if i < a {
      PairOutcomeIs(dims, x, y, i + 1, if i == b then Some(i) else yLoc, a, b);
    }
  }

  /** Swapping two listed dimensions swaps their places. */
  lemma SwapMoves(dims: seq<StorageDim>, vars: seq<string>, places: seq<nat>, k: nat, l: nat)
    requires Located(dims, vars, places) && k < |places| && l < |places| && k != l
    requires places[k] < |dims| && places[l] < |dims|
    ensures Located(Swap(dims, places[k], places[l]), vars, Swap(places, k, l))
    ensures Moved(dims, places, Swap(dims, places[k], places[l]), Swap(places, k, l))
  {
    var a, b := places[k], places[l];
    var dims', places' := Swap(dims, a, b), Swap(places, k, l);
    assert LocatedAt(dims, vars, places, k) && LocatedAt(dims, vars, places, l);
    forall m | 0 <= m < |places|
      ensures LocatedAt(dims', vars, places', m) && MovedAt(dims, places, dims', places', m)
    {
      SwapMovesAt(dims, vars, places, k, l, m);
    }
    assert multiset(places') == multiset(places);
    if |places| < |vars| {
      forall q | 0 <= q < |dims'| ensures !Matches(dims'[q], vars[|places|]) {
        assert dims'[q] == dims[if q == a then b else if q == b then a else q];
      }
    }
  }

  lemma SwapMovesAt(dims: seq<StorageDim>, vars: seq<string>, places: seq<nat>, k: nat, l: nat, m: nat)
    requires Located(dims, vars, places) && k < |places| && l < |places| && k != l && m < |places|
    requires places[k] < |dims| && places[l] < |dims|
    ensures LocatedAt(Swap(dims, places[k], places[l]), vars, Swap(places, k, l), m)
    ensures MovedAt(dims, places, Swap(dims, places[k], places[l]), Swap(places, k, l), m)
  {
    assert LocatedAt(dims, vars, places, m);
    assert places[k] != places[l];
    assert m != k && m != l ==> places[m] != places[k] && places[m] != places[l];
    var a, b, dims' := places[k], places[l], Swap(dims, places[k], places[l]);
    forall q | 0 <= q < |dims'| ensures Matches(dims'[q], vars[m]) <==> q == Swap(places, k, l)[m] {
      assert dims'[q] == dims[if q == a then b else if q == b then a else q];
    }
  }

  lemma NothingMoved(dims: seq<StorageDim>, vars: seq<string>, places: seq<nat>)
    requires Located(dims, vars, places)
    ensures Moved(dims, places, dims, places)
  {
    forall k | 0 <= k < |places| ensures MovedAt(dims, places, dims, places, k) {
      assert LocatedAt(dims, vars, places, k);
    }
  }

  /** A pairwise call on listed variables, seen from the places. */
  lemma PairMoves(dims: seq<StorageDim>, vars: seq<string>, places: seq<nat>, k: nat, l: nat)
    requires Located(dims, vars, places) && k < |places| && l < |places| && k != l
    ensures vars[k] != vars[l] && PairOutcome(dims, vars[k], vars[l], 0, None).Some?
    ensures var dims', places' := PairOutcome(dims, vars[k], vars[l], 0, None).value, PairPlaces(places, k, l);
            Located(dims', vars, places') && Moved(dims, places, dims', places')
  {
    assert LocatedAt(dims, vars, places, k) && LocatedAt(dims, vars, places, l);
    assert places[k] != places[l];
    assert Matches(dims[places[k]], vars[k]);
    PairOutcomeIs(dims, vars[k], vars[l], 0, None, places[k], places[l]);
    if places[l] < places[k] {
      SwapMoves(dims, vars, places, k, l);
    } else {
      NothingMoved(dims, vars, places);
    }
  }

  function PairPlaces(places: seq<nat>, k: nat, l: nat): (r: seq<nat>)
    requires k < |places| && l < |places|
    ensures |r| == |places|
  {
    if places[l] < places[k] then Swap(places, k, l) else places
  }

  ghost predicate Increasing(places: seq<nat>, from: nat) {
    forall k, l :: 0 <= k < from && k < l < |places| ==> places[k] < places[l]
  }

  /** The place at `start` is before the later ones up to `to`. */
  ghost predicate Smallest(places: seq<nat>, start: nat, to: nat) {
    forall l :: start < l < to && l < |places| ==> places[start] < places[l]
  }

  lemma PairKeepsOrder(places: seq<nat>, start: nat, i: nat)
    requires start < i < |places| && Distinct(places) && Increasing(places, start) && Smallest(places, start, i)
    ensures Increasing(PairPlaces(places, start, i), start) && Smallest(PairPlaces(places, start, i), start, i + 1)
  {
  }

  lemma OrderableSame(dims: seq<StorageDim>, dims': seq<StorageDim>, vars: seq<string>, k: nat, l: nat)
    requires k < l < |vars| && multiset(dims') == multiset(dims)
    ensures Orderable(dims', vars, k, l) <==> Orderable(dims, vars, k, l)
    ensures !Orderable(dims, vars, k, l) ==> !FirstOrderable(dims', vars, k, |vars|)
  {
  }

  class Func {
    var storageDims: seq<StorageDim>

    constructor (dims: seq<StorageDim>)
      ensures storageDims == dims
    {
      storageDims := dims;
    }

    /** `reorder_storage(x, y)`. */
    method ReorderPair(x: string, y: string) returns (r: Result)
      modifies this
      ensures x == y ==> r == Err(SameName)
      ensures x != y ==> match PairOutcome(old(storageDims), x, y, 0, None)
                         case None => r == Err(NotFound) && storageDims == old(storageDims)
                         case Some(dims) => r == Ok && storageDims == dims
      ensures r == Ok <==> x != y && HasFirst(old(storageDims), x, y)
      ensures r != Ok ==> storageDims == old(storageDims)
      ensures multiset(storageDims) == multiset(old(storageDims))
    {
      if x == y {
        return Err(SameName);
      }
      RefusedExactlyWhen(storageDims, x, y, 0, None);
      PairPermutes(storageDims, x, y, 0, None);
      assert HasFirst(storageDims, x, y) <==> exists k :: 0 <= k < |storageDims| && NamesFirst(storageDims[k], x, y);
      var foundY := false;
      var yLoc := 0;
      for i := 0 to |storageDims|
        invariant storageDims == old(storageDims) && (foundY ==> 0 <= yLoc < i)
        invariant PairOutcome(storageDims, x, y, 0, None) ==
                    PairOutcome(storageDims, x, y, i, if foundY then Some(yLoc) else None)
      {
        if VarNameMatch(storageDims[i].variable, y) {
          foundY := true;
          yLoc := i;
        } else if VarNameMatch(storageDims[i].variable, x) {
          if foundY {
            storageDims := Swap(storageDims, i, yLoc);
          }
          return Ok;
        }
      }
      return Err(NotFound);
    }

    /** A pairwise call within a list of variables. */
    method ReorderListed(vars: seq<string>, k: nat, l: nat, ghost places: seq<nat>, ghost dims0: seq<StorageDim>,
                         ghost places0: seq<nat>)
      returns (r: Result, ghost places': seq<nat>)
      requires k < l < |vars|
      modifies this
      ensures r == Ok <==> Orderable(old(storageDims), vars, k, l)
      ensures multiset(storageDims) == multiset(old(storageDims))
      ensures Located(old(storageDims), vars, places) && Moved(dims0, places0, old(storageDims), places) ==>
                && r == Ok && places' == (if l < |places| then PairPlaces(places, k, l) else places)
                && Located(storageDims, vars, places') && Moved(dims0, places0, storageDims, places')
    {
      places' := places;
      if Located(storageDims, vars, places) && Moved(dims0, places0, storageDims, places) {
        if l < |places| {
          PairMoves(storageDims, vars, places, k, l);
          places' := PairPlaces(places, k, l);
          var after := PairOutcome(storageDims, vars[k], vars[l], 0, None).value;
          MovedTwice(dims0, places0, storageDims, places, after, places');
        } else {
          assert LocatedAt(storageDims, vars, places, k) && Matches(storageDims[places[k]], vars[k]);
          MissingIsIgnored(storageDims, vars[k], vars[l], 0, places[k]);
        }
      }
      r := ReorderPair(vars[k], vars[l]);
    }

    /** The loop of `reorder_storage(dims, start)`: puts the variable at `start` before the later ones. */
    method ReorderFirst(vars: seq<string>, start: nat, ghost places: seq<nat>)
      returns (r: Result, ghost places': seq<nat>)
      requires start < |vars|
      modifies this
      ensures multiset(storageDims) == multiset(old(storageDims))
      ensures r == Ok <==> FirstOrderable(old(storageDims), vars, start, |vars|)
      ensures Located(old(storageDims), vars, places) && Increasing(places, start) ==>
                && r == Ok && Located(storageDims, vars, places')
                && Moved(old(storageDims), places, storageDims, places')
                && Increasing(places', start) && Smallest(places', start, |vars|)
    {
      places' := places;
      if Located(storageDims, vars, places) {
        NothingMoved(storageDims, vars, places);
      }
      ghost var asked := Located(storageDims, vars, places) && Increasing(places, start);
      for i := start + 1 to |vars|
        invariant multiset(storageDims) == multiset(old(storageDims))
        invariant FirstOrderable(old(storageDims), vars, start, i)
        invariant asked ==> Located(storageDims, vars, places') && Increasing(places', start)
        invariant asked ==> Smallest(places', start, i)
        invariant asked ==> Moved(old(storageDims), places, storageDims, places')
      {
        if i < |places'| && Distinct(places') && Increasing(places', start) && Smallest(places', start, i) {
          PairKeepsOrder(places', start, i);
        }
        OrderableSame(storageDims, old(storageDims), vars, start, i);
        r, places' := ReorderListed(vars, start, i, places', old(storageDims), places);
        if r != Ok {
          return;
        }
      }
      r := Ok;
    }

    /** `reorder_storage(dims, start)`: puts the variable at `start` before the later ones, then those in order. */
    method ReorderFrom(vars: seq<string>, start: nat, ghost places: seq<nat>)
      returns (r: Result, ghost places': seq<nat>)
      requires start < |vars|
      modifies this
      ensures multiset(storageDims) == multiset(old(storageDims))
      ensures r == Ok <==> AllOrderable(old(storageDims), vars, start)
      ensures Located(old(storageDims), vars, places) && Increasing(places, start) ==>
                && r == Ok && Located(storageDims, vars, places') && Increasing(places', |vars|)
                && Moved(old(storageDims), places, storageDims, places')
      decreases |vars| - start
    {
      r, places' := ReorderFirst(vars, start, places);
      OrderableFrom(old(storageDims), storageDims, vars, start);
      if r == Ok && |vars| - start > 2 {
        ghost var dims1, places1 := storageDims, places';
        r, places' := ReorderFrom(vars, start + 1, places');
        if Located(old(storageDims), vars, places) && Increasing(places, start) {
          MovedTwice(old(storageDims), places, dims1, places1, storageDims, places');
        }
      }
    }

    /**
     `reorder_storage(dims)`.  It is accepted exactly when each listed variable differs from every later one and
     names a dimension that the later one does not name; the last variable may name none.
     */
    method ReorderStorage(vars: seq<string>, ghost places: seq<nat>) returns (r: Result, ghost places': seq<nat>)
      modifies this
      ensures |vars| <= 1 ==> r == Err(TooFew) && storageDims == old(storageDims)
      ensures multiset(storageDims) == multiset(old(storageDims))
      ensures |vars| > 1 ==>
                (r == Ok <==> AllOrderable(old(storageDims), vars, 0))
      ensures |vars| > 1 && Located(old(storageDims), vars, places) ==>
                && r == Ok && Located(storageDims, vars, places') && Increasing(places', |vars|)
                && Moved(old(storageDims), places, storageDims, places')
    {
      if |vars| <= 1 {
        return Err(TooFew), places;
      }
      r, places' := ReorderFrom(vars, 0, places);
    }
  }

  /** A misspelt second variable: the call is accepted and nothing is reordered. */
  method MissingSecondVariable() returns (f: Func, r: Result)
    ensures r == Ok && f.storageDims == [StorageDim("x", 0), StorageDim("y", 0)]
  {
    f := new Func([StorageDim("x", 0), StorageDim("y", 0)]);
    assert IsAt(f.storageDims, "y", 1) && Missing(f.storageDims, "z");
    MissingIsIgnored(f.storageDims, "y", "z", 0, 1);
    r := f.ReorderPair("y", "z");
  }
}
