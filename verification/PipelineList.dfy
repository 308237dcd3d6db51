/**
 The profiler's list of pipelines under every schedule of its single accesses.  Threads that start pipelines
 read the head and later replace it, without the lock; the sampling thread moves a pipeline to the front in
 three accesses.  Pipelines are numbered in the order in which they are created.
 */
module PipelineList {
  import opened Collections

  /**
   What the sampling thread is about to do: nothing; to take `node` out from behind `prev`; to link the node it
   took out to the head; to make that node the head.
   */
  datatype Move = Idle | Behind(prev: nat, node: nat) | Detached(node: nat) | Attached(node: nat)

  /** The links of all pipelines, the head, the pipelines that are starting, and the move under way. */
  datatype List = List(next: seq<Option<nat>>, head: Option<nat>, starting: set<nat>, move: Move)

  const EMPTY := List([], None, {}, Idle)

  /** Single accesses to the list: two of a start, the search of a bill, and the three of its move. */
  datatype Access = ReadHead | Publish(start: nat) | Find(prev: nat, node: nat) | Detach | Attach | Front

  predicate Published(s: List, n: nat) {
    n < |s.next| && n !in s.starting
  }

  function Step(s: List, a: Access): List {
    match a
    case ReadHead => s.(next := s.next + [s.head], starting := s.starting + {|s.next|})
    case Publish(p) => s.(head := Some(p), starting := s.starting - {p})
    case Find(prev, n) => s.(move := Behind(prev, n))
    case Detach =>
      (match s.move
       case Behind(prev, n) =>
         if prev < |s.next| && n < |s.next| then s.(next := s.next[prev := s.next[n]], move := Detached(n)) else s
       case _ => s)
    case Attach =>
      (match s.move
       case Detached(n) => if n < |s.next| then s.(next := s.next[n := s.head], move := Attached(n)) else s
       case _ => s)
    case Front =>
      (match s.move
       case Attached(n) => s.(head := Some(n), move := Idle)
       case _ => s)
  }

  // ----- What can be reached -----

  /** The pipeline `k` links on. */
  function Walk(next: seq<Option<nat>>, from: Option<nat>, k: nat): Option<nat>
    decreases k
  {
    if k == 0 || from.None? then from
    else if from.value < |next| then Walk(next, next[from.value], k - 1)
    else None
  }

  ghost predicate Reached(next: seq<Option<nat>>, from: Option<nat>, n: nat) {
    exists k: nat :: Walk(next, from, k) == Some(n)
  }

  /** In the list, or on its way to the front of it; what is about to be the head counts as the head. */
  ghost predicate InPlace(s: List, n: nat) {
    match s.move
    case Idle => Reached(s.next, s.head, n)
    case Behind(_, x) => n == x || Reached(s.next, s.head, n)
    case Detached(x) => n == x || Reached(s.next, s.head, n)
    case Attached(x) => Reached(s.next, Some(x), n)
  }

  /** Nothing that was published is lost. */
  ghost predicate Kept(s: List) {
    forall n {:trigger Published(s, n)} :: Published(s, n) ==> InPlace(s, n)
  }

  /** What the threads may do next, in any order. */
  ghost predicate Possible(s: List, a: Access) {
    match a
    case ReadHead => true
    case Publish(p) => p in s.starting
    case Find(prev, n) => s.move.Idle? && Reached(s.next, s.head, prev) && prev < |s.next| && s.next[prev] == Some(n)
    case Detach => s.move.Behind?
    case Attach => s.move.Detached?
    case Front => s.move.Attached?
  }

  /** A start finds the head that it read, and not between a bill's reading of the head and its replacing it. */
  predicate Timely(s: List, a: Access) {
    a.Publish? && a.start < |s.next| ==> s.head == s.next[a.start] && !s.move.Attached?
  }

  // ----- Links and nodes -----

  predicate Target(s: List, o: Option<nat>) {
    o.Some? ==> Published(s, o.value)
  }

  /** All links lead to published pipelines. */
  ghost predicate WellFormed(s: List) {
    && (forall n :: n in s.starting ==> n < |s.next|)
    && Target(s, s.head)
    && (forall i :: 0 <= i < |s.next| ==> Target(s, s.next[i]))
    && match s.move
       case Idle => true
       case Behind(prev, n) => Published(s, prev) && Published(s, n) && s.next[prev] == Some(n)
       case Detached(n) => Published(s, n)
       case Attached(n) => Published(s, n)
  }

  lemma {:induction false} WalkStays(s: List, from: Option<nat>, k: nat)
    requires WellFormed(s) && Target(s, from)
    ensures Target(s, Walk(s.next, from, k))
    decreases k
  {
    if k > 0 && from.Some? {
      WalkStays(s, s.next[from.value], k - 1);
    }
  }

  lemma StepWellFormed(s: List, a: Access)
    requires WellFormed(s) && Possible(s, a)
    ensures WellFormed(Step(s, a))
    ensures forall n :: Published(s, n) ==> Published(Step(s, a), n)
  {
    if a.Find? {
      var k: nat :| Walk(s.next, s.head, k) == Some(a.prev);
      WalkStays(s, s.head, k);
    }
  }

  // ----- The list while nothing is lost -----

  function At(l: seq<nat>, j: nat): Option<nat> {
    if j < |l| then Some(l[j]) else None
  }

  /** The links from `head` run through `l` and end. */
  ghost predicate IsChain(next: seq<Option<nat>>, head: Option<nat>, l: seq<nat>) {
    && head == At(l, 0) && Distinct(l)
    && forall i {:trigger LinkAt(next, l, i)} :: 0 <= i < |l| ==> LinkAt(next, l, i)
  }

  predicate LinkAt(next: seq<Option<nat>>, l: seq<nat>, i: nat)
    requires i < |l|
  {
    l[i] < |next| && next[l[i]] == At(l, i + 1)
  }

  /** The list is `l`, every published pipeline is in it or is being moved, and the move knows its place. */
  ghost predicate Holds(s: List, l: seq<nat>) {
    && WellFormed(s) && IsChain(s.next, s.head, l)
    && match s.move
       case Idle => AllIn(s, l)
       case Behind(prev, n) => AllIn(s, l) && exists i :: 0 <= i < |l| - 1 && l[i] == prev && l[i + 1] == n
       case Detached(n) => AllInBut(s, l, n) && exists j :: 1 <= j <= |l| && s.next[n] == At(l, j)
       case Attached(n) => AllInBut(s, l, n) && l != [] && s.next[n] == s.head
  }

  ghost predicate AllIn(s: List, l: seq<nat>) {
    forall n {:trigger n in l} {:trigger Published(s, n)} :: n in l <==> Published(s, n)
  }

  ghost predicate AllInBut(s: List, l: seq<nat>, x: nat) {
    forall n {:trigger n in l} {:trigger Published(s, n)} :: n in l <==> Published(s, n) && n != x
  }

  /** The list after an access. */
  ghost function After(s: List, l: seq<nat>, a: Access): seq<nat> {
    match a
    case Publish(p) => [p] + l
    case Detach =>
      (match s.move
       case Behind(_, n) => Without(l, n)
       case _ => l)
    case Front =>
      (match s.move
       case Attached(n) => [n] + l
       case _ => l)
    case _ => l
  }

  ghost function Without(l: seq<nat>, n: nat): seq<nat> {
    if l == [] then [] else if l[0] == n then l[1..] else [l[0]] + Without(l[1..], n)
  }

  lemma {:induction false} WithoutAt(l: seq<nat>, i: nat)
    requires i < |l| && Distinct(l)
    ensures Without(l, l[i]) == l[..i] + l[i + 1..]
  {
    if i > 0 {
      assert l[0] != l[i];
      WithoutAt(l[1..], i - 1);
      assert l[1..][i - 1] == l[i];
      assert [l[0]] + l[1..][..i - 1] == l[..i] && l[1..][i..] == l[i + 1..];
    } else {
      assert l[..0] == [];
    }
  }

  /** Every access but an untimely publication keeps everything in the list or on its way to the front. */
  lemma StepHolds(s: List, l: seq<nat>, a: Access)
    requires Holds(s, l) && Possible(s, a) && Timely(s, a)
    ensures Holds(Step(s, a), After(s, l, a))
  {
    StepWellFormed(s, a);
    match a
    case ReadHead => ReadHeadHolds(s, l);
    case Publish(p) => PublishHolds(s, l, p);
    case Find(prev, n) => FindHolds(s, l, prev, n);
    case Detach => DetachHolds(s, l);
    case Attach => AttachHolds(s, l);
    case Front => FrontHolds(s, l);
  }

  lemma ReadHeadHolds(s: List, l: seq<nat>)
    requires Holds(s, l) && WellFormed(Step(s, ReadHead))
    ensures Holds(Step(s, ReadHead), l)
  {
    var next := Step(s, ReadHead).next;
    forall i | 0 <= i < |l| ensures LinkAt(next, l, i) {
      assert LinkAt(s.next, l, i);
    }
    assert forall n: nat :: n < |s.next| ==> next[n] == s.next[n];
    assert forall n :: Published(Step(s, ReadHead), n) <==> Published(s, n);
  }

  lemma Prepended(next: seq<Option<nat>>, head: Option<nat>, l: seq<nat>, p: nat)
    requires IsChain(next, head, l) && p < |next| && next[p] == head && p !in l
    ensures IsChain(next, Some(p), [p] + l)
    ensures forall n :: n in [p] + l <==> n == p || n in l
  {
    var m := [p] + l;
    forall i | 0 <= i < |m| ensures LinkAt(next, m, i) {
      assert i > 0 ==> LinkAt(next, l, i - 1);
    }
  }

  lemma PublishHolds(s: List, l: seq<nat>, p: nat)
    requires Holds(s, l) && p in s.starting && s.head == s.next[p] && !s.move.Attached?
    requires WellFormed(Step(s, Publish(p)))
    ensures Holds(Step(s, Publish(p)), [p] + l)
  {
    assert !Published(s, p);
    Prepended(s.next, s.head, l, p);
    match s.move
    case Behind(prev, n) =>
      var i :| 0 <= i < |l| - 1 && l[i] == prev && l[i + 1] == n;
      assert ([p] + l)[i + 1] == prev && ([p] + l)[i + 2] == n;
    case Detached(n) =>
      var j :| 1 <= j <= |l| && s.next[n] == At(l, j);
      assert At([p] + l, j + 1) == At(l, j);
    case _ =>
  }

  lemma {:induction false} WalkChain(next: seq<Option<nat>>, head: Option<nat>, l: seq<nat>, j: nat, k: nat)
    requires IsChain(next, head, l) && j <= |l|
    ensures Walk(next, At(l, j), k) == At(l, j + k)
    decreases k
  {
    if k > 0 && j < |l| {
      assert LinkAt(next, l, j);
      WalkChain(next, head, l, j + 1, k - 1);
    }
  }

  /** What is reached from a place in a chain is what comes from there on. */
  lemma ReachedInChain(next: seq<Option<nat>>, head: Option<nat>, l: seq<nat>, j: nat, n: nat)
    requires IsChain(next, head, l) && j <= |l|
    ensures Reached(next, At(l, j), n) <==> n in l[j..]
  {
    if Reached(next, At(l, j), n) {
      var k: nat :| Walk(next, At(l, j), k) == Some(n);
      WalkChain(next, head, l, j, k);
      assert l[j..][k] == n;
    }
    if n in l[j..] {
      var i :| 0 <= i < |l[j..]| && l[j..][i] == n;
      WalkChain(next, head, l, j, i);
      assert Walk(next, At(l, j), i) == Some(n);
    }
  }

  lemma InChain(next: seq<Option<nat>>, head: Option<nat>, l: seq<nat>, n: nat)
    requires IsChain(next, head, l)
    ensures Reached(next, head, n) <==> n in l
  {
    ReachedInChain(next, head, l, 0, n);
    assert l[0..] == l;
  }

  lemma FindHolds(s: List, l: seq<nat>, prev: nat, n: nat)
    requires Holds(s, l) && Possible(s, Find(prev, n)) && WellFormed(Step(s, Find(prev, n)))
    ensures Holds(Step(s, Find(prev, n)), l)
  {
    InChain(s.next, s.head, l, prev);
    var i :| 0 <= i < |l| && l[i] == prev;
    assert LinkAt(s.next, l, i);
  }

  /** Taking out the node behind `i` leaves a chain. */
  lemma TakenOut(next: seq<Option<nat>>, head: Option<nat>, l: seq<nat>, i: nat)
    requires IsChain(next, head, l) && i < |l| - 1
    ensures l[i] < |next| && l[i + 1] < |next|
    ensures var l', next' := l[..i + 1] + l[i + 2..], next[l[i] := next[l[i + 1]]];
            && IsChain(next', head, l')
            && next'[l[i + 1]] == At(l', i + 1)
            && forall m :: m in l' <==> m in l && m != l[i + 1]
  {
    assert LinkAt(next, l, i) && LinkAt(next, l, i + 1);
    var l', next' := l[..i + 1] + l[i + 2..], next[l[i] := next[l[i + 1]]];
    forall j | 0 <= j < |l'| ensures LinkAt(next', l', j) {
      assert LinkAt(next, l, if j <= i then j else j + 1);
    }
    forall m ensures m in l' <==> m in l && m != l[i + 1] {
      if m in l {
        var k :| 0 <= k < |l| && l[k] == m;
        assert k != i + 1 ==> l'[if k <= i then k else k - 1] == m;
      }
    }
  }

  lemma DetachHolds(s: List, l: seq<nat>)
    requires Holds(s, l) && s.move.Behind? && WellFormed(Step(s, Detach))
    ensures Holds(Step(s, Detach), After(s, l, Detach))
  {
    var prev, n := s.move.prev, s.move.node;
    var i :| 0 <= i < |l| - 1 && l[i] == prev && l[i + 1] == n;
    WithoutAt(l, i + 1);
    TakenOut(s.next, s.head, l, i);
  }

  lemma AttachHolds(s: List, l: seq<nat>)
    requires Holds(s, l) && s.move.Detached? && WellFormed(Step(s, Attach))
    ensures Holds(Step(s, Attach), l)
  {
    forall i | 0 <= i < |l| ensures LinkAt(Step(s, Attach).next, l, i) {
      assert LinkAt(s.next, l, i) && l[i] in l;
    }
  }

  lemma FrontHolds(s: List, l: seq<nat>)
    requires Holds(s, l) && s.move.Attached? && WellFormed(Step(s, Front))
    ensures Holds(Step(s, Front), After(s, l, Front))
  {
    Prepended(s.next, s.head, l, s.move.node);
  }

  lemma HoldsKept(s: List, l: seq<nat>)
    requires Holds(s, l)
    ensures Kept(s)
  {
    forall n | Published(s, n) ensures InPlace(s, n) {
      match s.move
      case Attached(x) =>
        Prepended(s.next, s.head, l, x);
        InChain(s.next, Some(x), [x] + l, n);
      case _ => InChain(s.next, s.head, l, n);
    }
  }

  /** A start that comes at the wrong moment loses itself, if a bill has read the head, or else the old head. */
  lemma UntimelyLoses(s: List, l: seq<nat>, p: nat)
    requires Holds(s, l) && p in s.starting && !Timely(s, Publish(p))
    ensures var lost := if s.move.Attached? then p else s.head.value;
            && (s.move.Attached? || s.head.Some?)
            && Published(Step(s, Publish(p)), lost) && !InPlace(Step(s, Publish(p)), lost)
  {
    var s' := Step(s, Publish(p));
    StepWellFormed(s, Publish(p));
    assert !Published(s, p);
    match s.move
    case Attached(x) =>
      Prepended(s.next, s.head, l, x);
      InChain(s.next, Some(x), [x] + l, p);
    case _ =>
      var r := s.next[p];
      ListNotEmpty(s, l, r);
      var h := l[0];
      assert h in l && Published(s, h);
      if Reached(s'.next, Some(p), h) {
        var k: nat :| Walk(s.next, Some(p), k) == Some(h);
        assert k > 0 && Walk(s.next, r, k - 1) == Some(h);
        HeadIsBehind(s, l, r, k - 1);
      }
  }

  lemma ListNotEmpty(s: List, l: seq<nat>, r: Option<nat>)
    requires Holds(s, l) && !s.move.Attached? && Target(s, r) && r != s.head
    ensures l != []
  {
    assert r.Some? ==> Published(s, r.value);
  }

  /** No other link leads back to the head of the list. */
  lemma HeadIsBehind(s: List, l: seq<nat>, r: Option<nat>, k: nat)
    requires Holds(s, l) && !s.move.Attached? && l != [] && Target(s, r) && r != s.head
    ensures Walk(s.next, r, k) != Some(l[0])
  {
    if r.Some? {
      if r.value in l {
        var j :| 0 <= j < |l| && l[j] == r.value;
        WalkChain(s.next, s.head, l, j, k);
      } else if k > 0 {
        var j :| 1 <= j <= |l| && s.next[r.value] == At(l, j);
        WalkChain(s.next, s.head, l, j, k - 1);
      }
    }
  }

  // ----- Whole runs -----

  ghost predicate AllPossible(s: List, run: seq<Access>)
    decreases run
  {
    run == [] || (Possible(s, run[0]) && AllPossible(Step(s, run[0]), run[1..]))
  }

  predicate AllTimely(s: List, run: seq<Access>)
    decreases run
  {
    run == [] || (Timely(s, run[0]) && AllTimely(Step(s, run[0]), run[1..]))
  }

  /** At no moment of the run anything is lost. */
  ghost predicate NeverLost(s: List, run: seq<Access>)
    decreases run
  {
    Kept(s) && (run == [] || NeverLost(Step(s, run[0]), run[1..]))
  }

  /**
   Whatever starts overlap and however they fall between the accesses of bills: nothing is ever lost if and only
   if every start finds the head that it read, and none falls between a bill's reading and replacing the head.
   */
  lemma {:induction false} NeverLostExactly(s: List, l: seq<nat>, run: seq<Access>)
    requires Holds(s, l) && AllPossible(s, run)
    ensures NeverLost(s, run) <==> AllTimely(s, run)
    decreases run
  {
    HoldsKept(s, l);
    if run != [] {
      if Timely(s, run[0]) {
        StepHolds(s, l, run[0]);
        NeverLostExactly(Step(s, run[0]), After(s, l, run[0]), run[1..]);
      } else {
        UntimelyLoses(s, l, run[0].start);
        assert !Kept(Step(s, run[0]));
      }
    }
  }

  // ----- Whether what is lost comes back -----

  /** A walk does not leave a set that the links do not leave. */
  lemma {:induction false} WalkInside(next: seq<Option<nat>>, from: Option<nat>, inside: set<nat>, k: nat)
    requires from.Some? ==> from.value in inside
    requires forall m :: m in inside && m < |next| && next[m].Some? ==> next[m].value in inside
    ensures Walk(next, from, k).Some? ==> Walk(next, from, k).value in inside
    decreases k
  {
    if k > 0 && from.Some? && from.value < |next| {
      WalkInside(next, next[from.value], inside, k - 1);
    }
  }

  lemma {:induction false} OneFurther(next: seq<Option<nat>>, from: Option<nat>, k: nat, m: nat)
    requires Walk(next, from, k) == Some(m) && m < |next|
    ensures Walk(next, from, k + 1) == next[m]
    decreases k
  {
    if k > 0 {
      OneFurther(next, next[from.value], k - 1, m);
    }
  }

  ghost function Reach(next: seq<Option<nat>>, from: Option<nat>): set<nat> {
    set m: nat | m < |next| && Reached(next, from, m)
  }

  lemma ReachIsClosed(s: List, from: Option<nat>)
    requires WellFormed(s) && Target(s, from)
    ensures from.Some? ==> from.value in Reach(s.next, from)
    ensures forall m :: m in Reach(s.next, from) && s.next[m].Some? ==> s.next[m].value in Reach(s.next, from)
  {
    assert Walk(s.next, from, 0) == from;
    forall m | m in Reach(s.next, from) && s.next[m].Some? ensures s.next[m].value in Reach(s.next, from) {
      var k: nat :| Walk(s.next, from, k) == Some(m);
      OneFurther(s.next, from, k, m);
    }
  }

  lemma ReachedInside(next: seq<Option<nat>>, from: Option<nat>, inside: set<nat>, n: nat)
    requires from.Some? ==> from.value in inside
    requires forall m :: m in inside && m < |next| && next[m].Some? ==> next[m].value in inside
    requires n !in inside
    ensures !Reached(next, from, n)
  {
    if Reached(next, from, n) {
      var k: nat :| Walk(next, from, k) == Some(n);
      WalkInside(next, from, inside, k);
    }
  }

  lemma ReachedFrom(next: seq<Option<nat>>, p: nat, n: nat)
    requires p < |next|
    ensures Reached(next, Some(p), n) <==> n == p || Reached(next, next[p], n)
  {
    assert Walk(next, Some(p), 0) == Some(p);
    if Reached(next, next[p], n) {
      var k: nat :| Walk(next, next[p], k) == Some(n);
      assert Walk(next, Some(p), k + 1) == Some(n);
    }
    if n != p && Reached(next, Some(p), n) {
      var k: nat :| Walk(next, Some(p), k) == Some(n);
      assert Walk(next, next[p], k - 1) == Some(n);
    }
  }

  /** What is lost comes back exactly when a start from whose old head it is reached becomes the head. */
  lemma StepRevives(s: List, a: Access, n: nat)
    requires WellFormed(s) && Possible(s, a) && Published(s, n) && !InPlace(s, n)
    ensures InPlace(Step(s, a), n) <==> a.Publish? && !s.move.Attached? && Reached(s.next, s.next[a.start], n)
  {
    var s' := Step(s, a);
    ReachIsClosed(s, s.head);
    match a
    case Publish(p) => ReachedFrom(s.next, p, n);
    case ReadHead =>
      if s.move.Attached? {
        ReachIsClosed(s, Some(s.move.node));
        ReachedInside(s'.next, Some(s.move.node), Reach(s.next, Some(s.move.node)), n);
      } else {
        ReachedInside(s'.next, s.head, Reach(s.next, s.head), n);
      }
    case Find(prev, x) => ReachedFrom(s.next, prev, x); FoundInPlace(s, prev, x);
    case Detach => ReachedInside(s'.next, s.head, Reach(s.next, s.head), n);
    case Attach => ReachedInside(s'.next, Some(s.move.node), Reach(s.next, s.head) + {s.move.node}, n);
    case Front =>
  }

  lemma FoundInPlace(s: List, prev: nat, x: nat)
    requires WellFormed(s) && Possible(s, Find(prev, x))
    ensures Reached(s.next, s.head, x)
  {
    var k: nat :| Walk(s.next, s.head, k) == Some(prev);
    OneFurther(s.next, s.head, k, prev);
  }

  /** A thread that is starting a pipeline read a head that leads to `n`. */
  ghost predicate Remembered(s: List, n: nat) {
    exists p :: p in s.starting && p < |s.next| && Reached(s.next, s.next[p], n)
  }

  lemma StepForgets(s: List, a: Access, n: nat)
    requires WellFormed(s) && Possible(s, a) && Published(s, n) && !InPlace(s, n) && !Remembered(s, n)
    requires a.ReadHead? ==> !s.move.Attached?
    ensures !Remembered(Step(s, a), n)
  {
    var s' := Step(s, a);
    var inside := set m: nat | m < |s.next| && !Reached(s.next, Some(m), n);
    forall m | m in inside && s.next[m].Some? ensures s.next[m].value in inside {
      ReachedFrom(s.next, m, n);
    }
    assert Walk(s.next, Some(n), 0) == Some(n);
    assert s.head.Some? && !s.move.Attached? ==> s.head.value in inside;
    if s.move.Behind? && s.move.prev in inside {
      assert s.move.node in inside;
    }
    forall p | p in s'.starting && p < |s'.next| ensures !Reached(s'.next, s'.next[p], n) {
      assert a.ReadHead? || s'.next[p] == s.next[p];
      ReachedInside(s'.next, s'.next[p], inside, n);
    }
  }

  function Apply(s: List, run: seq<Access>): List
    decreases run
  {
    if run == [] then s else Apply(Step(s, run[0]), run[1..])
  }

  /** No start reads the head between a bill's reading and replacing it. */
  predicate ReadsOutside(s: List, run: seq<Access>)
    decreases run
  {
    run == [] || ((run[0].ReadHead? ==> !s.move.Attached?) && ReadsOutside(Step(s, run[0]), run[1..]))
  }

  /** What is lost, and remembered by no start, stays lost, unless a start reads a head that is being replaced. */
  lemma {:induction false} LostStaysLost(s: List, run: seq<Access>, n: nat)
    requires WellFormed(s) && AllPossible(s, run) && ReadsOutside(s, run)
    requires Published(s, n) && !InPlace(s, n) && !Remembered(s, n)
    ensures Published(Apply(s, run), n) && !InPlace(Apply(s, run), n)
    decreases run
  {
    if run != [] {
      StepWellFormed(s, run[0]);
      StepRevives(s, run[0], n);
      StepForgets(s, run[0], n);
      LostStaysLost(Step(s, run[0]), run[1..], n);
    }
  }

  // ----- Schedules that lose pipelines -----

  /** Pipelines 0 and 1 are listed, 1 in front. */
  const TWO_LISTED := List([None, Some(0)], Some(1), {}, Idle)

  /** The run goes through the given states. */
  ghost predicate Through(states: seq<List>, run: seq<Access>) {
    && |states| == |run| + 1
    && forall i {:trigger run[i]} :: 0 <= i < |run| ==>
      Possible(states[i], run[i]) && Step(states[i], run[i]) == states[i + 1]
  }

  lemma {:induction false} ThroughApplies(states: seq<List>, run: seq<Access>)
    requires Through(states, run)
    ensures AllPossible(states[0], run) && Apply(states[0], run) == states[|run|]
  {
    if run != [] {
      assert forall i :: 0 <= i < |run| - 1 ==> run[1..][i] == run[i + 1];
      ThroughApplies(states[1..], run[1..]);
    }
  }

  lemma TwoListedHolds()
    ensures Holds(TWO_LISTED, [1, 0])
  {
    assert LinkAt(TWO_LISTED.next, [1, 0], 0) && LinkAt(TWO_LISTED.next, [1, 0], 1);
  }

  /** Pipeline 2 becomes the head after a bill of 0 has read the head, which is the one that 2 read. */
  function Gap(): seq<Access> {
    [ReadHead, Find(1, 0), Detach, Attach, Publish(2), Front]
  }

  ghost function GapStates(): seq<List> {
    [TWO_LISTED,
     List([None, Some(0), Some(1)], Some(1), {2}, Idle),
     List([None, Some(0), Some(1)], Some(1), {2}, Behind(1, 0)),
     List([None, None, Some(1)], Some(1), {2}, Detached(0)),
     List([Some(1), None, Some(1)], Some(1), {2}, Attached(0)),
     List([Some(1), None, Some(1)], Some(2), {}, Attached(0)),
     List([Some(1), None, Some(1)], Some(0), {}, Idle)]
  }

  /** Every start finds the head that it read, and still 2 is lost. */
  lemma GapLoses()
    ensures Through(GapStates(), Gap())
    ensures GapStates()[4].head == GapStates()[4].next[2]
    ensures Published(Apply(TWO_LISTED, Gap()), 2) && !InPlace(Apply(TWO_LISTED, Gap()), 2)
  {
    var states, run := GapStates(), Gap();
    assert Walk(states[1].next, states[1].head, 0) == Some(1);
    assert Step(states[0], run[0]).next == states[1].next;
    assert Step(states[2], run[2]).next == states[3].next;
    assert Step(states[3], run[3]).next == states[4].next;
    ThroughApplies(states, run);
    ReachedInside(states[6].next, states[6].head, {0, 1}, 2);
  }

  /** Pipeline 2 read the head 1, and a bill of 0 has made 0 the head since. */
  const OVERTAKEN := List([Some(1), None, Some(1)], Some(0), {2}, Idle)

  function Overtake(): seq<Access> {
    [ReadHead, Find(1, 0), Detach, Attach, Front]
  }

  lemma Overtakes()
    ensures AllPossible(TWO_LISTED, Overtake()) && Apply(TWO_LISTED, Overtake()) == OVERTAKEN
  {
    var states, run := GapStates()[..5] + [OVERTAKEN], Overtake();
    assert Walk(states[1].next, states[1].head, 0) == Some(1);
    assert Step(states[0], run[0]).next == states[1].next;
    assert Step(states[2], run[2]).next == states[3].next;
    assert Step(states[3], run[3]).next == states[4].next;
    ThroughApplies(states, run);
  }

  /** If 2 becomes the head now, 0 is lost. */
  lemma OvertakenLoses()
    ensures Possible(OVERTAKEN, Publish(2)) && !Timely(OVERTAKEN, Publish(2))
    ensures Published(Step(OVERTAKEN, Publish(2)), 0) && !InPlace(Step(OVERTAKEN, Publish(2)), 0)
  {
    ReachedInside(OVERTAKEN.next, Some(2), {1, 2}, 0);
  }

  /** If 2 becomes the head while a bill of 1 has taken it out, the list becomes a ring. */
  function Close(): seq<Access> {
    [Find(0, 1), Detach, Publish(2), Attach, Front]
  }

  lemma RingCloses()
    ensures AllPossible(OVERTAKEN, Close())
    ensures Apply(OVERTAKEN, Close()) == List([None, Some(2), Some(1)], Some(1), {}, Idle)
    ensures forall k: nat :: Walk(Apply(OVERTAKEN, Close()).next, Some(1), k).Some?
    ensures !InPlace(Apply(OVERTAKEN, Close()), 0)
  {
    var ring := List([None, Some(2), Some(1)], Some(1), {}, Idle);
    var states, run :=
      [OVERTAKEN, OVERTAKEN.(move := Behind(0, 1)),
       List([None, None, Some(1)], Some(0), {2}, Detached(1)),
       List([None, None, Some(1)], Some(2), {}, Detached(1)),
       List([None, Some(2), Some(1)], Some(2), {}, Attached(1)), ring], Close();
    assert Walk(OVERTAKEN.next, OVERTAKEN.head, 0) == Some(0);
    ThroughApplies(states, run);
    forall k: nat ensures Walk(ring.next, Some(1), k).Some? {
      RingGoesRound(ring.next, 1, k);
    }
    ReachedInside(ring.next, ring.head, {1, 2}, 0);
  }

  lemma {:induction false} RingGoesRound(next: seq<Option<nat>>, n: nat, k: nat)
    requires |next| == 3 && next[1] == Some(2) && next[2] == Some(1) && n in {1, 2}
    ensures Walk(next, Some(n), k).Some?
    decreases k
  {
    if k > 0 {
      RingGoesRound(next, 3 - n, k - 1);
    }
  }

  /**
   A second start reads the head that the bill is replacing; another bill; and the start's pipeline becomes the
   head.
   */
  function Comeback(): seq<Access> {
    [ReadHead, Front, Find(0, 1), Detach, Attach, Front, Publish(3)]
  }

  ghost function ComebackStates(): seq<List> {
    var next := [Some(1), None, Some(1), Some(2)];
    [GapStates()[5],
     List(next, Some(2), {3}, Attached(0)),
     List(next, Some(0), {3}, Idle),
     List(next, Some(0), {3}, Behind(0, 1)),
     List([None, None, Some(1), Some(2)], Some(0), {3}, Detached(1)),
     List([None, Some(0), Some(1), Some(2)], Some(0), {3}, Attached(1)),
     List([None, Some(0), Some(1), Some(2)], Some(1), {3}, Idle),
     List([None, Some(0), Some(1), Some(2)], Some(3), {}, Idle)]
  }

  lemma ComebackRuns()
    ensures Through(ComebackStates(), Comeback())
  {
    var states, run := ComebackStates(), Comeback();
    assert Walk(states[2].next, states[2].head, 0) == Some(0);
    assert Step(states[0], run[0]).next == states[1].next;
    assert Step(states[3], run[3]).next == states[4].next;
    assert Step(states[4], run[4]).next == states[5].next;
  }

  lemma FourListed(next: seq<Option<nat>>)
    requires next == [None, Some(0), Some(1), Some(2)]
    ensures Kept(List(next, Some(3), {}, Idle))
  {
    var l: seq<nat> := [3, 2, 1, 0];
    forall i | 0 <= i < 4 ensures LinkAt(next, l, i) {
    }
    forall n ensures Reached(next, Some(3), n) <==> n in l {
      InChain(next, Some(3), l, n);
    }
  }

  /** What was lost on the way is in the list again at the end, with all the others. */
  lemma LostComesBack()
    ensures AllPossible(GapStates()[5], Comeback())
    ensures Apply(GapStates()[5], [ReadHead, Front]) == ComebackStates()[2]
    ensures Published(ComebackStates()[2], 2) && !InPlace(ComebackStates()[2], 2)
    ensures Kept(Apply(GapStates()[5], Comeback()))
  {
    var states, run := ComebackStates(), Comeback();
    ComebackRuns();
    ThroughApplies(states, run);
    assert Through(states[..3], run[..2]);
    ThroughApplies(states[..3], run[..2]);
    assert run[..2] == [ReadHead, Front];
    ReachedInside(states[2].next, states[2].head, {0, 1}, 2);
    FourListed(states[7].next);
  }
}
