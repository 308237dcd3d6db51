/** The profiler's books along whole runs: what a search finds, and when pipelines and their ids are lost. */
module LedgerRuns {
  import opened Collections
  import opened BillingLedger
  import L = PipelineList

  // ----- What the search finds -----

  /** Every pipeline has its ids and cells, and the bill under way is for a Func of the pipeline being moved. */
  ghost predicate Sane(b: Books) {
    && L.WellFormed(b.list) && |b.ranges| == |b.cells| == |b.list.next|
    && (forall i :: 0 <= i < |b.ranges| ==> |b.cells[i]| == b.ranges[i].num)
    && (!b.list.move.Idle? ==> b.ranges[b.list.move.node].Covers(b.billing.func))
  }

  ghost predicate Covers(b: Books, n: nat, id: int) {
    n < |b.ranges| && b.ranges[n].Covers(id)
  }

  /** A pipeline that is found is in the list, behind the one it was found behind. */
  lemma {:induction false} SearchFinds(b: Books, prev: Option<nat>, at: Option<nat>, id: int, links: nat)
    requires Sane(b) && L.Target(b.list, at)
    requires at.Some? ==> L.Reached(b.list.next, b.list.head, at.value)
    requires prev.Some? ==>
               && L.Published(b.list, prev.value) && L.Reached(b.list.next, b.list.head, prev.value)
               && b.list.next[prev.value] == at
    ensures match Search(b.list.next, b.ranges, prev, at, id, links)
            case First(n) => prev.None? && at == Some(n) && L.Published(b.list, n) && Covers(b, n, id)
            case Later(p, n) =>
              && L.Published(b.list, p) && L.Reached(b.list.next, b.list.head, p) && b.list.next[p] == Some(n)
              && L.Published(b.list, n) && L.Reached(b.list.next, b.list.head, n) && Covers(b, n, id)
            case _ => true
    decreases links
  {
    if at.Some? && !b.ranges[at.value].Covers(id) && links > 0 {
      var k: nat :| L.Walk(b.list.next, b.list.head, k) == at;
      L.OneFurther(b.list.next, b.list.head, k, at.value);
      SearchFinds(b, at, b.list.next[at.value], id, links - 1);
    }
  }

  lemma LookedFinds(b: Books, id: int)
    requires Sane(b)
    ensures match Looked(b, id)
            case First(n) =>
              b.list.head == Some(n) && L.Published(b.list, n) && L.Reached(b.list.next, b.list.head, n)
                && Covers(b, n, id)
            case Later(p, n) =>
              && L.Published(b.list, p) && L.Reached(b.list.next, b.list.head, p) && b.list.next[p] == Some(n)
              && L.Published(b.list, n) && L.Reached(b.list.next, b.list.head, n) && Covers(b, n, id)
            case _ => true
  {
    assert L.Walk(b.list.next, b.list.head, 0) == b.list.head;
    SearchFinds(b, None, b.list.head, id, |b.list.next|);
  }

  /** A search that finds nothing on so many links passes that many pipelines that do not have the id. */
  lemma {:induction false} SearchPasses(b: Books, prev: Option<nat>, at: Option<nat>, id: int, links: nat, k: nat)
    requires Sane(b) && L.Target(b.list, at) && k <= links
    requires Search(b.list.next, b.ranges, prev, at, id, links) in {Nowhere, Endless}
    ensures Search(b.list.next, b.ranges, prev, at, id, links).Endless? ==> L.Walk(b.list.next, at, k).Some?
    ensures var n := L.Walk(b.list.next, at, k); n.Some? ==> !Covers(b, n.value, id)
    decreases k
  {
    if k > 0 && at.Some? {
      SearchPasses(b, at, b.list.next[at.value], id, links - 1, k - 1);
    }
  }

  /** A search that ends without finding anything has come to the end of the list. */
  lemma {:induction false} SearchEnds(b: Books, prev: Option<nat>, at: Option<nat>, id: int, links: nat)
    returns (k: nat)
    requires Sane(b) && L.Target(b.list, at) && Search(b.list.next, b.ranges, prev, at, id, links).Nowhere?
    ensures k <= links + 1 && L.Walk(b.list.next, at, k).None?
    decreases links
  {
    if at.None? {
      k := 0;
    } else {
      k := SearchEnds(b, at, b.list.next[at.value], id, links - 1);
      k := k + 1;
    }
  }

  lemma {:induction false} Pigeonholes(s: seq<nat>, bound: nat)
    requires Distinct(s) && forall i :: 0 <= i < |s| ==> s[i] < bound
    ensures |s| <= bound
    decreases bound
  {
    if s != [] {
      assert s[0] < bound;
      if i :| 0 <= i < |s| && s[i] == bound - 1 {
        var rest := s[..i] + s[i + 1..];
        assert forall j :: 0 <= j < |rest| ==> rest[j] == s[if j < i then j else j + 1];
        Pigeonholes(rest, bound - 1);
      } else {
        Pigeonholes(s, bound - 1);
      }
    }
  }

  lemma {:induction false} WalkOn(next: seq<Option<nat>>, from: Option<nat>, j: nat, k: nat)
    ensures L.Walk(next, from, j + k) == L.Walk(next, L.Walk(next, from, j), k)
    decreases j
  {
    if j > 0 && from.Some? && from.value < |next| {
      WalkOn(next, next[from.value], j - 1, k);
    }
  }

  /** A walk that comes to one place twice does not leave the places before. */
  lemma {:induction false} WalkRepeats(next: seq<Option<nat>>, from: Option<nat>, i: nat, j: nat, k: nat)
    returns (m: nat)
    requires i < j && L.Walk(next, from, i) == L.Walk(next, from, j)
    ensures m < j && L.Walk(next, from, k) == L.Walk(next, from, m)
    decreases k
  {
    if k < j {
      m := k;
    } else {
      WalkOn(next, from, j, k - j);
      WalkOn(next, from, i, k - j);
      m := WalkRepeats(next, from, i, j, i + (k - j));
    }
  }

  /** The first places of a walk. */
  ghost function Places(next: seq<Option<nat>>, from: Option<nat>, n: nat): (r: seq<Option<nat>>)
    ensures |r| == n && forall k :: 0 <= k < n ==> r[k] == L.Walk(next, from, k)
  {
    seq(n, k requires 0 <= k < n => L.Walk(next, from, k))
  }

  /** A walk over more pipelines than there are comes to one twice. */
  lemma LongWalkRepeats(b: Books, from: Option<nat>) returns (i: nat, j: nat)
    requires Sane(b) && L.Target(b.list, from)
    requires forall k: nat :: k <= |b.list.next| ==> L.Walk(b.list.next, from, k).Some?
    ensures i < j <= |b.list.next| && L.Walk(b.list.next, from, i) == L.Walk(b.list.next, from, j)
  {
    var n := |b.list.next|;
    var places := Places(b.list.next, from, n + 1);
    var nodes: seq<nat> := seq(n + 1, k requires 0 <= k < n + 1 => places[k].value);
    forall k | 0 <= k < n + 1 ensures nodes[k] < n {
      L.WalkStays(b.list, from, k);
    }
    if Distinct(nodes) {
      Pigeonholes(nodes, n);
    }
    i, j :| 0 <= i < j < n + 1 && nodes[i] == nodes[j];
  }

  /** A search finds a Func exactly when some pipeline that is reached from the head has it. */
  lemma SearchIsExact(b: Books, id: int)
    requires Sane(b)
    ensures (Looked(b, id).First? || Looked(b, id).Later?)
       <==> exists n: nat :: L.Reached(b.list.next, b.list.head, n) && Covers(b, n, id)
  {
    LookedFinds(b, id);
    if n: nat :| Looked(b, id) in {Nowhere, Endless} && L.Reached(b.list.next, b.list.head, n) && Covers(b, n, id) {
      var links := |b.list.next|;
      var k: nat :| L.Walk(b.list.next, b.list.head, k) == Some(n);
      if Looked(b, id).Endless? {
        forall m: nat | m <= links ensures L.Walk(b.list.next, b.list.head, m).Some? {
          SearchPasses(b, None, b.list.head, id, links, m);
        }
        var i, j := LongWalkRepeats(b, b.list.head);
        k := WalkRepeats(b.list.next, b.list.head, i, j, k);
      } else {
        var end := SearchEnds(b, None, b.list.head, id, links);
        if k >= end {
          WalkOn(b.list.next, b.list.head, end, k - end);
        }
      }
      SearchPasses(b, None, b.list.head, id, links, k);
    }
  }

  // ----- The list along a run -----

  /** The access to the list that an operation makes. */
  function AccessOf(b: Books, op: Op): Option<L.Access> {
    match op
    case ReadHead(_, enough) => if enough then Some(L.ReadHead) else None
    case Publish(n) => Some(L.Publish(n))
    case Wake(f, _, _) =>
      if b.list.move.Idle? && f >= 0 && Looked(b, f).Later? then Some(L.Find(Looked(b, f).prev, Looked(b, f).node))
        else None
    case Detach => Some(L.Detach)
    case Attach => Some(L.Attach)
    case Front => Some(L.Front)
    case Reset => None
  }

  lemma OpOnList(b: Books, op: Op)
    requires Sane(b) && Allowed(b, op)
    ensures match AccessOf(b, op)
            case Some(a) => L.Possible(b.list, a) && After(b, op).list == L.Step(b.list, a)
            case None => After(b, op).list == if op.Reset? then L.EMPTY else b.list
  {
    if op.Wake? && op.func >= 0 {
      LookedFinds(b, op.func);
    }
  }

  lemma StepSane(b: Books, op: Op)
    requires Sane(b) && Allowed(b, op)
    ensures Sane(After(b, op))
  {
    OpOnList(b, op);
    if AccessOf(b, op).Some? {
      L.StepWellFormed(b.list, AccessOf(b, op).value);
    }
    if op.Wake? && op.func >= 0 {
      LookedFinds(b, op.func);
    }
  }

  /** The list while nothing is lost. */
  ghost function ListAfter(b: Books, l: seq<nat>, op: Op): seq<nat> {
    if op.Reset? then [] else if AccessOf(b, op).Some? then L.After(b.list, l, AccessOf(b, op).value) else l
  }

  /** A start finds the head that it read, and not between a bill's reading of the head and its replacing it. */
  predicate Timely(b: Books, op: Op) {
    op.Publish? ==> L.Timely(b.list, L.Publish(op.start))
  }

  predicate AllTimely(b: Books, ops: seq<Op>)
    decreases ops
  {
    ops == [] || Stops(ops[0]) || (Timely(b, ops[0]) && AllTimely(After(b, ops[0]), ops[1..]))
  }

  /** At no moment of the run a published pipeline is lost. */
  ghost predicate NeverLost(b: Books, ops: seq<Op>)
    decreases ops
  {
    L.Kept(b.list) && (ops == [] || Stops(ops[0]) || NeverLost(After(b, ops[0]), ops[1..]))
  }

  lemma EmptyHolds()
    ensures L.Holds(L.EMPTY, [])
  {
  }

  lemma OpHolds(b: Books, l: seq<nat>, op: Op)
    requires Sane(b) && L.Holds(b.list, l) && Allowed(b, op) && Timely(b, op)
    ensures L.Holds(After(b, op).list, ListAfter(b, l, op))
  {
    OpOnList(b, op);
    EmptyHolds();
    if AccessOf(b, op).Some? {
      L.StepHolds(b.list, l, AccessOf(b, op).value);
    }
  }

  /** The same for the books: whatever starts overlap, no pipeline is ever lost exactly when all are timely. */
  lemma {:induction false} NeverLostExactly(b: Books, l: seq<nat>, ops: seq<Op>)
    requires Sane(b) && L.Holds(b.list, l) && AllAllowed(b, ops)
    ensures NeverLost(b, ops) <==> AllTimely(b, ops)
    decreases ops
  {
    L.HoldsKept(b.list, l);
    if ops != [] && !Stops(ops[0]) {
      if Timely(b, ops[0]) {
        OpHolds(b, l, ops[0]);
        StepSane(b, ops[0]);
        NeverLostExactly(After(b, ops[0]), ListAfter(b, l, ops[0]), ops[1..]);
      } else {
        L.UntimelyLoses(b.list, l, ops[0].start);
        assert !L.Kept(After(b, ops[0]).list);
      }
    }
  }

  // ----- Ids -----

  /** A published pipeline has the id. */
  ghost predicate Owned(b: Books, id: int) {
    exists n: nat :: L.Published(b.list, n) && Covers(b, n, id)
  }

  /** A wake-up for the id bills it, at once or once the move under way is done. */
  ghost predicate Billed(b: Books, id: int) {
    exists n: nat :: L.Published(b.list, n) && L.InPlace(b.list, n) && Covers(b, n, id)
  }

  /** Every id that was given out is billed. */
  ghost predicate Complete(b: Books) {
    forall id {:trigger Billed(b, id)} :: 0 <= id < b.free ==> Billed(b, id)
  }

  /** Between wake-ups, the ids that are billed are those that a search finds. */
  lemma BilledIsFound(b: Books, id: int)
    requires Sane(b) && b.list.move.Idle?
    ensures Billed(b, id) <==> Looked(b, id).First? || Looked(b, id).Later?
  {
    SearchIsExact(b, id);
    LookedFinds(b, id);
  }

  /** Published pipelines have different ids, at least one each, which are those given out; at most one is starting. */
  ghost predicate Ids(b: Books) {
    && (forall n: nat {:trigger L.Published(b.list, n)} :: L.Published(b.list, n) && n < |b.ranges| ==>
          0 <= b.ranges[n].first && 1 <= b.ranges[n].num && b.ranges[n].first + b.ranges[n].num <= b.free)
    && (forall m: nat, n: nat {:trigger L.Published(b.list, m), L.Published(b.list, n)} ::
          L.Published(b.list, m) && L.Published(b.list, n) && m < |b.ranges| && n < |b.ranges| && m != n ==>
            b.ranges[m].Apart(b.ranges[n]))
    && (forall id {:trigger Owned(b, id)} :: 0 <= id < b.free ==> Owned(b, id))
    && (forall p :: p in b.list.starting && p < |b.ranges| ==> b.ranges[p].first == b.free && 1 <= b.ranges[p].num)
    && (forall p, q :: p in b.list.starting && q in b.list.starting ==> p == q)
    && b.free >= 0
  }

  /** A start comes when no other is under way, and its pipeline has Funcs. */
  predicate OneAtATime(b: Books, ops: seq<Op>)
    decreases ops
  {
    ops == [] || Stops(ops[0]) || (Alone(b, ops[0]) && OneAtATime(After(b, ops[0]), ops[1..]))
  }

  predicate Alone(b: Books, op: Op) {
    op.ReadHead? && op.enoughMemory ==> b.list.starting == {} && op.pipeline.funcNames != []
  }

  lemma PublishIds(b: Books, p: nat)
    requires Sane(b) && Ids(b) && p in b.list.starting
    ensures Ids(After(b, Publish(p)))
  {
    var b' := After(b, Publish(p));
    forall n: nat ensures L.Published(b'.list, n) <==> L.Published(b.list, n) || n == p {
    }
    forall id | 0 <= id < b'.free ensures Owned(b', id) {
      if id < b.free {
        assert Owned(b, id);
        var n: nat :| L.Published(b.list, n) && Covers(b, n, id);
        assert L.Published(b'.list, n);
      } else {
        assert L.Published(b'.list, p) && Covers(b', p, id);
      }
    }
  }

  lemma ReadHeadIds(b: Books, pl: Pipeline)
    requires Sane(b) && Ids(b) && b.list.starting == {} && pl.funcNames != []
    ensures Ids(After(b, ReadHead(pl, true)))
  {
    var b' := After(b, ReadHead(pl, true));
    forall n: nat ensures L.Published(b'.list, n) <==> L.Published(b.list, n) {
    }
    forall id | 0 <= id < b'.free ensures Owned(b', id) {
      assert Owned(b, id);
      var n: nat :| L.Published(b.list, n) && Covers(b, n, id);
      assert L.Published(b'.list, n);
    }
  }

  lemma SameIds(b: Books, b': Books)
    requires Ids(b) && b'.ranges == b.ranges && b'.free == b.free
    requires b'.list.starting == b.list.starting && |b'.list.next| == |b.list.next|
    ensures Ids(b')
  {
    forall n: nat ensures L.Published(b'.list, n) <==> L.Published(b.list, n) {
    }
    forall id | 0 <= id < b'.free ensures Owned(b', id) {
      assert Owned(b, id);
      var n: nat :| L.Published(b.list, n) && Covers(b, n, id);
      assert L.Published(b'.list, n);
    }
  }

  lemma StepIds(b: Books, op: Op)
    requires Sane(b) && Ids(b) && Allowed(b, op) && Alone(b, op)
    ensures Ids(After(b, op))
  {
    match op
    case ReadHead(pl, enough) =>
      if enough {
        ReadHeadIds(b, pl);
      }
    case Publish(p) => PublishIds(b, p);
    case Reset =>
    case _ => SameIds(b, After(b, op));
  }

  lemma KeptIsComplete(b: Books)
    requires Sane(b) && Ids(b)
    ensures L.Kept(b.list) <==> Complete(b)
  {
    if L.Kept(b.list) {
      forall id | 0 <= id < b.free ensures Billed(b, id) {
        assert Owned(b, id);
        var n: nat :| L.Published(b.list, n) && Covers(b, n, id);
        assert L.InPlace(b.list, n);
      }
    }
    if Complete(b) {
      forall n: nat | L.Published(b.list, n) ensures L.InPlace(b.list, n) {
        var id := b.ranges[n].first;
        assert Billed(b, id);
        var m: nat :| L.Published(b.list, m) && L.InPlace(b.list, m) && Covers(b, m, id);
        assert m != n ==> b.ranges[m].Apart(b.ranges[n]);
      }
    }
  }

  /** At no moment of the run an id that was given out goes unbilled. */
  ghost predicate NeverIncomplete(b: Books, ops: seq<Op>)
    decreases ops
  {
    Complete(b) && (ops == [] || Stops(ops[0]) || NeverIncomplete(After(b, ops[0]), ops[1..]))
  }

  lemma {:induction false} NeverIncompleteIsNeverLost(b: Books, ops: seq<Op>)
    requires Sane(b) && Ids(b) && AllAllowed(b, ops) && OneAtATime(b, ops)
    ensures NeverIncomplete(b, ops) <==> NeverLost(b, ops)
    decreases ops
  {
    KeptIsComplete(b);
    if ops != [] && !Stops(ops[0]) {
      StepSane(b, ops[0]);
      StepIds(b, ops[0]);
      NeverIncompleteIsNeverLost(After(b, ops[0]), ops[1..]);
    }
  }

  /**
   With one start at a time, every id given out is billed at every moment of a run if and only if every start
   finds the head that it read, and none falls between a bill's reading and replacing the head.
   */
  lemma NothingIsLost(b: Books, l: seq<nat>, ops: seq<Op>)
    requires Sane(b) && Ids(b) && L.Holds(b.list, l) && AllAllowed(b, ops) && OneAtATime(b, ops)
    ensures NeverIncomplete(b, ops) <==> AllTimely(b, ops)
  {
    NeverIncompleteIsNeverLost(b, ops);
    NeverLostExactly(b, l, ops);
  }

  lemma NoBooksToStartFrom()
    ensures Sane(NO_BOOKS) && Ids(NO_BOOKS) && L.Holds(NO_BOOKS.list, [])
  {
  }

  // ----- What is lost -----

  predicate ReadsOutside(b: Books, ops: seq<Op>)
    decreases ops
  {
    ops == [] || Stops(ops[0]) ||
    ((ops[0].ReadHead? && ops[0].enoughMemory ==> !b.list.move.Attached?) && ReadsOutside(After(b, ops[0]), ops[1..]))
  }

  /** Nothing is billed to a pipeline that is lost. */
  lemma LostIsNotBilled(b: Books, op: Op, n: nat)
    requires Sane(b) && Allowed(b, op) && !op.Reset? && L.Published(b.list, n) && !L.InPlace(b.list, n)
    ensures n < |After(b, op).cells| && After(b, op).cells[n] == b.cells[n]
  {
    if op.Wake? {
      LookedFinds(b, op.func);
    } else if op.Front? {
      assert L.Walk(b.list.next, Some(b.list.move.node), 0) == Some(b.list.move.node);
    }
  }

  /**
   A pipeline that is lost, and that no starting thread remembers, stays lost, and its cells stay as they are, as
   long as nothing is reset and no start reads the head between a bill's reading and replacing it.
   */
  lemma {:induction false} LostStaysLost(b: Books, ops: seq<Op>, n: nat)
    requires Sane(b) && AllAllowed(b, ops) && ReadsOutside(b, ops) && forall i :: 0 <= i < |ops| ==> !ops[i].Reset?
    requires L.Published(b.list, n) && !L.InPlace(b.list, n) && !L.Remembered(b.list, n)
    ensures var b' := Play(b, ops);
            && L.Published(b'.list, n) && !L.InPlace(b'.list, n)
            && n < |b'.cells| && n < |b.cells| && b'.cells[n] == b.cells[n]
    decreases ops
  {
    if ops != [] && !Stops(ops[0]) {
      OpOnList(b, ops[0]);
      StepSane(b, ops[0]);
      LostIsNotBilled(b, ops[0], n);
      if AccessOf(b, ops[0]).Some? {
        L.StepWellFormed(b.list, AccessOf(b, ops[0]).value);
        L.StepRevives(b.list, AccessOf(b, ops[0]).value, n);
        L.StepForgets(b.list, AccessOf(b, ops[0]).value, n);
      }
      LostStaysLost(After(b, ops[0]), ops[1..], n);
    }
  }

  // ----- Starts that overlap -----

  /**
   Two starts of which the second reads the head before the first replaces it: the first is lost, both have the
   same ids, and as many ids as the first has Funcs are given out and billed to nobody.
   */
  lemma OverlapDrops(b: Books, l: seq<nat>, p: Pipeline, q: Pipeline)
    requires Sane(b) && Ids(b) && L.Holds(b.list, l) && b.list.move.Idle? && b.list.starting == {}
    requires p.funcNames != [] && q.funcNames != []
    ensures var n := |b.list.next|;
            var b' := After(After(After(After(b, ReadHead(p, true)), ReadHead(q, true)), Publish(n)), Publish(n + 1));
            && L.IsChain(b'.list.next, b'.list.head, [n + 1] + l)
            && L.Published(b'.list, n) && !L.InPlace(b'.list, n)
            && b'.ranges[n].first == b'.ranges[n + 1].first == b.free
            && b'.free == b.free + |p.funcNames| + |q.funcNames|
            && forall id :: b.free + |q.funcNames| <= id < b'.free ==> !Billed(b', id)
  {
    var n := |b.list.next|;
    var b1 := After(After(b, ReadHead(p, true)), ReadHead(q, true));
    var b' := After(After(b1, Publish(n)), Publish(n + 1));
    var next := b'.list.next;
    assert next == b.list.next + [b.list.head, b.list.head];
    forall i | 0 <= i < |l| ensures L.LinkAt(next, l, i) {
      assert L.LinkAt(b.list.next, l, i);
    }
    assert forall m :: m in l ==> L.Published(b.list, m);
    L.Prepended(next, b.list.head, l, n + 1);
    forall m: nat ensures L.InPlace(b'.list, m) <==> m == n + 1 || m in l {
      L.InChain(next, b'.list.head, [n + 1] + l, m);
    }
    forall id | b.free + |q.funcNames| <= id < b'.free ensures !Billed(b', id) {
      forall m: nat | m in l ensures !Covers(b', m, id) {
        assert L.Published(b.list, m) && b'.ranges[m] == b.ranges[m];
      }
    }
  }

  // ----- Schedules that lose a pipeline -----

  /** A pipeline with one Func. */
  function Small(name: nat): Pipeline {
    Pipeline(name, [name], 0, [false], [false])
  }

  /** Pipelines 0 and 1 are listed, with the ids 0 and 1. */
  const TWO_BOOKS :=
    Books(L.TWO_LISTED, [Range(1, 1, 0), Range(2, 1, 1)], [[ZERO], [ZERO]], 2, Billing(0, ZERO), ZERO, ZERO, 0)

  function TwoStarts(): seq<Op> {
    [ReadHead(Small(1), true), Publish(0), ReadHead(Small(2), true), Publish(1)]
  }

  /** The run goes through the given books. */
  ghost predicate Through(books: seq<Books>, ops: seq<Op>) {
    && |books| == |ops| + 1
    && forall i {:trigger ops[i]} :: 0 <= i < |ops| ==>
         !Stops(ops[i]) && Allowed(books[i], ops[i]) && After(books[i], ops[i]) == books[i + 1]
  }

  lemma {:induction false} ThroughPlays(books: seq<Books>, ops: seq<Op>, rest: seq<Op>)
    requires Through(books, ops)
    ensures Play(books[0], ops + rest) == Play(books[|ops|], rest)
    ensures AllAllowed(books[0], ops + rest) <==> AllAllowed(books[|ops|], rest)
  {
    if ops != [] {
      assert forall i :: 0 <= i < |ops| - 1 ==> ops[1..][i] == ops[i + 1];
      ThroughPlays(books[1..], ops[1..], rest);
      assert (ops + rest)[1..] == ops[1..] + rest;
    } else {
      assert ops + rest == rest;
    }
  }

  lemma TwoStarted(rest: seq<Op>)
    ensures Play(NO_BOOKS, TwoStarts() + rest) == Play(TWO_BOOKS, rest)
    ensures AllAllowed(NO_BOOKS, TwoStarts() + rest) <==> AllAllowed(TWO_BOOKS, rest)
  {
    var one :=
      Books(L.List([None], Some(0), {}, L.Idle), [Range(1, 1, 0)], [[ZERO]], 1, Billing(0, ZERO), ZERO, ZERO, 0);
    var books, ops :=
      [NO_BOOKS, one.(list := L.List([None], None, {0}, L.Idle), free := 0), one,
       TWO_BOOKS.(list := L.List([None, Some(0)], Some(0), {1}, L.Idle), free := 1), TWO_BOOKS], TwoStarts();
    assert Zeros(1) == [ZERO];
    assert After(books[0], ops[0]).list.next == books[1].list.next
      && After(books[2], ops[2]).list.next == books[3].list.next;
    ThroughPlays(books, ops, rest);
  }

  /** The books when a third pipeline has read the head 1 and a bill of pipeline 0 has come so far. */
  ghost function ThirdStarts(next: seq<Option<nat>>, head: Option<nat>, move: L.Move): Books {
    Books(L.List(next, head, {2}, move), [Range(1, 1, 0), Range(2, 1, 1), Range(3, 1, 2)], [[ZERO], [ZERO], [ZERO]], 2,
          Billing(0, Sample(5, 2)), ZERO, ZERO, 5)
  }

  function ThirdOps(): seq<Op> {
    [ReadHead(Small(3), true), Wake(0, 2, 5), Detach, Attach]
  }

  lemma ThirdGoes(rest: seq<Op>)
    ensures var b := ThirdStarts([Some(1), None, Some(1)], Some(1), L.Attached(0));
            && Play(TWO_BOOKS, ThirdOps() + rest) == Play(b, rest)
            && (AllAllowed(TWO_BOOKS, ThirdOps() + rest) <==> AllAllowed(b, rest))
  {
    var start := ThirdStarts([None, Some(0), Some(1)], Some(1), L.Idle).(billing := Billing(0, ZERO), last := 0);
    var books, ops :=
      [TWO_BOOKS, start,
       ThirdStarts([None, Some(0), Some(1)], Some(1), L.Behind(1, 0)),
       ThirdStarts([None, None, Some(1)], Some(1), L.Detached(0)),
       ThirdStarts([Some(1), None, Some(1)], Some(1), L.Attached(0))], ThirdOps();
    assert Zeros(1) == [ZERO];
    assert Looked(start, 0) == Later(1, 0);
    assert After(books[0], ops[0]).list.next == books[1].list.next;
    assert After(books[2], ops[2]).list.next == books[3].list.next;
    assert After(books[3], ops[3]).list.next == books[4].list.next;
    ThroughPlays(books, ops, rest);
  }

  /** The bill makes 0 the head, and then 2 becomes the head of 1, the head it read. */
  function LosingScript(): seq<Op> {
    TwoStarts() + (ThirdOps() + ([Front, Publish(2), Wake(0, 3, 9)] + []))
  }

  /** Pipeline 2 becomes the head of 1, which is the head still, but the bill has read the head before. */
  function GapScript(): seq<Op> {
    TwoStarts() + (ThirdOps() + ([Publish(2), Front, Wake(2, 3, 9)] + []))
  }

  ghost function LossBooks(head: nat): Books {
    ThirdStarts([Some(1), None, Some(1)], Some(head), L.Idle).(
      list := L.List([Some(1), None, Some(1)], Some(head), {}, L.Idle), cells := [[Sample(5, 2)], [ZERO], [ZERO]],
      free := 3, unbilled := Sample(4, 3), last := 9)
  }

  lemma FirstCellBilled()
    ensures var s := Sample(5, 2);
            [[ZERO], [ZERO], [ZERO]][0 := [ZERO][0 := Plus(ZERO, s)]] == [[s], [ZERO], [ZERO]]
  {
    assert [ZERO][0 := Plus(ZERO, Sample(5, 2))] == [Sample(5, 2)];
  }

  ghost function LosingEnd(): seq<Books> {
    [ThirdStarts([Some(1), None, Some(1)], Some(1), L.Attached(0)),
     ThirdStarts([Some(1), None, Some(1)], Some(0), L.Idle).(cells := LossBooks(2).cells),
     LossBooks(2).(unbilled := ZERO, last := 5), LossBooks(2)]
  }

  ghost function GapEnd(): seq<Books> {
    var start := ThirdStarts([Some(1), None, Some(1)], Some(1), L.Attached(0));
    [start, start.(list := L.List([Some(1), None, Some(1)], Some(2), {}, L.Attached(0)), free := 3),
     LossBooks(0).(unbilled := ZERO, last := 5), LossBooks(0)]
  }

  lemma LosingEnds()
    ensures Through(LosingEnd(), [Front, Publish(2), Wake(0, 3, 9)])
  {
    FirstCellBilled();
    assert Looked(LosingEnd()[2], 0) == Nowhere;
    assert After(LosingEnd()[1], Publish(2)).list == LosingEnd()[2].list;
  }

  lemma GapEnds()
    ensures Through(GapEnd(), [Publish(2), Front, Wake(2, 3, 9)])
  {
    FirstCellBilled();
    assert Looked(GapEnd()[2], 2) == Nowhere;
    assert After(GapEnd()[0], Publish(2)).list == GapEnd()[1].list;
  }

  /** Pipeline 0 is in the list no more: its first slice is in the books, its second is not billed. */
  lemma LosingScriptLoses()
    ensures AllAllowed(NO_BOOKS, LosingScript()) && Play(NO_BOOKS, LosingScript()) == LossBooks(2)
    ensures L.Published(LossBooks(2).list, 0) && !L.InPlace(LossBooks(2).list, 0)
  {
    var ops := [Front, Publish(2), Wake(0, 3, 9)];
    TwoStarted(ThirdOps() + (ops + []));
    ThirdGoes(ops + []);
    LosingEnds();
    ThroughPlays(LosingEnd(), ops, []);
    L.ReachedInside(LossBooks(2).list.next, Some(2), {1, 2}, 0);
  }

  /** Pipeline 2 was the head only until the bill made 0 the head: its slice is not billed. */
  lemma GapScriptLoses()
    ensures AllAllowed(NO_BOOKS, GapScript()) && Play(NO_BOOKS, GapScript()) == LossBooks(0)
    ensures L.Published(LossBooks(0).list, 2) && !L.InPlace(LossBooks(0).list, 2)
  {
    var ops := [Publish(2), Front, Wake(2, 3, 9)];
    TwoStarted(ThirdOps() + (ops + []));
    ThirdGoes(ops + []);
    GapEnds();
    ThroughPlays(GapEnd(), ops, []);
    L.ReachedInside(LossBooks(0).list.next, Some(0), {0, 1}, 2);
  }
}
