/** The profiler's runtime: a linked list of pipelines, billed by a sampling thread. */
module ProfilerRuntime {
  import opened Collections
  import opened BillingLedger
  import opened LedgerRuns
  import opened Word64
  import L = PipelineList

  /** Counters of one Func. */
  datatype FuncStats = FuncStats(name: nat, cell: Cell, showThreadsProd: bool, showThreadsCons: bool)

  class PipelineStats {
    var time: int
    var activeThreadsNumerator: int
    var activeThreadsDenominator: int
    var name: nat
    var funcs: array<FuncStats>
    var next: PipelineStats?
    var numFuncs: int
    var numLoops: int
    var firstFuncId: int
    var runs: int
    var samples: int

    /** A node whose memory is there but not filled in. */
    constructor (funcs: array<FuncStats>)
      ensures this.funcs == funcs
    {
      this.funcs := funcs;
    }

    function Sums(): Cell
      reads `time, `activeThreadsNumerator, `activeThreadsDenominator
    {
      Cell(time, activeThreadsNumerator, activeThreadsDenominator)
    }

    function Cells(): (r: seq<Cell>)
      reads `funcs, funcs
      ensures |r| == funcs.Length && forall k :: 0 <= k < |r| ==> r[k] == funcs[k].cell
    {
      var all := funcs[..];
      seq(|all|, k requires 0 <= k < |all| => all[k].cell)
    }

    predicate Covers(funcId: int)
      reads `firstFuncId, `numFuncs
    {
      firstFuncId <= funcId < firstFuncId + numFuncs
    }

    /** The pipeline's own counters are the sums over its Funcs. */
    ghost predicate Valid()
      reads `time, `activeThreadsNumerator, `activeThreadsDenominator, `samples, `funcs, funcs
    {
      Sums() == Total(Cells()) && Wrap(samples) == activeThreadsDenominator
    }

    /** The books have its ids and its cells. */
    ghost predicate Shows(r: Range, cells: seq<Cell>)
      reads `time, `activeThreadsNumerator, `activeThreadsDenominator, `samples, `funcs, funcs
      reads `name, `numFuncs, `firstFuncId
    {
      Valid() && name == r.name && numFuncs == r.num && firstFuncId == r.first && Cells() == cells
    }

    /** Bills one Func, and the pipeline with it. */
    method Bill(k: int, time: int, activeThreads: int)
      requires Valid() && 0 <= k < funcs.Length
      modifies `time, `activeThreadsNumerator, `activeThreadsDenominator, `samples, funcs
      ensures Valid() && Cells() == old(Cells())[k := Plus(old(Cells())[k], Sample(time, activeThreads))]
      ensures forall j :: 0 <= j < funcs.Length ==> funcs[j] == old(funcs[j]).(cell := Cells()[j])
      ensures Grown(old(funcs[k].cell), funcs[k].cell, time, activeThreads)
      ensures this.time == Wrap(old(this.time) + time) && samples == old(samples) + 1
      ensures activeThreadsNumerator == Wrap(old(activeThreadsNumerator) + activeThreads)
      ensures activeThreadsDenominator == Wrap(old(activeThreadsDenominator) + 1)
    {
      var f := funcs[k];
      var c := f.cell;
      funcs[k] := f.(cell := Cell(Wrap(c.time + time), Wrap(c.threads + activeThreads), Wrap(c.samples + 1)));
      this.time := Wrap(this.time + time);
      samples := samples + 1;
      activeThreadsNumerator := Wrap(activeThreadsNumerator + activeThreads);
      activeThreadsDenominator := Wrap(activeThreadsDenominator + 1);
      TotalOfBilled(old(Cells()), k, Sample(time, activeThreads));
      WrapOnce(old(samples), 1);
      assert Cells() == old(Cells())[k := Plus(old(Cells())[k], Sample(time, activeThreads))];
    }
  }

  /** A cell before and after a bill. */
  predicate Grown(was: Cell, now: Cell, time: int, activeThreads: int) {
    && now.time == Wrap(was.time + time) && now.threads == Wrap(was.threads + activeThreads)
    && now.samples == Wrap(was.samples + 1)
  }

  /** One cell of one pipeline is billed, and no other. */
  ghost predicate OneGrown(cells: seq<seq<Cell>>, cells': seq<seq<Cell>>, n: nat, k: int, time: int,
                           activeThreads: int)
  {
    && n < |cells| && 0 <= k < |cells[n]| && |cells'| == |cells| && |cells'[n]| == |cells[n]|
    && cells' == cells[n := cells[n][k := cells'[n][k]]]
    && Grown(cells[n][k], cells'[n][k], time, activeThreads)
  }

  /** The chain from `head` runs through `nodes` and ends. */
  predicate Linked(head: PipelineStats?, nodes: seq<PipelineStats>)
    reads nodes`next
  {
    && head == (if nodes == [] then null else nodes[0])
    && forall i {:trigger LinkAt(nodes, i)} :: 0 <= i < |nodes| ==> LinkAt(nodes, i)
  }

  predicate LinkAt(nodes: seq<PipelineStats>, i: nat)
    requires i < |nodes|
    reads nodes`next
  {
    nodes[i].next == if i + 1 < |nodes| then nodes[i + 1] else null
  }

  function Nodes(list: seq<PipelineStats>): set<PipelineStats> {
    set p | p in list
  }

  function Arrays(nodes: seq<PipelineStats>): set<array<FuncStats>>
    reads nodes`funcs
  {
    set p | p in nodes :: p.funcs
  }

  /** The pipeline of a number; null for none. */
  function Deref(nodes: seq<PipelineStats>, o: Option<nat>): PipelineStats? {
    if o.Some? && o.value < |nodes| then nodes[o.value] else null
  }

  /** The pipelines are linked as the numbers say. */
  ghost predicate Pointers(nodes: seq<PipelineStats>, next: seq<Option<nat>>)
    reads nodes`next
  {
    && |next| == |nodes|
    && forall i {:trigger PointsAt(nodes, next, i)} :: 0 <= i < |nodes| ==> PointsAt(nodes, next, i)
  }

  ghost predicate PointsAt(nodes: seq<PipelineStats>, next: seq<Option<nat>>, i: nat)
    requires i < |nodes| && i < |next|
    reads nodes`next
  {
    nodes[i].next == Deref(nodes, next[i])
  }

  /** The pipelines have the ids and the cells of the books. */
  ghost predicate Accounts(nodes: seq<PipelineStats>, ranges: seq<Range>, cells: seq<seq<Cell>>)
    reads nodes`time, nodes`activeThreadsNumerator, nodes`activeThreadsDenominator, nodes`samples, nodes`funcs
    reads nodes`name, nodes`numFuncs, nodes`firstFuncId, Arrays(nodes)
  {
    && |ranges| == |cells| == |nodes|
    && forall i {:trigger nodes[i].Shows(ranges[i], cells[i])} :: 0 <= i < |nodes| ==>
      nodes[i].Shows(ranges[i], cells[i])
  }

  ghost predicate Separate(nodes: seq<PipelineStats>)
    reads nodes`funcs
  {
    Distinct(nodes) && forall i, j :: 0 <= i < j < |nodes| ==> nodes[i].funcs != nodes[j].funcs
  }

  /** Stores one link. */
  method SetNext(ghost nodes: seq<PipelineStats>, ghost next: seq<Option<nat>>, ghost n: nat, p: PipelineStats,
                 ghost target: Option<nat>, q: PipelineStats?)
    requires Pointers(nodes, next) && Distinct(nodes) && n < |nodes| && p == nodes[n] && q == Deref(nodes, target)
    modifies p`next
    ensures Pointers(nodes, next[n := target]) && p.next == q
  {
    assert forall i :: 0 <= i < |nodes| ==> PointsAt(nodes, next, i);
    p.next := q;
    ghost var next' := next[n := target];
    forall i | 0 <= i < |nodes| ensures PointsAt(nodes, next', i) {
      assert old(PointsAt(nodes, next, i));
    }
  }

  /** Bills one Func of one pipeline. */
  method BillNode(ghost nodes: seq<PipelineStats>, ghost next: seq<Option<nat>>, ghost ranges: seq<Range>,
                  ghost cells: seq<seq<Cell>>, ghost n: nat, p: PipelineStats, k: int, time: int, activeThreads: int)
    requires Accounts(nodes, ranges, cells) && Separate(nodes) && Pointers(nodes, next)
    requires n < |nodes| && p == nodes[n] && 0 <= k < |cells[n]|
    modifies p`time, p`activeThreadsNumerator, p`activeThreadsDenominator, p`samples, p.funcs
    ensures Accounts(nodes, ranges, cells[n := cells[n][k := Plus(cells[n][k], Sample(time, activeThreads))]])
    ensures Separate(nodes) && Pointers(nodes, next)
  {
    assert nodes[n].Shows(ranges[n], cells[n]);
    p.Bill(k, time, activeThreads);
    ghost var cells' := cells[n := cells[n][k := Plus(cells[n][k], Sample(time, activeThreads))]];
    forall i | 0 <= i < |nodes| ensures nodes[i].Shows(ranges[i], cells'[i]) {
      if i != n {
        assert nodes[i] != p && nodes[i].funcs != p.funcs;
        assert old(nodes[i].Shows(ranges[i], cells[i])) && nodes[i].funcs[..] == old(nodes[i].funcs[..]);
        assert nodes[i].Cells() == old(nodes[i].Cells());
      }
    }
  }

  /** What pipelines are recognized by. */
  function Keys(nodes: set<PipelineStats>): set<(nat, int)>
    reads nodes`name, nodes`numFuncs
  {
    set p | p in nodes :: (p.name, p.numFuncs)
  }

  /** A node holds the data of a pipeline that has just started. */
  predicate Describes(p: PipelineStats, pl: Pipeline)
    reads p, p.funcs
    requires pl.WellFormed()
  {
    && p.name == pl.name && p.numLoops == pl.numLoops && p.runs == 1 && p.funcs.Length == p.numFuncs == |pl.funcNames|
    && forall k :: 0 <= k < |pl.funcNames| ==>
      p.funcs[k] == FuncStats(pl.funcNames[k], ZERO, pl.showProd[k], pl.showCons[k])
  }

  /** Following the list from `head` returns to `head`. */
  predicate Ring(head: PipelineStats?, nodes: seq<PipelineStats>)
    reads nodes`next
  {
    && nodes != [] && head == nodes[0]
    && forall i :: 0 <= i < |nodes| ==> nodes[i].next == nodes[if i + 1 < |nodes| then i + 1 else 0]
  }

  /** A list that returns to its head has no end. */
  lemma RingNeverEnds(head: PipelineStats?, ring: seq<PipelineStats>, list: seq<PipelineStats>)
    requires Ring(head, ring)
    ensures !Linked(head, list)
  {
    if Linked(head, list) && list != [] && LinkAt(list, |list| - 1) {
      RingGoesOn(head, ring, list, |list| - 1);
    }
  }

  lemma {:induction false} RingGoesOn(head: PipelineStats?, ring: seq<PipelineStats>, list: seq<PipelineStats>, i: nat)
    requires Ring(head, ring) && Linked(head, list) && i < |list|
    ensures list[i] in ring && list[i].next != null
  {
    var k := 0;
    if i > 0 {
      RingGoesOn(head, ring, list, i - 1);
      var j :| 0 <= j < |ring| && ring[j] == list[i - 1];
      assert LinkAt(list, i - 1) && ring[j].next == ring[if j + 1 < |ring| then j + 1 else 0];
      k := if j + 1 < |ring| then j + 1 else 0;
    }
    assert ring[k] == list[i] && ring[k].next == ring[if k + 1 < |ring| then k + 1 else 0];
  }

  /** The counters of a node that has just been filled in. */
  ghost predicate Blank(p: PipelineStats)
    reads p`time, p`activeThreadsNumerator, p`activeThreadsDenominator, p`samples, p`funcs, p.funcs, p`numFuncs
  {
    && p.numFuncs == p.funcs.Length && p.Sums() == ZERO && p.samples == 0
    && forall k :: 0 <= k < p.funcs.Length ==> p.funcs[k].cell == ZERO
  }

  /** What the end of a move does to the books. */
  lemma FrontBooks(b: Books)
    requires Sane(b) && b.list.move.Attached?
    ensures var n := b.list.move.node;
            && n < |b.ranges| && var k := b.billing.func - b.ranges[n].first;
            && 0 <= k < |b.cells[n]| && Sane(After(b, Front))
            && After(b, Front).ranges == b.ranges && After(b, Front).free == b.free
            && After(b, Front).list.next == b.list.next && After(b, Front).list.head == Some(n)
            && After(b, Front).cells == b.cells[n := b.cells[n][k := Plus(b.cells[n][k], b.billing.sample)]]
  {
    StepSane(b, Front);
  }

  /** What a wake-up does to the books. */
  lemma WakeBooks(b: Books, f: int, threads: int, now: int)
    requires Sane(b) && Allowed(b, Wake(f, threads, now))
    ensures var b', s := After(b, Wake(f, threads, now)), Sample(Slice(b, now), threads);
            && Sane(b') && b'.ranges == b.ranges && b'.free == b.free
            && b'.list.next == b.list.next && b'.list.head == b.list.head
            && match if f < 0 then Nowhere else Looked(b, f)
               case First(n) =>
                 && n < |b.ranges| && Covers(b, n, f) && var k := f - b.ranges[n].first;
                 && 0 <= k < |b.cells[n]| && b'.cells == b.cells[n := b.cells[n][k := Plus(b.cells[n][k], s)]]
                 && b'.list.move.Idle?
               case Later(prev, n) =>
                 && b'.cells == b.cells && b'.list.move == L.Behind(prev, n) && b'.billing == Billing(f, s)
               case _ => b'.cells == b.cells && b'.list.move.Idle?
  {
    StepSane(b, Wake(f, threads, now));
    if f >= 0 {
      LookedFinds(b, f);
    }
  }

  /** A new pipeline that is linked to the head. */
  lemma ExtendPicture(nodes: seq<PipelineStats>, next: seq<Option<nat>>, head: Option<nat>, p: PipelineStats)
    requires Pointers(nodes, next) && p.next == Deref(nodes, head)
    requires (forall i :: 0 <= i < |next| && next[i].Some? ==> next[i].value < |nodes|)
             && (head.Some? ==> head.value < |nodes|)
    ensures Pointers(nodes + [p], next + [head])
  {
    forall i | 0 <= i < |nodes| + 1 ensures PointsAt(nodes + [p], next + [head], i) {
      assert i < |nodes| ==> PointsAt(nodes, next, i);
    }
  }

  /** A new pipeline has empty cells, and sums of zero. */
  lemma BlankShows(p: PipelineStats, pl: Pipeline)
    requires pl.WellFormed() && Describes(p, pl) && Blank(p)
    ensures p.Shows(Range(pl.name, |pl.funcNames|, p.firstFuncId), Zeros(|pl.funcNames|))
  {
    assert p.Cells() == Zeros(|pl.funcNames|);
    ZerosTotal(|pl.funcNames|);
  }

  /** It has an account of its own. */
  lemma ExtendAccounts(nodes: seq<PipelineStats>, ranges: seq<Range>, cells: seq<seq<Cell>>, p: PipelineStats,
                       pl: Pipeline)
    requires Accounts(nodes, ranges, cells) && pl.WellFormed() && Describes(p, pl) && Blank(p)
    ensures Accounts(nodes + [p], ranges + [Range(pl.name, |pl.funcNames|, p.firstFuncId)],
        cells + [Zeros(|pl.funcNames|)])
  {
    BlankShows(p, pl);
    var nodes', ranges', cells' :=
      nodes + [p], ranges + [Range(pl.name, |pl.funcNames|, p.firstFuncId)], cells + [Zeros(|pl.funcNames|)];
    forall i | 0 <= i < |nodes'| ensures nodes'[i].Shows(ranges'[i], cells'[i]) {
      if i < |nodes| {
        assert nodes[i].Shows(ranges[i], cells[i]);
      }
    }
  }

  /** The rest of a move, and of the bill. */
  function AfterMove(b: Books): Books {
    After(After(After(b, Detach), Attach), Front)
  }

  /** A whole bill. */
  function AfterBill(b: Books, id: int, threads: int, now: int): Books {
    var w := After(b, Wake(id, threads, now));
    if w.list.move.Behind? then AfterMove(w) else w
  }

  /** The search of the books passes along the list. */
  lemma {:induction false} SearchAlong(nodes: seq<PipelineStats>, b: Books, list: seq<PipelineStats>, j: nat,
                                       prev: Option<nat>, at: Option<nat>, id: int, links: nat) returns (i: nat)
    requires Pointers(nodes, b.list.next) && Accounts(nodes, b.ranges, b.cells) && Sane(b) && L.Target(b.list, at)
    requires j <= |list| && forall k {:trigger LinkAt(list, k)} :: 0 <= k < |list| ==> LinkAt(list, k)
    requires Deref(nodes, at) == if j < |list| then list[j] else null
    requires if j == 0 then prev == None else prev.Some? && prev.value < |nodes| && nodes[prev.value] == list[j - 1]
    requires !Search(b.list.next, b.ranges, prev, at, id, links).Endless?
    ensures j <= i <= |list| && (forall k :: j <= k < i ==> !list[k].Covers(id)) && (i < |list| ==> list[i].Covers(id))
    ensures match Search(b.list.next, b.ranges, prev, at, id, links)
            case First(n) => i == 0 < |list| && n < |nodes| && nodes[n] == list[0]
            case Later(m, n) =>
              0 < i < |list| && m < |nodes| && n < |nodes| && nodes[m] == list[i - 1] && nodes[n] == list[i]
            case _ => i == |list|
    decreases links
  {
    if j == |list| {
      i := j;
    } else {
      assert nodes[at.value].Shows(b.ranges[at.value], b.cells[at.value]);
      if list[j].Covers(id) {
        i := j;
      } else {
        assert PointsAt(nodes, b.list.next, at.value) && LinkAt(list, j);
        i := SearchAlong(nodes, b, list, j + 1, at, b.list.next[at.value], id, links - 1);
      }
    }
  }

  /** A wake-up begins a move exactly when the search comes to a later pipeline of the list. */
  lemma WakeAlong(nodes: seq<PipelineStats>, b: Books, list: seq<PipelineStats>, id: int, threads: int, now: int)
      returns (i: nat)
    requires Pointers(nodes, b.list.next) && Accounts(nodes, b.ranges, b.cells) && Sane(b) && id >= 0
    requires Linked(Deref(nodes, b.list.head), list) && Allowed(b, Wake(id, threads, now))
    ensures i <= |list| && (forall k :: 0 <= k < i ==> !list[k].Covers(id)) && (i < |list| ==> list[i].Covers(id))
    ensures var move := After(b, Wake(id, threads, now)).list.move;
            match move
            case Behind(m, n) =>
              0 < i < |list| && Deref(nodes, Some(m)) == list[i - 1] && Deref(nodes, Some(n)) == list[i]
            case _ => i == 0 || i == |list|
  {
    i := SearchAlong(nodes, b, list, 0, None, b.list.head, id, |b.list.next|);
    WakeBooks(b, id, threads, now);
  }

  /** What a whole bill does to the cells: the one of the Func that has the id, where the search finds it. */
  lemma BillCells(b: Books, id: int, threads: int, now: int)
    requires Sane(b) && Allowed(b, Wake(id, threads, now)) && id >= 0
    ensures match Looked(b, id)
            case First(n) => BilledAt(b, n, id, threads, now)
            case Later(_, n) => BilledAt(b, n, id, threads, now)
            case _ => AfterBill(b, id, threads, now).cells == b.cells
  {
    WakeBooks(b, id, threads, now);
    if Looked(b, id).Later? {
      MoveBooks(After(b, Wake(id, threads, now)));
    }
  }

  ghost predicate BilledAt(b: Books, n: nat, id: int, threads: int, now: int) {
    n < |b.ranges|
    && OneGrown(b.cells, AfterBill(b, id, threads, now).cells, n, id - b.ranges[n].first, Wrap(now - b.last), threads)
  }

  /**
   A whole bill adds to the cell of the Func that has the id, in the first pipeline of the list that has it, and to
   no other.
   */
  lemma BillBooks(nodes: seq<PipelineStats>, b: Books, list: seq<PipelineStats>, id: int, threads: int, now: int)
      returns (i: nat, n: nat)
    requires Pointers(nodes, b.list.next) && Accounts(nodes, b.ranges, b.cells) && Sane(b) && id >= 0
    requires Linked(Deref(nodes, b.list.head), list) && Allowed(b, Wake(id, threads, now))
    ensures i <= |list| && (forall k :: 0 <= k < i ==> !list[k].Covers(id)) && (i < |list| ==> list[i].Covers(id))
    ensures if i < |list| then
              && n < |nodes| && nodes[n] == list[i]
              && OneGrown(b.cells, AfterBill(b, id, threads, now).cells, n, id - list[i].firstFuncId,
                   Wrap(now - b.last), threads)
            else AfterBill(b, id, threads, now).cells == b.cells
  {
    i := SearchAlong(nodes, b, list, 0, None, b.list.head, id, |b.list.next|);
    BillCells(b, id, threads, now);
    n := 0;
    match Looked(b, id)
    case First(m) =>
      n := m;
      assert nodes[n].Shows(b.ranges[n], b.cells[n]);
    case Later(_, m) =>
      n := m;
      assert nodes[n].Shows(b.ranges[n], b.cells[n]);
    case _ =>
  }

  /** The rest of a move bills the cell that the wake-up found. */
  lemma MoveBooks(b: Books)
    requires Sane(b) && b.list.move.Behind?
    ensures var n := b.list.move.node;
            && n < |b.ranges| && n < |b.cells| && var k := b.billing.func - b.ranges[n].first;
            && 0 <= k < |b.cells[n]|
            && AfterMove(b).cells == b.cells[n := b.cells[n][k := Plus(b.cells[n][k], b.billing.sample)]]
  {
    StepSane(b, Detach);
    StepSane(After(b, Detach), Attach);
    FrontBooks(After(After(b, Detach), Attach));
  }

  lemma Prepended(list: seq<PipelineStats>, p: PipelineStats)
    requires Linked(p.next, list)
    ensures Linked(p, [p] + list)
  {
    forall j | 0 <= j < |list| + 1 ensures LinkAt([p] + list, j) {
      assert j > 0 ==> LinkAt(list, j - 1);
    }
  }

  /** The variables of the sampling thread. */
  datatype Sampler =
    Sampler(prev: PipelineStats?, p: PipelineStats?, funcId: int, time: int, activeThreads: int, t: int)

  /** The pipelines of a chain are linked. */
  lemma ChainLinked(nodes: seq<PipelineStats>, next: seq<Option<nat>>, head: Option<nat>, l: seq<nat>)
      returns (r: seq<PipelineStats>)
    requires Pointers(nodes, next) && L.IsChain(next, head, l)
    ensures Linked(Deref(nodes, head), r)
  {
    forall i | 0 <= i < |l| ensures l[i] < |nodes| {
      assert L.LinkAt(next, l, i);
    }
    r := seq(|l|, i requires 0 <= i < |l| && l[i] < |nodes| => nodes[l[i]]);
    forall i | 0 <= i < |r| ensures LinkAt(r, i) {
      assert L.LinkAt(next, l, i) && PointsAt(nodes, next, l[i]);
    }
  }

  class ProfilerState {
    var firstFreeId: int
    var pipelines: PipelineStats?
    /** The pipelines by their numbers, and the books. */
    ghost var nodes: seq<PipelineStats>
    ghost var books: Books

    constructor ()
      ensures Valid() && nodes == [] && books == NO_BOOKS
    {
      firstFreeId, pipelines, nodes, books := 0, null, [], NO_BOOKS;
    }

    /** The objects are as the books say. */
    ghost predicate Valid()
      reads this, nodes, Arrays(nodes)
    {
      && Sane(books) && Separate(nodes)
      && Pointers(nodes, books.list.next) && pipelines == Deref(nodes, books.list.head)
      && Accounts(nodes, books.ranges, books.cells) && firstFreeId == books.free
    }

    // ----- Single accesses -----

    /** The search of `bill_func`: the pipeline that has the id, and the one before it. */
    method FindOwner(funcId: int) returns (prev: PipelineStats?, p: PipelineStats?)
      requires Valid() && Looked(books, funcId) != Endless
      ensures match Looked(books, funcId)
              case Nowhere => p == null
              case First(n) => n < |nodes| && p == nodes[n] && prev == null
              case Later(m, n) => m < |nodes| && n < |nodes| && p == nodes[n] && prev == nodes[m]
              case Endless => false
      ensures p != null ==> p.Covers(funcId)
    {
      prev, p := null, pipelines;
      ghost var before: Option<nat>, at: Option<nat>, links: nat := None, books.list.head, |books.list.next|;
      while p != null
        invariant L.Target(books.list, at) && p == Deref(nodes, at)
        invariant L.Target(books.list, before) && prev == Deref(nodes, before)
        invariant Search(books.list.next, books.ranges, before, at, funcId, links) == Looked(books, funcId)
        decreases links, p != null
      {
        assert nodes[at.value].Shows(books.ranges[at.value], books.cells[at.value]);
        assert PointsAt(nodes, books.list.next, at.value);
        if funcId >= p.firstFuncId && funcId < p.firstFuncId + p.numFuncs {
          return;
        }
        before, at, links := at, books.list.next[at.value], links - 1;
        prev := p;
        p := p.next;
      }
    }

    /** The books follow the objects. */
    ghost method Enter(b: Books, all: seq<PipelineStats>)
      requires Sane(b) && Separate(all)
      requires Pointers(all, b.list.next) && pipelines == Deref(all, b.list.head)
      requires Accounts(all, b.ranges, b.cells) && firstFreeId == b.free
      modifies `books, `nodes
      ensures Valid() && books == b && nodes == all
    {
      books, nodes := b, all;
      forall i | 0 <= i < |nodes| ensures nodes[i].Shows(b.ranges[i], b.cells[i]) {
        assert old(all[i].Shows(b.ranges[i], b.cells[i]));
      }
    }

    /** `p_prev->next = p->next`. */
    method TakeOut(prev: PipelineStats, p: PipelineStats)
      requires Valid() && books.list.move.Behind?
      requires prev == Deref(nodes, Some(books.list.move.prev)) && p == Deref(nodes, Some(books.list.move.node))
      modifies `books, `nodes, prev`next
      ensures Valid() && nodes == old(nodes) && books == After(old(books), Detach) && prev.next == old(p.next)
    {
      ghost var m, n := books.list.move.prev, books.list.move.node;
      assert PointsAt(nodes, books.list.next, n);
      StepSane(books, Detach);
      SetNext(nodes, books.list.next, m, prev, books.list.next[n], p.next);
      Enter(After(books, Detach), nodes);
    }

    /** `p->next = s->pipelines`. */
    method LinkToHead(p: PipelineStats)
      requires Valid() && books.list.move.Detached? && p == Deref(nodes, Some(books.list.move.node))
      modifies `books, `nodes, p`next
      ensures Valid() && nodes == old(nodes) && books == After(old(books), Attach) && p.next == pipelines
    {
      StepSane(books, Attach);
      SetNext(nodes, books.list.next, books.list.move.node, p, books.list.head, pipelines);
      Enter(After(books, Attach), nodes);
    }

    /** `s->pipelines = p`, and the bill. */
    method MakeHead(p: PipelineStats, funcId: int, time: int, activeThreads: int)
      requires Valid() && books.list.move.Attached? && p == Deref(nodes, Some(books.list.move.node))
      requires books.billing == Billing(funcId, Sample(time, activeThreads))
      modifies `books, `nodes, `pipelines
      modifies p`time, p`activeThreadsNumerator, p`activeThreadsDenominator, p`samples, p.funcs
      ensures Valid() && nodes == old(nodes) && books == After(old(books), Front) && pipelines == p
    {
      ghost var n := books.list.move.node;
      FrontBooks(books);
      assert nodes[n].Shows(books.ranges[n], books.cells[n]);
      StoreHead(p);
      BillNode(nodes, books.list.next, books.ranges, books.cells, n, p, funcId - p.firstFuncId, time, activeThreads);
      Enter(After(books, Front), nodes);
    }

    method StoreHead(p: PipelineStats)
      requires Separate(nodes) && Pointers(nodes, books.list.next) && Accounts(nodes, books.ranges, books.cells)
      modifies `pipelines
      ensures pipelines == p && Separate(nodes)
      ensures Pointers(nodes, books.list.next) && Accounts(nodes, books.ranges, books.cells)
    {
      pipelines := p;
      forall i | 0 <= i < |nodes| ensures nodes[i].Shows(books.ranges[i], books.cells[i]) {
        assert old(nodes[i].Shows(books.ranges[i], books.cells[i]));
      }
    }

    /** The sampling thread wakes, looks for the pipeline of the Func it observed, and bills it if it is the first. */
    method WakeUp(funcId: int, activeThreads: int, t: int, now: int) returns (prev: PipelineStats?, p: PipelineStats?)
      requires Valid() && t == books.last && Allowed(books, Wake(funcId, activeThreads, now))
      modifies `books, `nodes, nodes`time, nodes`activeThreadsNumerator, nodes`activeThreadsDenominator, nodes`samples,
        Arrays(nodes)
      ensures Valid() && nodes == old(nodes) && books == After(old(books), Wake(funcId, activeThreads, now))
      ensures books.list.move.Behind? ==>
                && prev == Deref(nodes, Some(books.list.move.prev)) && p == Deref(nodes, Some(books.list.move.node))
                && books.billing == Billing(funcId, Sample(Wrap(now - t), activeThreads))
      ensures books.list.move.Behind? <==> p != null && prev != null
    {
      WakeBooks(books, funcId, activeThreads, now);
      ghost var after := After(books, Wake(funcId, activeThreads, now));
      prev, p := null, null;
      if funcId < 0 {
        Enter(after, nodes);
        return;
      }
      prev, p := FindOwner(funcId);
      if p != null && prev == null {
        BillFirst(p, funcId, Wrap(now - t), activeThreads);
        Enter(after, nodes);
      } else {
        Enter(after, nodes);
      }
    }

    /** Bills the first pipeline of the list; the books follow later. */
    method BillFirst(p: PipelineStats, funcId: int, time: int, activeThreads: int)
      requires Valid() && Looked(books, funcId).First?
      requires Looked(books, funcId).node < |nodes| && p == nodes[Looked(books, funcId).node] && p.Covers(funcId)
      modifies p`time, p`activeThreadsNumerator, p`activeThreadsDenominator, p`samples, p.funcs
      ensures Separate(nodes) && Pointers(nodes, books.list.next)
      ensures var n := Looked(books, funcId).node; n < |books.ranges| && var k := funcId - books.ranges[n].first;
              && n < |books.cells| && 0 <= k < |books.cells[n]|
              && Accounts(nodes, books.ranges,
                books.cells[n := books.cells[n][k := Plus(books.cells[n][k], Sample(time, activeThreads))]])
    {
      ghost var n := Looked(books, funcId).node;
      assert nodes[n].Shows(books.ranges[n], books.cells[n]);
      BillNode(nodes, books.list.next, books.ranges, books.cells, n, p, funcId - p.firstFuncId, time, activeThreads);
    }

    // ----- Starts -----

    /** The first pipeline in the list that goes by the given name and number of Funcs. */
    method FindPipeline(name: nat, numFuncs: int, ghost list: seq<PipelineStats>)
      returns (p: PipelineStats?, ghost i: nat)
      requires Linked(pipelines, list)
      ensures p == null <==> (name, numFuncs) !in Keys(Nodes(list))
      ensures p != null ==> i < |list| && p == list[i] && p.name == name && p.numFuncs == numFuncs
    {
      p := pipelines;
      i := 0;
      while p != null
        invariant 0 <= i <= |list|
        invariant p == if i < |list| then list[i] else null
        invariant forall j :: 0 <= j < i ==> (list[j].name, list[j].numFuncs) != (name, numFuncs)
        decreases |list| - i
      {
        if p.name == name && p.numFuncs == numFuncs {
          return;
        }
        assert LinkAt(list, i);
        p := p.next;
        i := i + 1;
      }
    }

    /** The part of a start, for a pipeline that was not found, that reads the head and the next free id. */
    method BeginStart(pl: Pipeline, enoughMemory: bool) returns (p: PipelineStats?)
      requires Valid() && pl.WellFormed()
      modifies `books, `nodes
      ensures Valid() && books == After(old(books), ReadHead(pl, enoughMemory))
      ensures p != null <==> enoughMemory
      ensures p == null ==> nodes == old(nodes)
      ensures p != null ==>
                && nodes == old(nodes) + [p] && fresh(p) && fresh(p.funcs) && Describes(p, pl) && Blank(p)
                && p.next == pipelines && p.firstFuncId == firstFreeId
    {
      p := null;
      if enoughMemory {
        p := NewNode(pl);
        ExtendPicture(nodes, books.list.next, books.list.head, p);
        ExtendAccounts(nodes, books.ranges, books.cells, p, pl);
        StepSane(books, ReadHead(pl, true));
        Enter(After(books, ReadHead(pl, true)), nodes + [p]);
      }
    }

    /** The last part of a start: the ids are taken and the pipeline becomes the head, in front of the head it read. */
    method PublishStart(p: PipelineStats, ghost n: nat)
      requires Valid() && n in books.list.starting && p == Deref(nodes, Some(n))
      modifies `firstFreeId, `pipelines, `books, `nodes
      ensures Valid() && nodes == old(nodes) && books == After(old(books), Publish(n)) && pipelines == p
    {
      StepSane(books, Publish(n));
      assert nodes[n].Shows(books.ranges[n], books.cells[n]);
      TakeIds(p.numFuncs);
      StoreHead(p);
      Enter(After(books, Publish(n)), nodes);
    }

    method TakeIds(n: int)
      requires Separate(nodes) && Pointers(nodes, books.list.next) && Accounts(nodes, books.ranges, books.cells)
      modifies `firstFreeId
      ensures firstFreeId == old(firstFreeId) + n && Separate(nodes)
      ensures Pointers(nodes, books.list.next) && Accounts(nodes, books.ranges, books.cells)
    {
      firstFreeId := firstFreeId + n;
      forall i | 0 <= i < |nodes| ensures nodes[i].Shows(books.ranges[i], books.cells[i]) {
        assert old(nodes[i].Shows(books.ranges[i], books.cells[i]));
      }
    }

    method NewNode(pl: Pipeline) returns (p: PipelineStats)
      requires pl.WellFormed()
      ensures fresh(p) && fresh(p.funcs) && Describes(p, pl) && Blank(p)
      ensures p.next == pipelines && p.firstFuncId == firstFreeId
    {
      var funcs := NewFuncs(pl);
      p := new PipelineStats(funcs);
      FillIn(p, pl, funcs);
      p.runs := p.runs + 1;
    }

    method NewFuncs(pl: Pipeline) returns (funcs: array<FuncStats>)
      requires pl.WellFormed()
      ensures fresh(funcs) && funcs.Length == |pl.funcNames|
      ensures forall k :: 0 <= k < |pl.funcNames| ==>
                funcs[k] == FuncStats(pl.funcNames[k], ZERO, pl.showProd[k], pl.showCons[k])
    {
      funcs := new FuncStats[|pl.funcNames|];
      for i := 0 to |pl.funcNames|
        invariant forall k :: 0 <= k < i ==>
                    funcs[k] == FuncStats(pl.funcNames[k], ZERO, pl.showProd[k], pl.showCons[k])
      {
        funcs[i] := FuncStats(pl.funcNames[i], ZERO, pl.showProd[i], pl.showCons[i]);
      }
    }

    method FillIn(p: PipelineStats, pl: Pipeline, funcs: array<FuncStats>)
      modifies p
      ensures p.name == pl.name && p.next == pipelines && p.firstFuncId == firstFreeId && p.numFuncs == |pl.funcNames|
      ensures p.numLoops == pl.numLoops && p.runs == 0 && p.Sums() == ZERO && p.samples == 0 && p.funcs == funcs
    {
      p.name := pl.name;
      p.next := pipelines;
      p.firstFuncId := firstFreeId;
      p.numFuncs := |pl.funcNames|;
      p.numLoops := pl.numLoops;
      p.runs := 0;
      p.time := 0;
      p.samples := 0;
      p.activeThreadsNumerator := 0;
      p.activeThreadsDenominator := 0;
      p.funcs := funcs;
    }

    // ----- Uninterrupted calls -----

    /**
     `bill_func` for the slice since `t`: the pipeline that has the id is moved to the front; the books are those of
     a whole bill, which `BillBooks` tells about.
     */
    method BillFunc(funcId: int, activeThreads: int, t: int, now: int, ghost list: seq<PipelineStats>)
      returns (ghost i: nat)
      requires Valid() && t == books.last && Allowed(books, Wake(funcId, activeThreads, now)) && funcId >= 0
      requires Linked(pipelines, list) && Distinct(list)
      modifies `books, `nodes, `pipelines
      modifies nodes`next, nodes`time, nodes`activeThreadsNumerator, nodes`activeThreadsDenominator, nodes`samples,
        Arrays(nodes)
      ensures Valid() && nodes == old(nodes) && books == AfterBill(old(books), funcId, activeThreads, now)
      ensures i <= |list| && (forall j :: 0 <= j < i ==> !list[j].Covers(funcId))
              && (i < |list| ==> list[i].Covers(funcId))
      ensures Linked(pipelines, if i < |list| then MoveToFront(list, i) else list)
    {
      i := WakeAlong(nodes, books, list, funcId, activeThreads, now);
      var prev, p := WakeUp(funcId, activeThreads, t, now);
      if p != null && prev != null {
        MoveAndBill(prev, p, funcId, Wrap(now - t), activeThreads, list, i);
      } else {
        assert i == 0 < |list| ==> MoveToFront(list, 0) == list;
      }
    }

    method MoveAndBill(prev: PipelineStats, p: PipelineStats, funcId: int, time: int, activeThreads: int,
                       ghost list: seq<PipelineStats>, ghost i: nat)
      requires Valid() && books.list.move.Behind? && books.billing == Billing(funcId, Sample(time, activeThreads))
      requires prev == Deref(nodes, Some(books.list.move.prev)) && p == Deref(nodes, Some(books.list.move.node))
      requires Linked(pipelines, list) && Distinct(list) && 0 < i < |list| && p == list[i] && prev == list[i - 1]
      modifies `books, `nodes, `pipelines, prev`next, p`next
      modifies p`time, p`activeThreadsNumerator, p`activeThreadsDenominator, p`samples, p.funcs
      ensures Valid() && nodes == old(nodes) && books == AfterMove(old(books))
      ensures Linked(pipelines, MoveToFront(list, i))
    {
      assert forall j {:trigger list[j].next} :: 0 <= j < |list| ==> LinkAt(list, j);
      TakeOut(prev, p);
      LinkToHead(p);
      MakeHead(p, funcId, time, activeThreads);
      ghost var list' := MoveToFront(list, i);
      forall j | 0 <= j < |list'| ensures LinkAt(list', j) {
        if 0 < j < i {
          assert old(list[j - 1].next) == list[j];
        } else if j > i {
          assert old(list[j].next) == if j + 1 < |list| then list[j + 1] else null;
        }
      }
    }

    /**
     `halide_papi_pipeline_start`.  A pipeline that is new to the list is put first and gets the next free ids.
     One that is in the list already is filled in again where it stands and linked to the front, which closes
     the front of the list to a ring.
     */
    method PipelineStart(pl: Pipeline, enoughMemory: bool, ghost list: seq<PipelineStats>) returns (id: int)
      requires Valid() && pl.WellFormed() && Linked(pipelines, list) && Distinct(list)
      modifies this, list
      ensures !enoughMemory && pl.Key() !in old(Keys(Nodes(list))) ==>
                id == -1 && Valid() && unchanged(this) && unchanged(list)
      ensures enoughMemory && pl.Key() !in old(Keys(Nodes(list))) ==>
                && id == old(firstFreeId) && Valid() && unchanged(list)
                && |nodes| == |old(nodes)| + 1 && nodes[..|old(nodes)|] == old(nodes)
                && books == After(After(old(books), ReadHead(pl, true)), Publish(|old(nodes)|))
                && var p := nodes[|old(nodes)|];
                   && Linked(pipelines, [p] + list) && fresh(p) && fresh(p.funcs) && Describes(p, pl)
      ensures enoughMemory && pl.Key() in old(Keys(Nodes(list))) ==>
                exists i :: 0 <= i < |list| && Ring(pipelines, [list[i]] + list[..i])
    {
      var p, i := FindPipeline(pl.name, |pl.funcNames|, list);
      id := -1;
      if enoughMemory {
        if p == null {
          ghost var n := |nodes|;
          p := BeginStart(pl, true);
          PublishStart(p, n);
          id := p.firstFuncId;
          Prepended(list, p);
        } else {
          id := StartAgain(p, pl, i, list);
        }
      }
    }

    /** A pipeline found in the list is filled in where it stands and made the head. */
    method StartAgain(p: PipelineStats, pl: Pipeline, ghost i: nat, ghost list: seq<PipelineStats>) returns (id: int)
      requires Linked(pipelines, list) && Distinct(list) && i < |list| && p == list[i] && pl.WellFormed()
      modifies `firstFreeId, `pipelines, p
      ensures id == old(firstFreeId) && Ring(pipelines, [p] + list[..i])
    {
      var funcs := NewFuncs(pl);
      ghost var ring := [p] + list[..i];
      assert forall j {:trigger list[j].next} :: 0 <= j < |list| ==> LinkAt(list, j);
      FillIn(p, pl, funcs);
      firstFreeId := firstFreeId + |pl.funcNames|;
      pipelines := p;
      p.runs := p.runs + 1;
      id := p.firstFuncId;
      forall j | 0 <= j < |ring| ensures ring[j].next == ring[if j + 1 < |ring| then j + 1 else 0] {
        if j > 0 {
          assert ring[j] == list[j - 1] && list[j - 1].next == list[j];
        }
      }
    }

    /** `halide_papi_reset_unlocked`. */
    method Reset(ghost list: seq<PipelineStats>)
      requires Valid() && Allowed(books, Op.Reset) && Linked(pipelines, list)
      modifies this
      ensures Valid() && nodes == [] && books == After(old(books), Op.Reset) && pipelines == null
    {
      ghost var rest := list;
      while pipelines != null
        invariant Linked(pipelines, rest) && nodes == old(nodes) && books == old(books)
        decreases |rest|
      {
        assert LinkAt(rest, 0);
        ghost var was := rest;
        var p := pipelines;
        pipelines := p.next;
        rest := rest[1..];
        forall j | 0 <= j < |rest| ensures LinkAt(rest, j) {
          assert LinkAt(was, j + 1);
        }
      }
      firstFreeId := 0;
      Enter(After(books, Op.Reset), []);
    }

    // ----- Runs -----

    /** The variables of the sampling thread fit the bill under way. */
    ghost predicate Tracks(v: Sampler)
      reads this
    {
      && v.t == books.last
      && (!books.list.move.Idle? ==>
            && v.p == Deref(nodes, Some(books.list.move.node))
            && books.billing == Billing(v.funcId, Sample(v.time, v.activeThreads)))
      && (books.list.move.Behind? ==> v.prev == Deref(nodes, Some(books.list.move.prev)))
    }

    /** One access of the sampling thread. */
    method BillTurn(op: Op, v: Sampler) returns (v': Sampler)
      requires Valid() && Allowed(books, op) && Tracks(v) && (op.Wake? || op.Detach? || op.Attach? || op.Front?)
      modifies `books, `nodes, `pipelines
      modifies nodes`next, nodes`time, nodes`activeThreadsNumerator, nodes`activeThreadsDenominator, nodes`samples,
        Arrays(nodes)
      ensures Valid() && nodes == old(nodes) && books == After(old(books), op) && Tracks(v')
    {
      v' := v;
      match op
      case Wake(funcId, activeThreads, now) =>
        WakeBooks(books, funcId, activeThreads, now);
        var prev, p := WakeUp(funcId, activeThreads, v.t, now);
        v' := Sampler(prev, p, funcId, Wrap(now - v.t), activeThreads, now);
      case Detach => TakeOut(v.prev, v.p);
      case Attach => LinkToHead(v.p);
      case Front =>
        FrontBooks(books);
        MakeHead(v.p, v.funcId, v.time, v.activeThreads);
    }

    /** One access of a start, or a reset. */
    method StartTurn(op: Op, ghost v: Sampler, created: seq<PipelineStats>) returns (created': seq<PipelineStats>)
      requires Valid() && Allowed(books, op) && Tracks(v) && created == nodes
               && (op.ReadHead? || op.Publish? || op.Reset?)
      modifies this
      ensures Valid() && books == After(old(books), op) && Tracks(v) && created' == nodes
      ensures forall q :: q in Nodes(nodes) ==> q in old(Nodes(nodes)) || fresh(q)
      ensures forall a :: a in Arrays(nodes) ==> a in old(Arrays(nodes)) || fresh(a)
    {
      created' := created;
      match op
      case ReadHead(pl, enough) =>
        var p := BeginStart(pl, enough);
        if p != null {
          created' := created + [p];
        }
      case Publish(n) => PublishStart(created[n], n);
      case Reset =>
        ghost var l :| L.IsChain(books.list.next, books.list.head, l);
        ghost var list := ChainLinked(nodes, books.list.next, books.list.head, l);
        Reset(list);
        created' := [];
    }

    /** One access of any thread. */
    method Turn(op: Op, v: Sampler, created: seq<PipelineStats>) returns (v': Sampler, created': seq<PipelineStats>)
      requires Valid() && Allowed(books, op) && Tracks(v) && created == nodes
      modifies this, Nodes(nodes), Arrays(nodes)
      ensures Valid() && books == After(old(books), op) && Tracks(v') && created' == nodes
      ensures forall q :: q in Nodes(nodes) ==> q in old(Nodes(nodes)) || fresh(q)
      ensures forall a :: a in Arrays(nodes) ==> a in old(Arrays(nodes)) || fresh(a)
    {
      v', created' := v, created;
      if op.ReadHead? || op.Publish? || op.Reset? {
        created' := StartTurn(op, v, created);
      } else {
        v' := BillTurn(op, v);
      }
    }

    /**
     The inner loop of `sampling_profiler_thread`, with the accesses of the other threads between its own: it ends
     when the thread wakes to the request to stop.
     */
    method Run(script: seq<Op>, t1: int, known: seq<PipelineStats>) returns (t: int)
      requires Valid() && AllAllowed(books, script) && books.list.move.Idle? && books.last == t1 && known == nodes
      modifies this, Nodes(nodes), Arrays(nodes)
      ensures Valid() && books == Play(old(books), script) && t == books.last
    {
      var v, created := Sampler(null, null, 0, 0, 0, t1), known;
      for i := 0 to |script|
        invariant Valid() && Tracks(v) && created == nodes
        invariant AllAllowed(books, script[i..]) && Play(books, script[i..]) == Play(old(books), script)
        invariant forall q :: q in Nodes(nodes) ==> q in old(Nodes(nodes)) || fresh(q)
        invariant forall a :: a in Arrays(nodes) ==> a in old(Arrays(nodes)) || fresh(a)
      {
        var op := script[i];
        assert script[i..][0] == op && script[i..][1..] == script[i + 1..];
        if op.Wake? && op.func == PLEASE_STOP {
          return v.t;
        }
        v, created := Turn(op, v, created);
      }
      t := v.t;
    }
  }

  /** After the first schedule pipeline 0 is no longer in the list. */
  method LostPipeline() returns (s: ProfilerState, t: int)
    ensures s.Valid() && s.books == LossBooks(2) && |s.nodes| == 3 && Linked(s.pipelines, [s.nodes[2], s.nodes[1]])
  {
    s := new ProfilerState();
    LosingScriptLoses();
    t := s.Run(LosingScript(), 0, []);
    TwoLinked(s.nodes, s.books.list.next, 2, 1);
  }

  /** After the second, pipeline 2 is not, though it found the head that it had read. */
  method LostInGap() returns (s: ProfilerState, t: int)
    ensures s.Valid() && s.books == LossBooks(0) && |s.nodes| == 3 && Linked(s.pipelines, [s.nodes[0], s.nodes[1]])
  {
    s := new ProfilerState();
    GapScriptLoses();
    t := s.Run(GapScript(), 0, []);
    TwoLinked(s.nodes, s.books.list.next, 0, 1);
  }

  lemma TwoLinked(nodes: seq<PipelineStats>, next: seq<Option<nat>>, m: nat, n: nat)
    requires Pointers(nodes, next) && m < |nodes| && n < |nodes| && next[m] == Some(n) && next[n] == None
    ensures Linked(nodes[m], [nodes[m], nodes[n]])
  {
    assert PointsAt(nodes, next, m) && PointsAt(nodes, next, n);
  }

  /**
   Two starts of which the second reads the head before the first replaces it: the first pipeline is not in the
   list, and both have the same ids.
   */
  method OverlappingStarts(s: ProfilerState, a: Pipeline, b: Pipeline, ghost list: seq<PipelineStats>)
    returns (p: PipelineStats, q: PipelineStats)
    requires s.Valid() && a.WellFormed() && b.WellFormed() && Linked(s.pipelines, list) && Nodes(list) <= Nodes(s.nodes)
    modifies s
    ensures s.Valid() && Linked(s.pipelines, [q] + list) && p !in [q] + list && p.next == q.next
    ensures p.firstFuncId == q.firstFuncId == old(s.firstFreeId)
    ensures s.firstFreeId == old(s.firstFreeId) + p.numFuncs + q.numFuncs
  {
    ghost var n := |s.nodes|;
    p := s.BeginStart(a, true);
    q := s.BeginStart(b, true);
    s.PublishStart(p, n);
    s.PublishStart(q, n + 1);
    Prepended(list, q);
    assert s.nodes[n] == p && s.nodes[n + 1] == q;
    assert s.nodes[n].Shows(s.books.ranges[n], s.books.cells[n]);
    assert s.nodes[n + 1].Shows(s.books.ranges[n + 1], s.books.cells[n + 1]);
  }

  /** A pipeline that is started twice: the list becomes a ring. */
  method StartedTwice() returns (s: ProfilerState)
    ensures exists ring :: Ring(s.pipelines, ring)
    ensures forall list :: !Linked(s.pipelines, list)
  {
    s := new ProfilerState();
    var _ := s.PipelineStart(Small(1), true, []);
    ghost var was := [s.nodes[0]];
    assert [s.nodes[0]] + [] == was;
    assert was[0] in Nodes(was) && Small(1).Key() in Keys(Nodes(was));
    var _ := s.PipelineStart(Small(1), true, was);
    ghost var i :| 0 <= i < |was| && Ring(s.pipelines, [was[i]] + was[..i]);
    forall list ensures !Linked(s.pipelines, list) {
      RingNeverEnds(s.pipelines, [was[i]] + was[..i], list);
    }
  }
}
