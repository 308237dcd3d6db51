/**
 The profiler's books: the cells of every pipeline and what becomes of the time between two wake-ups of the
 sampling thread, under every schedule of the accesses in `PipelineList`.  The objects in `ProfilerRuntime` are
 proved to keep exactly these books.
 */
module BillingLedger {

  import opened Collections
  import opened Word64
  import L = PipelineList

  /** Time in nanoseconds, sum of active threads over samples, number of samples. */
  datatype Cell = Cell(time: int, threads: int, samples: int)

  const ZERO := Cell(0, 0, 0)

  function Plus(a: Cell, b: Cell): Cell {
    Cell(Wrap(a.time + b.time), Wrap(a.threads + b.threads), Wrap(a.samples + b.samples))
  }

  function Sample(time: int, threads: int): Cell {
    Cell(time, threads, 1)
  }

  function Total(cells: seq<Cell>): Cell {
    if cells == [] then ZERO else Plus(Total(cells[..|cells| - 1]), cells[|cells| - 1])
  }

  lemma PlusAgain(a: Cell, b: Cell, c: Cell)
    ensures Plus(Plus(a, b), c) == Plus(Plus(a, c), b)
    ensures Plus(a, Plus(b, c)) == Plus(Plus(a, b), c)
  {
    SumAgain(a.time, b.time, c.time);
    SumAgain(a.threads, b.threads, c.threads);
    SumAgain(a.samples, b.samples, c.samples);
  }

  lemma SumAgain(a: int, b: int, c: int)
    ensures Wrap(Wrap(a + b) + c) == Wrap(Wrap(a + c) + b)
    ensures Wrap(a + Wrap(b + c)) == Wrap(Wrap(a + b) + c)
  {
    WrapOnce(a + b, c);
    WrapOnce(a + c, b);
    WrapOnce(b + c, a);
  }

  /** Billing one cell adds the sample to the total. */
  lemma {:induction false} TotalOfBilled(cells: seq<Cell>, k: nat, s: Cell)
    requires k < |cells|
    ensures Total(cells[k := Plus(cells[k], s)]) == Plus(Total(cells), s)
  {
    var n := |cells| - 1;
    var billed := cells[k := Plus(cells[k], s)];
    if k == n {
      assert billed[..n] == cells[..n];
      PlusAgain(Total(cells[..n]), cells[n], s);
    } else {
      assert billed[..n] == cells[..n][k := Plus(cells[k], s)];
      TotalOfBilled(cells[..n], k, s);
      PlusAgain(Total(cells[..n]), cells[n], s);
    }
  }

  function Zeros(n: nat): (r: seq<Cell>)
    ensures |r| == n && forall i :: 0 <= i < n ==> r[i] == ZERO
  {
    seq(n, _ => ZERO)
  }

  predicate Wrapped(c: Cell) {
    0 <= c.time < WIDTH && 0 <= c.threads < WIDTH && 0 <= c.samples < WIDTH
  }

  lemma {:induction false} ZerosTotal(n: nat)
    ensures Total(Zeros(n)) == ZERO
  {
    if n > 0 {
      assert Zeros(n)[..n - 1] == Zeros(n - 1);
      ZerosTotal(n - 1);
    }
  }

  lemma PlusZero(c: Cell)
    requires Wrapped(c)
    ensures Plus(c, ZERO) == c
  {
  }

  /** The total of the cells of all pipelines. */
  function TotalOfAll(all: seq<seq<Cell>>): Cell {
    if all == [] then ZERO else Plus(TotalOfAll(all[..|all| - 1]), Total(all[|all| - 1]))
  }

  lemma {:induction false} TotalOfAllBilled(all: seq<seq<Cell>>, n: nat, k: nat, s: Cell)
    requires n < |all| && k < |all[n]|
    ensures TotalOfAll(all[n := all[n][k := Plus(all[n][k], s)]]) == Plus(TotalOfAll(all), s)
  {
    var last := |all| - 1;
    var billed := all[n := all[n][k := Plus(all[n][k], s)]];
    if n == last {
      TotalOfBilled(all[n], k, s);
      assert billed[..last] == all[..last];
      PlusAgain(TotalOfAll(all[..last]), Total(all[last]), s);
    } else {
      assert billed[..last] == all[..last][n := billed[n]];
      TotalOfAllBilled(all[..last], n, k, s);
      PlusAgain(TotalOfAll(all[..last]), Total(all[last]), s);
    }
  }

  lemma TotalOfOneMore(all: seq<seq<Cell>>, n: nat)
    ensures TotalOfAll(all + [Zeros(n)]) == TotalOfAll(all)
  {
    var more := all + [Zeros(n)];
    assert more[..|more| - 1] == all;
    ZerosTotal(n);
    if all == [] {
      PlusZero(ZERO);
    } else {
      PlusZero(TotalOfAll(all));
    }
  }

  // ----- The books over a run -----

  /** What a pipeline passes to `halide_papi_pipeline_start`; names are addresses of constant strings. */
  datatype Pipeline = Pipeline(name: nat, funcNames: seq<nat>, numLoops: nat,
                               showProd: seq<bool>, showCons: seq<bool>) {
    predicate WellFormed() {
      |showProd| == |showCons| == |funcNames|
    }

    /** What the runtime recognizes a pipeline by. */
    function Key(): (nat, int) {
      (name, |funcNames|)
    }
  }

  /** The Func ids of a listed pipeline; the runtime recognizes it by its name and its number of Funcs. */
  datatype Range = Range(name: nat, num: int, first: int) {
    predicate Covers(id: int) {
      first <= id < first + num
    }

    predicate Apart(other: Range) {
      first + num <= other.first || other.first + other.num <= first
    }
  }

  /** Puts the element at `i` first. */
  function MoveToFront<T>(s: seq<T>, i: nat): (r: seq<T>)
    requires i < |s|
    ensures |r| == |s| && r[0] == s[i]
    ensures forall j :: 1 <= j <= i ==> r[j] == s[j - 1]
    ensures forall j :: i < j < |s| ==> r[j] == s[j]
  {
    [s[i]] + s[..i] + s[i + 1..]
  }

  /**
   What the threads do, one access at a time.  A start whose search of the list found nothing reads the head;
   later it makes its pipeline the head.  The sampling thread wakes and searches the list for the Func it
   observed, and if the pipeline is not the first, moves it to the front in three steps.
   */
  datatype Op =
    | ReadHead(pipeline: Pipeline, enoughMemory: bool)
    | Publish(start: nat)
    | Wake(func: int, activeThreads: int, now: int)
    | Detach
    | Attach
    | Front
    | Reset

  /** What the bill under way is for. */
  datatype Billing = Billing(func: int, sample: Cell)

  /**
   The list; of every pipeline its ids and its cells; the next free id; the bill under way while a pipeline is
   moved; what was in the cells that a reset threw away; what was not billed to any cell; and when the sampling
   thread last woke.
   */
  datatype Books = Books(list: L.List, ranges: seq<Range>, cells: seq<seq<Cell>>, free: int, billing: Billing,
                         dropped: Cell, unbilled: Cell, last: int)

  const NO_BOOKS := Books(L.EMPTY, [], [], 0, Billing(0, ZERO), ZERO, ZERO, 0)

  function Slice(b: Books, now: int): int {
    Wrap(now - b.last)
  }

  /** Where a search for an id comes to. */
  datatype Outcome = Nowhere | Endless | First(node: nat) | Later(prev: nat, node: nat)

  /** The search of `bill_func` over at most so many links; a longer one is in a ring and never ends. */
  function Search(next: seq<Option<nat>>, ranges: seq<Range>, prev: Option<nat>, at: Option<nat>, id: int,
                  links: nat): Outcome
    decreases links
  {
    if at.None? || at.value >= |next| || at.value >= |ranges| then Nowhere
    else if ranges[at.value].Covers(id) then if prev.None? then First(at.value) else Later(prev.value, at.value)
    else if links == 0 then Endless
    else Search(next, ranges, at, next[at.value], id, links - 1)
  }

  function Looked(b: Books, id: int): Outcome {
    Search(b.list.next, b.ranges, None, b.list.head, id, |b.list.next|)
  }

  /** Bills a Func of the pipeline `n`. */
  function Deposit(b: Books, n: nat, id: int, s: Cell): Books {
    if n < |b.cells| && n < |b.ranges| && 0 <= id - b.ranges[n].first < |b.cells[n]| then
      var k := id - b.ranges[n].first;
      b.(cells := b.cells[n := b.cells[n][k := Plus(b.cells[n][k], s)]])
    else b.(unbilled := Plus(b.unbilled, s))
  }

  function AfterWake(b: Books, func: int, s: Cell, now: int): Books {
    match if func < 0 then Nowhere else Looked(b, func)
    case Nowhere => b.(unbilled := Plus(b.unbilled, s), last := now)
    case Endless => b
    case First(n) => Deposit(b.(last := now), n, func, s)
    case Later(prev, n) => b.(list := L.Step(b.list, L.Find(prev, n)), billing := Billing(func, s), last := now)
  }

  function After(b: Books, op: Op): Books {
    match op
    case ReadHead(p, enough) =>
      if !enough then b
      else
        b.(list := L.Step(b.list, L.ReadHead),
           ranges := b.ranges + [Range(p.name, |p.funcNames|, b.free)],
           cells := b.cells + [Zeros(|p.funcNames|)])
    case Publish(n) =>
      b.(list := L.Step(b.list, L.Publish(n)), free := b.free + if n < |b.ranges| then b.ranges[n].num else 0)
    case Wake(f, threads, now) =>
      if b.list.move.Idle? then AfterWake(b, f, Sample(Slice(b, now), threads), now) else b
    case Detach => b.(list := L.Step(b.list, L.Detach))
    case Attach => b.(list := L.Step(b.list, L.Attach))
    case Front =>
      if b.list.move.Attached? then
        Deposit(b.(list := L.Step(b.list, L.Front)), b.list.move.node, b.billing.func, b.billing.sample)
      else b
    case Reset =>
      if b.list.move.Idle? then
        b.(list := L.EMPTY, ranges := [], cells := [], free := 0, dropped := Plus(b.dropped, TotalOfAll(b.cells)))
      else b
  }

  const PLEASE_STOP := -2

  /** The sampling thread wakes to the request to stop. */
  predicate Stops(op: Op) {
    op.Wake? && op.func == PLEASE_STOP
  }

  /** The books after the turns before the sampling thread is asked to stop. */
  function Play(b: Books, ops: seq<Op>): Books
    decreases ops
  {
    if ops == [] || Stops(ops[0]) then b else Play(After(b, ops[0]), ops[1..])
  }

  /**
   What may come next: any number of starts overlap, each step of a move follows the one before, the search of
   a bill comes to an end, and a reset comes when nothing is under way and the list ends.
   */
  ghost predicate Allowed(b: Books, op: Op) {
    match op
    case ReadHead(p, _) => p.WellFormed()
    case Publish(n) => n in b.list.starting
    case Wake(f, _, _) => b.list.move.Idle? && (f < 0 || Looked(b, f) != Endless)
    case Detach => b.list.move.Behind?
    case Attach => b.list.move.Detached?
    case Front => b.list.move.Attached?
    case Reset => b.list.move.Idle? && b.list.starting == {} && exists l :: L.IsChain(b.list.next, b.list.head, l)
  }

  ghost predicate AllAllowed(b: Books, ops: seq<Op>)
    decreases ops
  {
    ops == [] || Stops(ops[0]) || (Allowed(b, ops[0]) && AllAllowed(After(b, ops[0]), ops[1..]))
  }

  // ----- Conservation -----

  datatype Kind = Time | Threads | Samples

  /** The amount of one kind in a cell. */
  function Of(k: Kind, c: Cell): int {
    match k
    case Time => c.time
    case Threads => c.threads
    case Samples => c.samples
  }

  lemma OfPlus(k: Kind, a: Cell, b: Cell)
    ensures Of(k, Plus(a, b)) == Wrap(Of(k, a) + Of(k, b))
  {
  }

  /** The bill under way. */
  function InFlight(b: Books): Cell {
    if b.list.move.Idle? then ZERO else b.billing.sample
  }

  /** What is in the books, before it is wrapped. */
  function Recorded(k: Kind, b: Books): int {
    Of(k, TotalOfAll(b.cells)) + Of(k, b.dropped) + Of(k, b.unbilled) + Of(k, InFlight(b))
  }

  /** All that there is in the books. */
  function Accounted(k: Kind, b: Books): int {
    Wrap(Recorded(k, b))
  }

  /** The sampling thread wakes when no bill is under way, and its search ends. */
  predicate Counts(b: Books, op: Op) {
    op.Wake? && b.list.move.Idle? && !(op.func >= 0 && Looked(b, op.func).Endless?)
  }

  /** What one step observes: the time since the last wake-up, the active threads, and one sample. */
  function Observed(k: Kind, b: Books, op: Op): int {
    if !Counts(b, op) then 0
    else
      match k
      case Time => op.now - b.last
      case Threads => op.activeThreads
      case Samples => 1
  }

  function AllObserved(k: Kind, b: Books, ops: seq<Op>): int
    decreases ops
  {
    if ops == [] || Stops(ops[0]) then 0 else Observed(k, b, ops[0]) + AllObserved(k, After(b, ops[0]), ops[1..])
  }

  /** A deposit goes to a cell or to what is not billed. */
  lemma DepositGoes(b: Books, n: nat, id: int, s: Cell)
    ensures var b' := Deposit(b, n, id, s);
            && b' == b.(cells := b'.cells, unbilled := b'.unbilled)
            && (|| (b'.unbilled == b.unbilled && TotalOfAll(b'.cells) == Plus(TotalOfAll(b.cells), s))
                || (b'.cells == b.cells && b'.unbilled == Plus(b.unbilled, s)))
  {
    if n < |b.cells| && n < |b.ranges| && 0 <= id - b.ranges[n].first < |b.cells[n]| {
      var k := id - b.ranges[n].first;
      TotalOfAllBilled(b.cells, n, k, s);
      assert Deposit(b, n, id, s).cells == b.cells[n := b.cells[n][k := Plus(b.cells[n][k], s)]];
    }
  }

  lemma DepositConserves(k: Kind, b: Books, n: nat, id: int, s: Cell)
    ensures var b' := Deposit(b, n, id, s);
            && b' == b.(cells := b'.cells, unbilled := b'.unbilled)
            && Accounted(k, b') == Wrap(Recorded(k, b) + Of(k, s))
  {
    DepositGoes(b, n, id, s);
    PlusRecorded(Of(k, TotalOfAll(b.cells)), Of(k, s), Recorded(k, b) - Of(k, TotalOfAll(b.cells)));
    PlusRecorded(Of(k, b.unbilled), Of(k, s), Recorded(k, b) - Of(k, b.unbilled));
    OfPlus(k, TotalOfAll(b.cells), s);
    OfPlus(k, b.unbilled, s);
  }

  lemma PlusRecorded(x: int, y: int, rest: int)
    ensures Wrap(Wrap(x + y) + rest) == Wrap(x + rest + y)
  {
    WrapOnce(x + y, rest);
  }

  /** A wake-up adds its sample to what is accounted for. */
  lemma WakeAdds(k: Kind, b: Books, f: int, s: Cell, now: int)
    requires b.list.move.Idle? && (f < 0 || !Looked(b, f).Endless?)
    ensures var b' := AfterWake(b, f, s, now);
            b'.last == now && Accounted(k, b') == Wrap(Recorded(k, b) + Of(k, s))
  {
    match if f < 0 then Nowhere else Looked(b, f)
    case Nowhere =>
      OfPlus(k, b.unbilled, s);
      PlusRecorded(Of(k, b.unbilled), Of(k, s), Recorded(k, b) - Of(k, b.unbilled));
    case First(n) => DepositConserves(k, b.(last := now), n, f, s);
    case Later(_, _) =>
  }

  lemma WakeConserves(k: Kind, b: Books, op: Op)
    requires Counts(b, op)
    ensures After(b, op).last == op.now
    ensures Accounted(k, After(b, op)) == Wrap(Accounted(k, b) + Observed(k, b, op))
  {
    var s := Sample(Slice(b, op.now), op.activeThreads);
    WakeAdds(k, b, op.func, s, op.now);
    if k.Time? {
      WrapOnce(op.now - b.last, Recorded(k, b));
    }
    WrapOnce(Recorded(k, b), Observed(k, b, op));
  }

  /** Moving the bill's sample into a cell changes nothing in all. */
  lemma FrontConserves(k: Kind, b: Books)
    requires b.list.move.Attached?
    ensures Accounted(k, After(b, Front)) == Accounted(k, b) && After(b, Front).last == b.last
  {
    var done := b.(list := L.Step(b.list, L.Front));
    DepositConserves(k, done, b.list.move.node, b.billing.func, b.billing.sample);
    assert Recorded(k, done) + Of(k, b.billing.sample) == Recorded(k, b);
  }

  lemma ReadHeadConserves(k: Kind, b: Books, p: Pipeline)
    ensures Accounted(k, After(b, ReadHead(p, true))) == Accounted(k, b) && After(b, ReadHead(p, true)).last == b.last
  {
    var b' := After(b, ReadHead(p, true));
    TotalOfOneMore(b.cells, |p.funcNames|);
    assert b'.cells == b.cells + [Zeros(|p.funcNames|)];
    assert Recorded(k, b') == Recorded(k, b);
  }

  lemma ResetConserves(k: Kind, b: Books)
    requires b.list.move.Idle?
    ensures Accounted(k, After(b, Reset)) == Accounted(k, b) && After(b, Reset).last == b.last
  {
    var all := Of(k, TotalOfAll(b.cells));
    OfPlus(k, b.dropped, TotalOfAll(b.cells));
    PlusRecorded(Of(k, b.dropped), all, Of(k, b.unbilled));
    assert Recorded(k, After(b, Reset)) == Wrap(Of(k, b.dropped) + all) + Of(k, b.unbilled);
    assert Recorded(k, b) == Of(k, b.dropped) + Of(k, b.unbilled) + all;
  }

  /** The books grow by what a step observes, and by nothing in any other step. */
  lemma StepConserves(k: Kind, b: Books, op: Op)
    ensures Accounted(k, After(b, op)) == Wrap(Accounted(k, b) + Observed(k, b, op))
    ensures After(b, op).last == if Counts(b, op) then op.now else b.last
  {
    match op
    case ReadHead(p, enough) =>
      if enough {
        ReadHeadConserves(k, b, p);
      }
    case Wake(_, _, _) =>
      if Counts(b, op) {
        WakeConserves(k, b, op);
      }
    case Front =>
      if b.list.move.Attached? {
        FrontConserves(k, b);
      }
    case Reset =>
      if b.list.move.Idle? {
        ResetConserves(k, b);
      }
    case _ =>
  }

  /**
   Whatever pipelines start, are lost and are reset, what is billed to Funcs, what was billed to Funcs since
   thrown away, what is not billed and the bill under way grow together by exactly what the wake-ups observed.
   */
  lemma {:induction false} AllIsConserved(k: Kind, b: Books, ops: seq<Op>)
    ensures Accounted(k, Play(b, ops)) == Wrap(Accounted(k, b) + AllObserved(k, b, ops))
    decreases ops
  {
    if ops != [] && !Stops(ops[0]) {
      StepConserves(k, b, ops[0]);
      AllIsConserved(k, After(b, ops[0]), ops[1..]);
      WrapOnce(Accounted(k, b) + Observed(k, b, ops[0]), AllObserved(k, After(b, ops[0]), ops[1..]));
    }
  }

  lemma {:induction false} TimeAddsUp(b: Books, ops: seq<Op>)
    ensures AllObserved(Time, b, ops) == Play(b, ops).last - b.last
    decreases ops
  {
    if ops != [] && !Stops(ops[0]) {
      StepConserves(Time, b, ops[0]);
      TimeAddsUp(After(b, ops[0]), ops[1..]);
    }
  }

  /** The time in the books grows by exactly the time between the first and the last wake-up. */
  lemma TimeIsConserved(b: Books, ops: seq<Op>)
    ensures Wrap(Accounted(Time, Play(b, ops)) - Accounted(Time, b)) == Wrap(Play(b, ops).last - b.last)
  {
    AllIsConserved(Time, b, ops);
    TimeAddsUp(b, ops);
    var a, d := Accounted(Time, b), Play(b, ops).last - b.last;
    WrapOnce(a + d, -a);
  }
}
