/**
 The runs of an instrumented pipeline, whatever its loops and branches do and however parallel iterations
 interleave, and the count of active threads along them.
 */
module ProfiledRuns {
  import opened Collections
  import opened ProfiledStmt
  import opened PapiProfiling
  import opened ProfiledOutput

  // ----- Processes -----

  /**
   A call of the runtime, work of the pipeline itself, or the beginning or end of a produce or consume step;
   `remote` tells which of the two states a call acts on, and where the rest happens.
   */
  datatype Event =
    | Event(probe: Probe, remote: bool)
    | Work(remote: bool)
    | Begin(name: string, isProducer: bool, remote: bool)
    | End(name: string, isProducer: bool, remote: bool)

  /** What is left to do: the sides of `Both` run in parallel. */
  datatype Proc = Done | Emit(event: Event) | Then(first: Proc, rest: Proc) | Both(left: Proc, right: Proc)

  /**
   The processes that a statement may stand for: every branch and every number of iterations is open, anew
   each time the statement is reached.  Each iteration of a parallel loop is a task of its own.  What a loop does on
   another device is one piece of work.
   */
  ghost predicate Unfolds(s: Stmt, p: Proc, remote: bool)
    decreases s, 0, p
  {
    match s
    case Leaf(_) => p == Emit(Work(remote))
    case Call(c) => p == Emit(Event(c, remote))
    case Block(a, b) => p.Then? && Unfolds(a, p.first, remote) && Unfolds(b, p.rest, remote)
    case Scope(_, b) => Unfolds(b, p, remote)
    case If(_, a, b) => Unfolds(a, p, remote) || Unfolds(b, p, remote)
    case ProducerConsumer(n, isProducer, b) =>
      && p.Then? && p.rest.Then? && Unfolds(b, p.rest.first, remote)
      && p.first == Emit(Begin(n, isProducer, remote)) && p.rest.rest == Emit(End(n, isProducer, remote))
    case For(_, parallel, d, b) => if d == Offload then p == Emit(Work(remote)) else Iterates(parallel, b, p, remote)
    case RemoteState(b) => Unfolds(b, p, true)
  }

  /** Any number of iterations, the last one outermost. */
  ghost predicate Iterates(parallel: bool, body: Stmt, p: Proc, remote: bool)
    decreases body, 1, p
  {
    match p
    case Done => true
    case Then(earlier, last) => !parallel && Iterates(parallel, body, earlier, remote) && Unfolds(body, last, remote)
    case Both(earlier, last) => parallel && Iterates(parallel, body, earlier, remote) && Unfolds(body, last, remote)
    case Emit(_) => false
  }

  /** The process of a loop whose iterations are the given processes. */
  function Joined(parallel: bool, iterations: seq<Proc>): Proc {
    if iterations == [] then Done
    else
      var earlier, last := Joined(parallel, iterations[..|iterations| - 1]), iterations[|iterations| - 1];
      if parallel then Both(earlier, last) else Then(earlier, last)
  }

  /** A loop may run any number of iterations, each of which makes choices of its own; also inside a branch. */
  lemma {:induction false} ChoicesAreFree(name: string, parallel: bool, device: Device, body: Stmt,
                                          iterations: seq<Proc>, remote: bool)
    requires device != Offload && forall i :: 0 <= i < |iterations| ==> Unfolds(body, iterations[i], remote)
    ensures var loop, p := For(name, parallel, device, body), Joined(parallel, iterations);
            && Unfolds(loop, p, remote)
            && forall c, s :: Unfolds(If(c, loop, s), p, remote) && Unfolds(If(c, s, loop), p, remote)
  {
    if iterations != [] {
      ChoicesAreFree(name, parallel, device, body, iterations[..|iterations| - 1], remote);
    }
  }

  // ----- Runs -----

  datatype Side = First | Rest | Left | Right

  /** A task is named by the way to its place in the process; `[]` is the task that runs the pipeline itself. */
  type Task = seq<Side>

  predicate Finished(p: Proc) {
    match p
    case Done => true
    case Emit(_) => false
    case Then(a, b) => Finished(a) && Finished(b)
    case Both(a, b) => Finished(a) && Finished(b)
  }

  /** One event of one task happens; parallel sides interleave freely. */
  ghost predicate Step(p: Proc, e: Event, task: Task, p': Proc)
    decreases p, 0
  {
    match p
    case Done => false
    case Emit(x) => e == x && task == [] && p' == Done
    case Then(a, b) =>
      && p'.Then?
      && (|| (p'.rest == b && StepWithin(a, e, First, task, p'.first))
          || (Finished(a) && p'.first == a && StepWithin(b, e, Rest, task, p'.rest)))
    case Both(a, b) =>
      && p'.Both? && task != []
      && (|| (p'.right == b && task[0] == Left && Step(a, e, task[1..], p'.left))
          || (p'.left == a && task[0] == Right && Step(b, e, task[1..], p'.right)))
  }

  /** A step of the part of a process that lies on the given side and does not start a new task. */
  ghost predicate StepWithin(p: Proc, e: Event, side: Side, task: Task, p': Proc)
    decreases p, 1
  {
    || (task == [] && Step(p, e, [], p'))
    || (|task| > 1 && task[0] == side && Step(p, e, task[1..], p'))
  }

  datatype Happening = Happening(event: Event, task: Task)

  /** A run, complete or not: the processes it passes through and what happens between them. */
  ghost predicate Run(ps: seq<Proc>, steps: seq<Happening>) {
    && |ps| == |steps| + 1
    && forall i :: 0 <= i < |steps| ==> Step(ps[i], steps[i].event, steps[i].task, ps[i + 1])
  }

  // ----- Active threads -----

  /** What an event adds to the count of active threads of one state. */
  function Weight(e: Event, remote: bool): int {
    if !e.Event? || e.remote != remote then 0 else if e.probe.Incr? then 1 else if e.probe.Decr? then -1 else 0
  }

  function Sum(steps: seq<Happening>, remote: bool): int {
    if steps == [] then 0 else Sum(steps[..|steps| - 1], remote) + Weight(steps[|steps| - 1].event, remote)
  }

  /** What a process adds in all. */
  function Total(p: Proc, remote: bool): int {
    match p
    case Done => 0
    case Emit(e) => Weight(e, remote)
    case Then(a, b) => Total(a, remote) + Total(b, remote)
    case Both(a, b) => Total(a, remote) + Total(b, remote)
  }

  function Min(a: int, b: int): int {
    if a < b then a else b
  }

  /** The lowest that the count can get while a process runs, over all interleavings. */
  function Low(p: Proc, remote: bool): (r: int)
    ensures r <= 0 && r <= Total(p, remote)
  {
    match p
    case Done => 0
    case Emit(e) => Min(0, Weight(e, remote))
    case Then(a, b) => Min(Low(a, remote), Total(a, remote) + Low(b, remote))
    case Both(a, b) => Low(a, remote) + Low(b, remote)
  }

  lemma {:induction false} FinishedAddsNothing(p: Proc, remote: bool)
    requires Finished(p)
    ensures Total(p, remote) == 0 && Low(p, remote) == 0
  {
    match p
    case Done =>
    case Then(a, b) => FinishedAddsNothing(a, remote); FinishedAddsNothing(b, remote);
    case Both(a, b) => FinishedAddsNothing(a, remote); FinishedAddsNothing(b, remote);
  }

  lemma {:induction false} StepAccounts(p: Proc, e: Event, task: Task, p': Proc, remote: bool)
    requires Step(p, e, task, p')
    ensures Total(p, remote) == Weight(e, remote) + Total(p', remote)
    ensures Low(p, remote) <= Weight(e, remote) + Low(p', remote)
  {
    var inner := if task == [] then [] else task[1..];
    match p
    case Emit(_) =>
    case Then(a, b) =>
      if p'.rest == b && StepWithin(a, e, First, task, p'.first) {
        StepAccounts(a, e, inner, p'.first, remote);
      } else {
        FinishedAddsNothing(a, remote);
        StepAccounts(b, e, inner, p'.rest, remote);
      }
    case Both(a, b) =>
      if p'.right == b && task[0] == Left && Step(a, e, task[1..], p'.left) {
        StepAccounts(a, e, inner, p'.left, remote);
      } else {
        StepAccounts(b, e, inner, p'.right, remote);
      }
  }

  lemma {:induction false} RunAccounts(ps: seq<Proc>, steps: seq<Happening>, remote: bool)
    requires Run(ps, steps)
    ensures Total(ps[0], remote) == Sum(steps, remote) + Total(ps[|steps|], remote)
    ensures Low(ps[0], remote) <= Sum(steps, remote) + Low(ps[|steps|], remote)
  {
    if steps != [] {
      var n := |steps| - 1;
      RunAccounts(ps[..n + 1], steps[..n], remote);
      StepAccounts(ps[n], steps[n].event, steps[n].task, ps[n + 1], remote);
    }
  }

  /**
   In every run of an instrumented pipeline, interleaved in any way and stopped anywhere, neither state has
   counted fewer threads than it started with, and a finished run leaves both counts as they were.
   */
  lemma ActiveThreadsStayRight(r: Requests, ids: map<string, int>, src: Stmt, out: Stmt,
                               ps: seq<Proc>, steps: seq<Happening>, remote: bool)
    requires Instrumented(r, ids, src, out) && Clean(src)
    requires Run(ps, steps) && Unfolds(out, ps[0], false)
    ensures Sum(steps, remote) >= 0
    ensures Finished(ps[|steps|]) ==> Sum(steps, remote) == 0
  {
    ProbedThreads(r, ids, OUTERMOST, [], src, out.rest.first, false, remote);
    RunAccounts(ps, steps, remote);
    GuardQuiet(out.rest.first, false, remote);
    if Finished(ps[|steps|]) {
      FinishedAddsNothing(ps[|steps|], remote);
    }
  }

  /** The statement adds nothing in all and takes away at most one thread of its own state on the way. */
  ghost predicate Settled(s: Stmt, own: bool, remote: bool) {
    forall p {:trigger Unfolds(s, p, own)} :: Unfolds(s, p, own) ==>
      Total(p, remote) == 0 && Low(p, remote) >= if own == remote then -1 else 0
  }

  /** It adds nothing and takes none away. */
  ghost predicate Quiet(s: Stmt, own: bool, remote: bool) {
    forall p {:trigger Unfolds(s, p, own)} :: Unfolds(s, p, own) ==> Total(p, remote) == 0 && Low(p, remote) == 0
  }

  predicate Weightless(p: Probe) {
    !p.Incr? && !p.Decr?
  }

  function Around(p: Probe, inner: Proc, q: Probe, own: bool): Proc {
    Then(Emit(Event(p, own)), Then(inner, Emit(Event(q, own))))
  }

  /** A statement between two probes runs between them. */
  lemma BetweenUnfolds(p: Probe, s: Stmt, q: Probe, own: bool, proc: Proc) returns (inner: Proc)
    requires Unfolds(Between(p, s, q), proc, own)
    ensures Unfolds(s, inner, own) && proc == Around(p, inner, q, own)
  {
    assert Unfolds(Call(p), proc.first, own) && Unfolds(Block(s, Call(q)), proc.rest, own);
    assert Unfolds(Call(q), proc.rest.rest, own);
    inner := proc.rest.first;
  }

  lemma AroundAccounts(p: Probe, inner: Proc, q: Probe, own: bool, remote: bool)
    ensures var w, v := Weight(Event(p, own), remote), Weight(Event(q, own), remote);
            && Total(Around(p, inner, q, own), remote) == w + Total(inner, remote) + v
            && Low(Around(p, inner, q, own), remote)
               == Min(Min(0, w), w + Min(Low(inner, remote), Total(inner, remote) + Min(0, v)))
  {
    var rest := Then(inner, Emit(Event(q, own)));
    var v := Weight(Event(q, own), remote);
    assert Total(rest, remote) == Total(inner, remote) + v;
    assert Low(rest, remote) == Min(Low(inner, remote), Total(inner, remote) + Min(0, v));
  }

  /** Guarded by an increment and a decrement, a settled statement is quiet. */
  lemma GuardQuiet(s: Stmt, own: bool, remote: bool)
    requires Settled(s, own, remote)
    ensures Quiet(Between(Incr, s, Decr), own, remote)
  {
    forall p | Unfolds(Between(Incr, s, Decr), p, own) ensures Total(p, remote) == 0 && Low(p, remote) == 0 {
      var inner := BetweenUnfolds(Incr, s, Decr, own, p);
      AroundAccounts(Incr, inner, Decr, own, remote);
    }
  }

  lemma BetweenSettled(p: Probe, s: Stmt, q: Probe, own: bool, remote: bool)
    requires Weightless(p) && Weightless(q)
    ensures Settled(s, own, remote) ==> Settled(Between(p, s, q), own, remote)
    ensures Quiet(s, own, remote) ==> Quiet(Between(p, s, q), own, remote)
  {
    forall proc | Unfolds(Between(p, s, q), proc, own)
      ensures exists inner ::
        Unfolds(s, inner, own) && Total(proc, remote) == Total(inner, remote) && Low(proc, remote) == Low(inner, remote)
    {
      var inner := BetweenUnfolds(p, s, q, own, proc);
      AroundAccounts(p, inner, q, own, remote);
    }
  }

  lemma {:induction false} CleanQuiet(s: Stmt, own: bool, remote: bool)
    requires Clean(s)
    ensures Quiet(s, own, remote)
  {
    match s
    case Leaf(_) =>
    case Block(a, b) =>
      CleanQuiet(a, own, remote);
      CleanQuiet(b, own, remote);
    case Scope(_, b) => CleanQuiet(b, own, remote);
    case If(_, a, b) =>
      CleanQuiet(a, own, remote);
      CleanQuiet(b, own, remote);
    case ProducerConsumer(n, p, b) =>
      CleanQuiet(b, own, remote);
      StepQuiet(n, p, b, own, remote);
    case For(n, p, d, b) =>
      CleanQuiet(b, own, remote);
      LoopQuiet(n, p, d, b, own, remote);
  }

  function StepProc(n: string, isProducer: bool, inner: Proc, own: bool): Proc {
    Then(Emit(Begin(n, isProducer, own)), Then(inner, Emit(End(n, isProducer, own))))
  }

  /** The beginning and the end of a step leave the count alone. */
  lemma StepAddsNothing(n: string, isProducer: bool, inner: Proc, own: bool, remote: bool)
    ensures Total(StepProc(n, isProducer, inner, own), remote) == Total(inner, remote)
    ensures Low(StepProc(n, isProducer, inner, own), remote) == Low(inner, remote)
  {
    var rest := Then(inner, Emit(End(n, isProducer, own)));
    assert Total(rest, remote) == Total(inner, remote) && Low(rest, remote) == Low(inner, remote);
  }

  lemma StepQuiet(n: string, isProducer: bool, b: Stmt, own: bool, remote: bool)
    ensures Quiet(b, own, remote) ==> Quiet(ProducerConsumer(n, isProducer, b), own, remote)
    ensures Settled(b, own, remote) ==> Settled(ProducerConsumer(n, isProducer, b), own, remote)
  {
    forall p | Unfolds(ProducerConsumer(n, isProducer, b), p, own)
      ensures exists inner ::
        Unfolds(b, inner, own) && Total(p, remote) == Total(inner, remote) && Low(p, remote) == Low(inner, remote)
    {
      assert p == StepProc(n, isProducer, p.rest.first, own);
      StepAddsNothing(n, isProducer, p.rest.first, own, remote);
    }
  }

  lemma LoopQuiet(n: string, p: bool, d: Device, b: Stmt, own: bool, remote: bool)
    requires Quiet(b, own, remote)
    ensures Quiet(For(n, p, d, b), own, remote)
  {
    forall proc | Unfolds(For(n, p, d, b), proc, own) ensures Total(proc, remote) == 0 && Low(proc, remote) == 0 {
      if d != Offload {
        IterationsQuiet(p, b, proc, own, remote);
      }
    }
  }

  lemma {:induction false} IterationsQuiet(p: bool, b: Stmt, proc: Proc, own: bool, remote: bool)
    requires Quiet(b, own, remote) && Iterates(p, b, proc, own)
    ensures Total(proc, remote) == 0 && Low(proc, remote) == 0
  {
    match proc
    case Done =>
    case Then(earlier, _) => IterationsQuiet(p, b, earlier, own, remote);
    case Both(earlier, _) => IterationsQuiet(p, b, earlier, own, remote);
  }

  lemma {:induction false} SerialIterationsSettled(b: Stmt, proc: Proc, own: bool, remote: bool)
    requires Settled(b, own, remote) && Iterates(false, b, proc, own)
    ensures Total(proc, remote) == 0 && Low(proc, remote) >= if own == remote then -1 else 0
  {
    if proc.Then? {
      SerialIterationsSettled(b, proc.first, own, remote);
    }
  }

  lemma SerialLoopSettled(n: string, d: Device, b: Stmt, own: bool, remote: bool)
    requires Settled(b, own, remote)
    ensures Settled(For(n, false, d, b), own, remote)
  {
    forall proc | Unfolds(For(n, false, d, b), proc, own)
      ensures Total(proc, remote) == 0 && Low(proc, remote) >= if own == remote then -1 else 0
    {
      if d != Offload {
        SerialIterationsSettled(b, proc, own, remote);
      }
    }
  }

  lemma TaskSettled(w: Wrapping, name: string, isProducer: bool, ctx: Context, own: bool, remote: bool)
    requires Settled(w.body, own, remote)
    ensures Settled(WrapTask(w, name, isProducer, ctx), own, remote)
  {
    var region := FuncRegion(w.funcId, isProducer);
    BetweenSettled(EnterOverhead(w.taskId), w.body, LeaveOverhead(w.taskId), own, remote);
    BetweenSettled(Enter(region), w.body, Leave(region), own, remote);
    var marked :=
      if !w.mark.profile then w.body
      else if w.overhead then Between(EnterOverhead(w.taskId), w.body, LeaveOverhead(w.taskId))
      else Between(Enter(region), w.body, Leave(region));
    assert Settled(marked, own, remote);
    var block := Block(Call(SetCurrent(w.taskId)), marked);
    var task := ProducerConsumer(name, isProducer, block);
    forall p | Unfolds(block, p, own)
      ensures Total(p, remote) == 0 && Low(p, remote) >= if own == remote then -1 else 0
    {
      assert Unfolds(Call(SetCurrent(w.taskId)), p.first, own) && Unfolds(marked, p.rest, own);
    }
    StepQuiet(name, isProducer, block, own, remote);
    BetweenSettled(LeaveOverhead(ctx.id), task, EnterOverhead(ctx.id), own, remote);
  }

  /** A loop that launches threads gives its own up and takes it back. */
  lemma WrapLoopSettled(loop: Stmt, id: Option<int>, countsThreads: bool, own: bool, remote: bool)
    requires if countsThreads then Quiet(loop, own, remote) else Settled(loop, own, remote)
    ensures Settled(WrapLoop(loop, id, countsThreads), own, remote)
  {
    var marked := loop;
    if id.Some? {
      marked := Between(Enter(LoopRegion(id.value)), loop, Leave(LoopRegion(id.value)));
      BetweenSettled(Enter(LoopRegion(id.value)), loop, Leave(LoopRegion(id.value)), own, remote);
    }
    if countsThreads {
      LaunchSettled(marked, own, remote);
    }
  }

  function Launch(marked: Stmt): Stmt {
    var tail := Block(Call(Leave(ParallelRegion)), Call(Incr));
    Block(Call(Decr), Block(Call(Enter(ParallelRegion)), Block(marked, tail)))
  }

  function LaunchProc(p: Proc, own: bool): Proc {
    var tail := Then(Emit(Event(Leave(ParallelRegion), own)), Emit(Event(Incr, own)));
    Then(Emit(Event(Decr, own)), Then(Emit(Event(Enter(ParallelRegion), own)), Then(p, tail)))
  }

  lemma LaunchUnfolds(marked: Stmt, own: bool, proc: Proc) returns (inner: Proc)
    requires Unfolds(Launch(marked), proc, own)
    ensures Unfolds(marked, inner, own) && proc == LaunchProc(inner, own)
  {
    var tail := Block(Call(Leave(ParallelRegion)), Call(Incr));
    assert Unfolds(Call(Decr), proc.first, own);
    assert Unfolds(Block(Call(Enter(ParallelRegion)), Block(marked, tail)), proc.rest, own);
    assert Unfolds(Call(Enter(ParallelRegion)), proc.rest.first, own);
    assert Unfolds(Block(marked, tail), proc.rest.rest, own);
    var end := proc.rest.rest.rest;
    assert Unfolds(tail, end, own);
    assert Unfolds(Call(Leave(ParallelRegion)), end.first, own) && Unfolds(Call(Incr), end.rest, own);
    inner := proc.rest.rest.first;
  }

  lemma LaunchSettled(marked: Stmt, own: bool, remote: bool)
    requires Quiet(marked, own, remote)
    ensures Settled(Launch(marked), own, remote)
  {
    forall p | Unfolds(Launch(marked), p, own)
      ensures Total(p, remote) == 0 && Low(p, remote) >= if own == remote then -1 else 0
    {
      var inner := LaunchUnfolds(marked, own, p);
      LaunchAccounts(inner, own, remote);
    }
  }

  lemma LaunchAccounts(p: Proc, own: bool, remote: bool)
    requires Total(p, remote) == 0 && Low(p, remote) == 0
    ensures Total(LaunchProc(p, own), remote) == 0
    ensures Low(LaunchProc(p, own), remote) >= if own == remote then -1 else 0
  {
    var end := Then(Emit(Event(Leave(ParallelRegion), own)), Emit(Event(Incr, own)));
    assert Total(end, remote) == Weight(Event(Incr, own), remote) && Low(end, remote) == 0;
    assert Total(Then(p, end), remote) == Total(end, remote) && Low(Then(p, end), remote) == 0;
    var rest := Then(Emit(Event(Enter(ParallelRegion), own)), Then(p, end));
    assert Total(rest, remote) == Total(end, remote) && Low(rest, remote) == 0;
  }

  lemma {:induction false} ProbedThreads(r: Requests, ids: map<string, int>, ctx: Context, before: seq<string>,
                                         src: Stmt, out: Stmt, own: bool, remote: bool)
    requires Probed(r, ids, ctx, before, src, out) && Clean(src)
    ensures Settled(out, own, remote)
    decreases src
  {
    match src
    case Leaf(_) =>
    case Block(a, b) =>
      ProbedThreads(r, ids, ctx, before, a, out.first, own, remote);
      ProbedThreads(r, ids, ctx, before + LoopNames(r.loops, a), b, out.rest, own, remote);
    case Scope(_, b) => ProbedThreads(r, ids, ctx, before, b, out.body, own, remote);
    case If(_, a, b) =>
      ProbedThreads(r, ids, ctx, before, a, out.thenCase, own, remote);
      ProbedThreads(r, ids, ctx, before + LoopNames(r.loops, a), b, out.elseCase, own, remote);
    case ProducerConsumer(n, p, b) =>
      var w := TaskWrapping(r, ids, ctx, before, n, p, b, out);
      ProbedThreads(r, ids, Inside(r, ids, ctx, n, p), before, b, w.body, own, remote);
      TaskSettled(w, n, p, ctx, own, remote);
    case For(n, p, d, b) =>
      if d == Offload {
        CleanQuiet(src, own, remote);
        WrapLoopSettled(src, LoopId(r.loops, before, n), p, own, remote);
      } else {
        var b' := LoopRewriting(r, ids, ctx, before, n, p, d, b, out);
        ProbedThreads(r, ids, ctx, before, b, b', if d == Hexagon then true else own, remote);
        RewrittenLoopSettled(n, p, d, b', own, remote);
        var id := LoopId(r.loops, before + LoopNames(r.loops, b), n);
        WrapLoopSettled(For(n, p, d, LoopBody(p, d, b')), id, CountsThreads(p, d), own, remote);
      }
  }

  lemma RewrittenLoopSettled(n: string, p: bool, d: Device, b: Stmt, own: bool, remote: bool)
    requires d != Offload && Settled(b, if d == Hexagon then true else own, remote)
    ensures var loop := For(n, p, d, LoopBody(p, d, b));
            if CountsThreads(p, d) then Quiet(loop, own, remote) else Settled(loop, own, remote)
  {
    if d == Hexagon {
      GuardQuiet(b, true, remote);
      RemoteQuiet(Between(Incr, b, Decr), own, remote);
      LoopQuiet(n, p, d, LoopBody(p, d, b), own, remote);
    } else if p {
      GuardQuiet(b, own, remote);
      LoopQuiet(n, p, d, LoopBody(p, d, b), own, remote);
    } else {
      SerialLoopSettled(n, d, b, own, remote);
    }
  }

  lemma RemoteQuiet(s: Stmt, own: bool, remote: bool)
    requires Quiet(s, true, remote)
    ensures Quiet(RemoteState(s), own, remote)
  {
    forall p | Unfolds(RemoteState(s), p, own) ensures Total(p, remote) == 0 && Low(p, remote) == 0 {
      assert Unfolds(s, p, true);
    }
  }
}
