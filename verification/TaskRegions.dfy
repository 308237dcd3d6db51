/** The profiling regions that each task of a run enters and leaves. */
module TaskRegions {
  import opened Collections
  import opened ProfiledStmt
  import opened PapiProfiling
  import opened ProfiledOutput
  import opened ProfiledRuns

  // ----- Words of events -----

  /** Runs through the events with a stack of open regions; None if a region is left that is not the last entered. */
  function Follow(word: seq<Event>, open: seq<(Region, bool)>): Option<seq<(Region, bool)>> {
    if word == [] then Some(open)
    else
      match word[0]
      case Event(Enter(r), remote) => Follow(word[1..], open + [(r, remote)])
      case Event(Leave(r), remote) =>
        if open != [] && open[|open| - 1] == (r, remote) then Follow(word[1..], open[..|open| - 1]) else None
      case _ => Follow(word[1..], open)
  }

  /** Enters of the overhead of `id` less leaves. */
  function Overhead(word: seq<Event>, id: int, remote: bool): int {
    if word == [] then 0
    else
      (if word[0] == Event(EnterOverhead(id), remote) then 1
       else if word[0] == Event(LeaveOverhead(id), remote) then -1
       else 0) + Overhead(word[1..], id, remote)
  }

  ghost predicate NestsIn(word: seq<Event>, open: seq<(Region, bool)>) {
    Follow(word, open) == Some(open)
  }

  ghost predicate OverheadCancels(word: seq<Event>, id: int, remote: bool) {
    Overhead(word, id, remote) == 0
  }

  /** Func, loop and parallel regions nest, each left as often as entered, and overhead regions cancel by id. */
  ghost predicate Tidy(word: seq<Event>) {
    && (forall open {:trigger NestsIn(word, open)} :: NestsIn(word, open))
    && (forall id, remote {:trigger OverheadCancels(word, id, remote)} :: OverheadCancels(word, id, remote))
  }

  lemma {:induction false} FollowConcat(a: seq<Event>, b: seq<Event>, open: seq<(Region, bool)>)
    ensures Follow(a + b, open) == match Follow(a, open) case None => None case Some(t) => Follow(b, t)
    decreases a
  {
    if a == [] {
      assert a + b == b;
    } else {
      assert (a + b)[0] == a[0] && (a + b)[1..] == a[1..] + b;
      match a[0]
      case Event(Enter(r), remote) => FollowConcat(a[1..], b, open + [(r, remote)]);
      case Event(Leave(r), remote) =>
        if open != [] && open[|open| - 1] == (r, remote) {
          FollowConcat(a[1..], b, open[..|open| - 1]);
        }
      case _ => FollowConcat(a[1..], b, open);
    }
  }

  lemma {:induction false} OverheadConcat(a: seq<Event>, b: seq<Event>, id: int, remote: bool)
    ensures Overhead(a + b, id, remote) == Overhead(a, id, remote) + Overhead(b, id, remote)
  {
    if a == [] {
      assert a + b == b;
    } else {
      assert (a + b)[0] == a[0] && (a + b)[1..] == a[1..] + b;
      OverheadConcat(a[1..], b, id, remote);
    }
  }

  lemma TidyConcat(a: seq<Event>, b: seq<Event>)
    requires Tidy(a) && Tidy(b)
    ensures Tidy(a + b)
  {
    forall open ensures NestsIn(a + b, open) {
      FollowConcat(a, b, open);
      assert NestsIn(a, open) && NestsIn(b, open);
    }
    forall id, remote ensures OverheadCancels(a + b, id, remote) {
      OverheadConcat(a, b, id, remote);
      assert OverheadCancels(a, id, remote) && OverheadCancels(b, id, remote);
    }
  }

  /** A probe that opens something and the probe that closes it, or a plain one. */
  predicate Pair(p: Probe, q: Probe) {
    match p
    case Enter(r) => q == Leave(r)
    case EnterOverhead(i) => q == LeaveOverhead(i)
    case LeaveOverhead(i) => q == EnterOverhead(i)
    case Leave(_) => false
    case _ => q.Incr? || q.Decr? || q.SetCurrent?
  }

  lemma TidyAround(p: Probe, word: seq<Event>, q: Probe, own: bool)
    requires Tidy(word) && Pair(p, q)
    ensures Tidy([Event(p, own)] + (word + [Event(q, own)]))
  {
    var e, f := Event(p, own), Event(q, own);
    var around := [e] + (word + [f]);
    forall open ensures NestsIn(around, open) {
      FollowConcat([e], word + [f], open);
      var inner := if p.Enter? then open + [(p.region, own)] else open;
      assert Follow([e], open) == Some(inner);
      FollowConcat(word, [f], inner);
      assert NestsIn(word, inner);
      assert p.Enter? ==> inner[..|inner| - 1] == open;
    }
    forall id, remote ensures OverheadCancels(around, id, remote) {
      OverheadConcat([e], word + [f], id, remote);
      OverheadConcat(word, [f], id, remote);
      assert OverheadCancels(word, id, remote);
    }
  }

  // ----- The word of each task -----

  /** The events of one task; the tasks it launches have their own. */
  function Word(p: Proc): seq<Event> {
    match p
    case Done => []
    case Emit(e) => [e]
    case Then(a, b) => Word(a) + Word(b)
    case Both(_, _) => []
  }

  /** All tasks of a process are tidy, its own and those it launches. */
  ghost predicate AllTidy(p: Proc) {
    Tidy(Word(p)) && LaunchedTidy(p)
  }

  ghost predicate LaunchedTidy(p: Proc) {
    match p
    case Done => true
    case Emit(_) => true
    case Then(a, b) => LaunchedTidy(a) && LaunchedTidy(b)
    case Both(a, b) => Tidy(Word(a)) && Tidy(Word(b)) && LaunchedTidy(a) && LaunchedTidy(b)
  }

  /** The events that are left to the task of the given name. */
  function WordOf(p: Proc, task: Task): seq<Event> {
    if task == [] then Word(p)
    else
      match p
      case Done => []
      case Emit(_) => []
      case Then(a, b) =>
        if task[0] == First then WordOf(a, task[1..]) else if task[0] == Rest then WordOf(b, task[1..]) else []
      case Both(a, b) =>
        if task[0] == Left then WordOf(a, task[1..]) else if task[0] == Right then WordOf(b, task[1..]) else []
  }

  /** Other tasks than the pipeline's own start as sides of a `Both`. */
  predicate IsTask(task: Task) {
    task == [] || task[|task| - 1] == Left || task[|task| - 1] == Right
  }

  /** What happens in one task, in order. */
  function Events(steps: seq<Happening>, task: Task): seq<Event> {
    if steps == [] then []
    else
      var last := steps[|steps| - 1];
      Events(steps[..|steps| - 1], task) + if last.task == task then [last.event] else []
  }

  lemma {:induction false} FinishedHasNoWord(p: Proc, task: Task)
    requires Finished(p)
    ensures WordOf(p, task) == []
  {
    match p
    case Done =>
    case Then(a, b) =>
      FinishedHasNoWord(a, if task == [] then [] else task[1..]);
      FinishedHasNoWord(b, if task == [] then [] else task[1..]);
    case Both(a, b) =>
      if task != [] {
        FinishedHasNoWord(a, task[1..]);
        FinishedHasNoWord(b, task[1..]);
      }
  }

  /** A step takes the first event of the word of its task and leaves the words of other tasks alone. */
  lemma {:induction false} StepProjects(p: Proc, e: Event, at: Task, p': Proc, task: Task)
    requires Step(p, e, at, p') && IsTask(task)
    ensures IsTask(at)
    ensures WordOf(p, task) == (if at == task then [e] else []) + WordOf(p', task)
  {
    var inner, below := if at == [] then [] else at[1..], if task == [] then [] else task[1..];
    assert at != [] && task != [] && at[0] == task[0] ==> (at == task <==> inner == below) by {
      if at != [] && task != [] {
        assert at == [at[0]] + inner && task == [task[0]] + below;
      }
    }
    match p
    case Emit(_) =>
    case Then(a, b) =>
      if p'.rest == b && StepWithin(a, e, First, at, p'.first) {
        StepProjects(a, e, inner, p'.first, below);
      } else {
        FinishedHasNoWord(a, []);
        StepProjects(b, e, inner, p'.rest, below);
      }
    case Both(a, b) =>
      if p'.right == b && at[0] == Left && Step(a, e, at[1..], p'.left) {
        StepProjects(a, e, inner, p'.left, below);
      } else {
        StepProjects(b, e, inner, p'.right, below);
      }
  }

  /** In a run, what has happened in a task and what is left to it make up its word. */
  lemma {:induction false} RunProjects(ps: seq<Proc>, steps: seq<Happening>, task: Task)
    requires Run(ps, steps) && IsTask(task)
    ensures Events(steps, task) + WordOf(ps[|steps|], task) == WordOf(ps[0], task)
  {
    if steps != [] {
      var n := |steps| - 1;
      RunProjects(ps[..n + 1], steps[..n], task);
      StepProjects(ps[n], steps[n].event, steps[n].task, ps[n + 1], task);
    }
  }

  lemma {:induction false} NothingElsewhere(ps: seq<Proc>, steps: seq<Happening>, task: Task)
    requires Run(ps, steps) && !IsTask(task)
    ensures Events(steps, task) == []
  {
    if steps != [] {
      var n := |steps| - 1;
      NothingElsewhere(ps[..n + 1], steps[..n], task);
      StepProjects(ps[n], steps[n].event, steps[n].task, ps[n + 1], []);
    }
  }

  /** Work and the limits of steps neither enter nor leave a region. */
  lemma OtherEventsTidy(e: Event)
    requires !e.Event?
    ensures AllTidy(Emit(e))
  {
    var word := [e];
    assert Word(Emit(e)) == word;
    forall open ensures NestsIn(word, open) {
    }
    forall id, remote ensures OverheadCancels(word, id, remote) {
      assert word[1..] == [];
    }
  }

  lemma StepTidy(n: string, isProducer: bool, b: Stmt, own: bool)
    requires TidyEverywhere(b, own)
    ensures TidyEverywhere(ProducerConsumer(n, isProducer, b), own)
  {
    forall p | Unfolds(ProducerConsumer(n, isProducer, b), p, own) ensures AllTidy(p) {
      OtherEventsTidy(Begin(n, isProducer, own));
      OtherEventsTidy(End(n, isProducer, own));
      assert Unfolds(b, p.rest.first, own);
      ThenTidy(p.rest.first, p.rest.rest);
      ThenTidy(p.first, p.rest);
    }
  }

  lemma WorkTidy(s: Stmt, own: bool)
    requires s.Leaf? || (s.For? && s.device == Offload)
    ensures TidyEverywhere(s, own)
  {
    OtherEventsTidy(Work(own));
  }

  lemma NothingIsTidy()
    ensures Tidy([])
  {
    forall open: seq<(Region, bool)> ensures NestsIn([], open) {
    }
  }

  lemma {:induction false} WordsAreTidy(p: Proc, task: Task)
    requires AllTidy(p) && IsTask(task)
    ensures Tidy(WordOf(p, task))
  {
    NothingIsTidy();
    if task != [] {
      match p
      case Done =>
      case Emit(_) =>
      case Then(a, b) =>
        if task[0] == First {
          LaunchedWordsAreTidy(a, task[1..]);
        } else if task[0] == Rest {
          LaunchedWordsAreTidy(b, task[1..]);
        }
      case Both(a, b) =>
        if task[0] == Left {
          WordsAreTidy(a, task[1..]);
        } else if task[0] == Right {
          WordsAreTidy(b, task[1..]);
        }
    }
  }

  lemma {:induction false} LaunchedWordsAreTidy(p: Proc, task: Task)
    requires LaunchedTidy(p) && IsTask(task) && task != []
    ensures Tidy(WordOf(p, task))
  {
    NothingIsTidy();
    match p
    case Done =>
    case Emit(_) =>
    case Then(a, b) =>
      if task[0] == First {
        LaunchedWordsAreTidy(a, task[1..]);
      } else if task[0] == Rest {
        LaunchedWordsAreTidy(b, task[1..]);
      }
    case Both(a, b) =>
      if task[0] == Left {
        WordsAreTidy(a, task[1..]);
      } else if task[0] == Right {
        WordsAreTidy(b, task[1..]);
      }
  }

  /** What a task may have done when a run is stopped. */
  ghost predicate TidyStart(word: seq<Event>) {
    exists rest :: Tidy(word + rest)
  }

  // ----- What the pass emits -----

  /**
   In every run of an instrumented pipeline, interleaved in any way and stopped anywhere, each task has done
   the start of a tidy word, and in a finished run a tidy word.
   */
  lemma RegionsNest(r: Requests, ids: map<string, int>, src: Stmt, out: Stmt,
                    ps: seq<Proc>, steps: seq<Happening>, task: Task)
    requires Instrumented(r, ids, src, out) && Clean(src)
    requires Run(ps, steps) && Unfolds(out, ps[0], false)
    ensures TidyStart(Events(steps, task))
    ensures Finished(ps[|steps|]) ==> Tidy(Events(steps, task))
  {
    ProbedTidy(r, ids, OUTERMOST, [], src, out.rest.first, false);
    BetweenTidy(Incr, out.rest.first, Decr, false);
    if IsTask(task) {
      RunProjects(ps, steps, task);
      WordsAreTidy(ps[0], task);
      if Finished(ps[|steps|]) {
        FinishedHasNoWord(ps[|steps|], task);
        assert Events(steps, task) + [] == Events(steps, task);
      }
    } else {
      NothingElsewhere(ps, steps, task);
      NothingIsTidy();
      assert Tidy([] + []);
    }
  }

  ghost predicate TidyEverywhere(s: Stmt, own: bool) {
    forall p {:trigger Unfolds(s, p, own)} :: Unfolds(s, p, own) ==> AllTidy(p)
  }

  lemma BetweenTidy(p: Probe, s: Stmt, q: Probe, own: bool)
    requires Pair(p, q) && TidyEverywhere(s, own)
    ensures TidyEverywhere(Between(p, s, q), own)
  {
    forall proc | Unfolds(Between(p, s, q), proc, own) ensures AllTidy(proc) {
      var inner := BetweenUnfolds(p, s, q, own, proc);
      AroundTidy(p, inner, q, own);
    }
  }

  lemma AroundTidy(p: Probe, inner: Proc, q: Probe, own: bool)
    requires Pair(p, q) && AllTidy(inner)
    ensures AllTidy(Around(p, inner, q, own))
  {
    TidyAround(p, Word(inner), q, own);
    var rest := Then(inner, Emit(Event(q, own)));
    assert Word(rest) == Word(inner) + [Event(q, own)] && LaunchedTidy(rest);
  }

  lemma ThenTidy(a: Proc, b: Proc)
    requires AllTidy(a) && AllTidy(b)
    ensures AllTidy(Then(a, b))
  {
    TidyConcat(Word(a), Word(b));
  }

  lemma {:induction false} IterationsTidy(p: bool, b: Stmt, proc: Proc, own: bool)
    requires TidyEverywhere(b, own) && Iterates(p, b, proc, own)
    ensures AllTidy(proc)
  {
    NothingIsTidy();
    match proc
    case Done =>
    case Then(earlier, last) =>
      IterationsTidy(p, b, earlier, own);
      ThenTidy(earlier, last);
    case Both(earlier, last) => IterationsTidy(p, b, earlier, own);
  }

  lemma LoopTidy(n: string, p: bool, d: Device, b: Stmt, own: bool)
    requires TidyEverywhere(b, own)
    ensures TidyEverywhere(For(n, p, d, b), own)
  {
    forall proc | Unfolds(For(n, p, d, b), proc, own) ensures AllTidy(proc) {
      if d == Offload {
        OtherEventsTidy(Work(own));
      } else {
        IterationsTidy(p, b, proc, own);
      }
    }
  }

  lemma BlockTidy(a: Stmt, b: Stmt, own: bool)
    requires TidyEverywhere(a, own) && TidyEverywhere(b, own)
    ensures TidyEverywhere(Block(a, b), own)
  {
    forall proc | Unfolds(Block(a, b), proc, own) ensures AllTidy(proc) {
      assert Unfolds(a, proc.first, own) && Unfolds(b, proc.rest, own);
      ThenTidy(proc.first, proc.rest);
    }
  }

  lemma PlainCallTidy(p: Probe, own: bool)
    requires p.Incr? || p.Decr? || p.SetCurrent?
    ensures TidyEverywhere(Call(p), own)
  {
    var word := [Event(p, own)];
    forall open ensures NestsIn(word, open) {
    }
    forall id, remote ensures OverheadCancels(word, id, remote) {
      assert word[1..] == [];
    }
  }

  lemma {:induction false} CleanTidy(s: Stmt, own: bool)
    requires Clean(s)
    ensures TidyEverywhere(s, own)
  {
    match s
    case Leaf(_) => WorkTidy(s, own);
    case Block(a, b) =>
      CleanTidy(a, own);
      CleanTidy(b, own);
      BlockTidy(a, b, own);
    case Scope(_, b) => CleanTidy(b, own);
    case If(_, a, b) =>
      CleanTidy(a, own);
      CleanTidy(b, own);
    case ProducerConsumer(n, p, b) =>
      CleanTidy(b, own);
      StepTidy(n, p, b, own);
    case For(n, p, d, b) =>
      CleanTidy(b, own);
      LoopTidy(n, p, d, b, own);
  }

  lemma TaskTidy(w: Wrapping, name: string, isProducer: bool, ctx: Context, own: bool)
    requires TidyEverywhere(w.body, own)
    ensures TidyEverywhere(WrapTask(w, name, isProducer, ctx), own)
  {
    var region := FuncRegion(w.funcId, isProducer);
    BetweenTidy(EnterOverhead(w.taskId), w.body, LeaveOverhead(w.taskId), own);
    BetweenTidy(Enter(region), w.body, Leave(region), own);
    var marked :=
      if !w.mark.profile then w.body
      else if w.overhead then Between(EnterOverhead(w.taskId), w.body, LeaveOverhead(w.taskId))
      else Between(Enter(region), w.body, Leave(region));
    assert TidyEverywhere(marked, own);
    PlainCallTidy(SetCurrent(w.taskId), own);
    var block := Block(Call(SetCurrent(w.taskId)), marked);
    BlockTidy(Call(SetCurrent(w.taskId)), marked, own);
    var task := ProducerConsumer(name, isProducer, block);
    StepTidy(name, isProducer, block, own);
    BetweenTidy(LeaveOverhead(ctx.id), task, EnterOverhead(ctx.id), own);
  }

  lemma WrapLoopTidy(loop: Stmt, id: Option<int>, countsThreads: bool, own: bool)
    requires TidyEverywhere(loop, own)
    ensures TidyEverywhere(WrapLoop(loop, id, countsThreads), own)
  {
    var marked := loop;
    if id.Some? {
      marked := Between(Enter(LoopRegion(id.value)), loop, Leave(LoopRegion(id.value)));
      BetweenTidy(Enter(LoopRegion(id.value)), loop, Leave(LoopRegion(id.value)), own);
    }
    if countsThreads {
      LaunchTidy(marked, own);
    }
  }

  lemma LaunchTidy(marked: Stmt, own: bool)
    requires TidyEverywhere(marked, own)
    ensures TidyEverywhere(Launch(marked), own)
  {
    forall p | Unfolds(Launch(marked), p, own) ensures AllTidy(p) {
      var inner := LaunchUnfolds(marked, own, p);
      LaunchProcTidy(inner, own);
    }
  }

  lemma LaunchProcTidy(p: Proc, own: bool)
    requires AllTidy(p)
    ensures AllTidy(LaunchProc(p, own))
  {
    var leave, incr := Event(Leave(ParallelRegion), own), Event(Incr, own);
    var around := [Event(Enter(ParallelRegion), own)] + (Word(p) + [leave]);
    TidyAround(Enter(ParallelRegion), Word(p), Leave(ParallelRegion), own);
    TidyAround(Decr, around, Incr, own);
    var end := Then(Emit(leave), Emit(incr));
    assert Word(end) == [leave, incr];
    assert LaunchedTidy(Emit(leave)) && LaunchedTidy(Emit(incr));
    assert Word(Then(p, end)) == Word(p) + [leave, incr] && LaunchedTidy(Then(p, end));
    var rest := Then(Emit(Event(Enter(ParallelRegion), own)), Then(p, end));
    assert Word(rest) == around + [incr] && LaunchedTidy(rest);
  }

  lemma {:induction false} ProbedTidy(r: Requests, ids: map<string, int>, ctx: Context, before: seq<string>,
                                      src: Stmt, out: Stmt, own: bool)
    requires Probed(r, ids, ctx, before, src, out) && Clean(src)
    ensures TidyEverywhere(out, own)
    decreases src
  {
    match src
    case Leaf(_) => CleanTidy(src, own);
    case Block(a, b) =>
      ProbedTidy(r, ids, ctx, before, a, out.first, own);
      ProbedTidy(r, ids, ctx, before + LoopNames(r.loops, a), b, out.rest, own);
      BlockTidy(out.first, out.rest, own);
    case Scope(_, b) => ProbedTidy(r, ids, ctx, before, b, out.body, own);
    case If(_, a, b) =>
      ProbedTidy(r, ids, ctx, before, a, out.thenCase, own);
      ProbedTidy(r, ids, ctx, before + LoopNames(r.loops, a), b, out.elseCase, own);
    case ProducerConsumer(n, p, b) =>
      var w := TaskWrapping(r, ids, ctx, before, n, p, b, out);
      ProbedTidy(r, ids, Inside(r, ids, ctx, n, p), before, b, w.body, own);
      TaskTidy(w, n, p, ctx, own);
    case For(n, p, d, b) =>
      if d == Offload {
        CleanTidy(src, own);
        WrapLoopTidy(src, LoopId(r.loops, before, n), p, own);
      } else {
        var b' := LoopRewriting(r, ids, ctx, before, n, p, d, b, out);
        ProbedTidy(r, ids, ctx, before, b, b', if d == Hexagon then true else own);
        LoopBodyTidy(n, p, d, b', own);
        var id := LoopId(r.loops, before + LoopNames(r.loops, b), n);
        WrapLoopTidy(For(n, p, d, LoopBody(p, d, b')), id, CountsThreads(p, d), own);
      }
  }

  lemma LoopBodyTidy(n: string, p: bool, d: Device, b: Stmt, own: bool)
    requires d != Offload && TidyEverywhere(b, if d == Hexagon then true else own)
    ensures TidyEverywhere(For(n, p, d, LoopBody(p, d, b)), own)
  {
    BetweenTidy(Incr, b, Decr, if d == Hexagon then true else own);
    var body := LoopBody(p, d, b);
    forall proc | Unfolds(body, proc, own) ensures AllTidy(proc) {
      if d == Hexagon {
        assert Unfolds(body.body, proc, true);
      }
    }
    LoopTidy(n, p, d, body, own);
  }
}
