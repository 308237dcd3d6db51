/**
 Which Func is current while a task works, which is the one that the sampling thread bills, and which Funcs the
 probes name.  A task sees what it does itself and what the tasks that launched it did before.
 */
module CurrentFunc {
  import opened Collections
  import opened ProfiledStmt
  import opened PapiProfiling
  import opened ProfiledOutput
  import opened ProfiledRuns
  import opened TaskRegions

  // ----- What a task has seen -----

  /**
   A produce or consume step that has begun and not ended, and how often it is inside its Func's region and, for
   a produce step, inside its overhead region.
   */
  datatype OpenStep = OpenStep(name: string, isProducer: bool, remote: bool, whole: int, own: int)

  /**
   The steps that are open; the produce step of this side that ended first since the last step of this side began,
   if one did; the current Func of this side; and how many parallel regions are open.
   */
  datatype View = View(open: seq<OpenStep>, ended: Option<string>, current: Option<int>, parallel: int)

  const NOTHING_SEEN := View([], None, None, 0)

  /** The region of the last step is entered, or left. */
  function BumpWhole(open: seq<OpenStep>, d: int): seq<OpenStep> {
    if open == [] then open
    else
      var s := open[|open| - 1];
      open[..|open| - 1] + [s.(whole := s.whole + d)]
  }

  /** The overhead region of the last produce step is entered, or left, if that began on the same side. */
  function BumpOwn(open: seq<OpenStep>, remote: bool, d: int): seq<OpenStep> {
    if open == [] then open
    else
      var front, s := open[..|open| - 1], open[|open| - 1];
      if !s.isProducer then BumpOwn(front, remote, d) + [s]
      else if s.remote == remote then front + [s.(own := s.own + d)]
      else open
  }

  function See(v: View, e: Event, side: bool): View {
    match e
    case Begin(n, p, r) =>
      v.(open := v.open + [OpenStep(n, p, r, 0, 0)], ended := if r == side then None else v.ended)
    case End(n, p, r) =>
      v.(open := if v.open == [] then [] else v.open[..|v.open| - 1],
         ended := if r == side && p && v.ended.None? then Some(n) else v.ended)
    case Event(SetCurrent(i), r) => if r == side then v.(current := Some(i)) else v
    case Event(Enter(FuncRegion(_, _)), _) => v.(open := BumpWhole(v.open, 1))
    case Event(Leave(FuncRegion(_, _)), _) => v.(open := BumpWhole(v.open, -1))
    case Event(Enter(ParallelRegion), _) => v.(parallel := v.parallel + 1)
    case Event(Leave(ParallelRegion), _) => v.(parallel := v.parallel - 1)
    case Event(EnterOverhead(_), r) => v.(open := BumpOwn(v.open, r, 1))
    case Event(LeaveOverhead(_), r) => v.(open := BumpOwn(v.open, r, -1))
    case _ => v
  }

  function SeeAll(v: View, word: seq<Event>, side: bool): View {
    if word == [] then v else See(SeeAll(v, word[..|word| - 1], side), word[|word| - 1], side)
  }

  function InnermostProduced(open: seq<OpenStep>): Option<string> {
    if open == [] then None
    else if open[|open| - 1].isProducer then Some(open[|open| - 1].name)
    else InnermostProduced(open[..|open| - 1])
  }

  /** The id of a Func; outside of all produce steps that of the overhead. */
  function IdOf(ids: map<string, int>, name: Option<string>): int {
    if name.Some? && Normalize(name.value) in ids then ids[Normalize(name.value)] else 0
  }

  /** The Func that should be current: the one around, unless a produce step has ended since a step last began. */
  function Owner(v: View): Option<string> {
    if v.ended.Some? then v.ended else InnermostProduced(v.open)
  }

  /** A step is open that began on this side. */
  predicate Within(v: View, side: bool) {
    v.open != [] && v.open[|v.open| - 1].remote == side
  }

  predicate Names(ids: map<string, int>, v: View, id: int, isProducer: bool) {
    && v.open != [] && v.open[|v.open| - 1].isProducer == isProducer
    && id == IdOf(ids, Some(v.open[|v.open| - 1].name))
  }

  /** The produce step around, as the pass describes it; ids aside. */
  function CtxAround(r: Requests, open: seq<OpenStep>): Context {
    if open == [] then OUTERMOST
    else
      var outside, s := CtxAround(r, open[..|open| - 1]), open[|open| - 1];
      if s.isProducer then Context(0, Normalize(s.name), Some(Explicit(r, outside, s.name, true))) else outside
  }

  /** The last step is inside a region of its own exactly if the requests decide that it is profiled. */
  ghost predicate Marked(r: Requests, open: seq<OpenStep>) {
    open != [] ==>
      var s := open[|open| - 1];
      && 0 <= s.whole + s.own <= 1
      && MayProfile(r, CtxAround(r, open[..|open| - 1]), s.name, s.isProducer, s.whole + s.own == 1)
  }

  ghost predicate MayProfile(r: Requests, ctx: Context, name: string, isProducer: bool, profile: bool) {
    exists threads :: Decided(r, ctx, name, isProducer, Mark(profile, threads))
  }

  /** How often the last produce step is inside its Func's region. */
  function Whole(open: seq<OpenStep>): int {
    if open == [] then 0
    else if open[|open| - 1].isProducer then open[|open| - 1].whole
    else Whole(open[..|open| - 1])
  }

  /**
   The requests, the ids of the Funcs, and the side that is looked at; whether work must be billed to the step
   around, and whether no produce step stands in another of its own Func.
   */
  datatype Setting = Setting(r: Requests, ids: map<string, int>, side: bool, strict: bool, apart: bool)

  /**
   Work in a step finds the id of its owner current, with no produce step ended since a step last began if the
   setting is `strict`, and is in a region of the step if it is profiled.  Probes of a Func's region name the step
   that they are in, probes of an overhead region the innermost produce step.  A step begins only outside of the
   Func's region of the produce step around.
   */
  ghost predicate Fits(g: Setting, v: View, e: Event) {
    match e
    case Work(r) =>
      r == g.side && Within(v, g.side) ==>
        && v.current == Some(IdOf(g.ids, Owner(v))) && (g.strict ==> v.ended == None)
        && Marked(g.r, v.open)
    case Begin(_, _, _) => g.apart ==> Whole(v.open) == 0
    case Event(Enter(FuncRegion(i, p)), _) => Names(g.ids, v, i, p)
    case Event(Leave(FuncRegion(i, p)), _) => Names(g.ids, v, i, p)
    case Event(EnterOverhead(i), _) => InnermostProduced(v.open).Some? && i == IdOf(g.ids, InnermostProduced(v.open))
    case Event(LeaveOverhead(i), _) => InnermostProduced(v.open).Some? && i == IdOf(g.ids, InnermostProduced(v.open))
    case _ => true
  }

  ghost predicate AllFit(g: Setting, v: View, word: seq<Event>) {
    word == [] ||
    (var front, last := word[..|word| - 1], word[|word| - 1];
     AllFit(g, v, front) && Fits(g, SeeAll(v, front, g.side), last))
  }

  lemma {:induction false} SeeConcat(v: View, a: seq<Event>, b: seq<Event>, side: bool)
    ensures SeeAll(v, a + b, side) == SeeAll(SeeAll(v, a, side), b, side)
  {
    if b == [] {
      assert a + b == a;
    } else {
      assert (a + b)[..|a + b| - 1] == a + b[..|b| - 1];
      SeeConcat(v, a, b[..|b| - 1], side);
    }
  }

  lemma {:induction false} FitConcat(g: Setting, v: View, a: seq<Event>, b: seq<Event>)
    ensures AllFit(g, v, a + b) <==> AllFit(g, v, a) && AllFit(g, SeeAll(v, a, g.side), b)
  {
    if b == [] {
      assert a + b == a;
    } else {
      var front := b[..|b| - 1];
      assert (a + b)[..|a + b| - 1] == a + front;
      FitConcat(g, v, a, front);
      SeeConcat(v, a, front, g.side);
    }
  }

  lemma OneEvent(g: Setting, v: View, e: Event)
    ensures SeeAll(v, [e], g.side) == See(v, e, g.side)
    ensures AllFit(g, v, [e]) <==> Fits(g, v, e)
  {
    assert [e][..0] == [];
    assert SeeAll(v, [], g.side) == v && AllFit(g, v, []);
  }

  // ----- The line of events that leads to a task -----

  /** What has happened in a task and in those that launched it. */
  function Lineage(steps: seq<Happening>, task: Task): seq<Event> {
    if steps == [] then []
    else
      var last := steps[|steps| - 1];
      Lineage(steps[..|steps| - 1], task) + if last.task <= task then [last.event] else []
  }

  /** What is left before and in a task. */
  function Line(p: Proc, task: Task): seq<Event> {
    if task == [] then Word(p)
    else
      match p
      case Done => []
      case Emit(_) => []
      case Then(a, b) =>
        if task[0] == First then Line(a, task[1..])
        else if task[0] == Rest then Word(a) + Line(b, task[1..])
        else []
      case Both(a, b) =>
        if task[0] == Left then Line(a, task[1..]) else if task[0] == Right then Line(b, task[1..]) else []
  }

  lemma PrefixBelow(at: Task, task: Task)
    ensures at == [] ==> at <= task
    ensures at != [] && task != [] ==> (at <= task <==> at[0] == task[0] && at[1..] <= task[1..])
    ensures at != [] && at <= task ==> task != []
  {
    if at != [] && task != [] {
      if at[0] == task[0] && at[1..] <= task[1..] {
        assert forall i :: 1 <= i < |at| ==> at[i] == at[1..][i - 1] == task[1..][i - 1] == task[i];
      }
      if at <= task {
        assert forall i :: 0 <= i < |at| - 1 ==> at[1..][i] == at[i + 1] == task[i + 1] == task[1..][i];
      }
    }
  }

  /** A step of a task that is still to act, or of one that launched it, takes the first event of its line. */
  lemma {:induction false} StepExtends(p: Proc, e: Event, at: Task, p': Proc, task: Task)
    requires Step(p, e, at, p') && IsTask(task) && WordOf(p', task) != []
    ensures Line(p, task) == (if at <= task then [e] else []) + Line(p', task)
  {
    PrefixBelow(at, task);
    if task == [] {
      StepProjects(p, e, at, p', []);
    } else {
      var inner, below := if at == [] then [] else at[1..], task[1..];
      match p
      case Emit(_) =>
      case Then(a, b) =>
        if p'.rest == b && StepWithin(a, e, First, at, p'.first) {
          if task[0] == First {
            StepExtends(a, e, inner, p'.first, below);
            PrefixBelow(inner, below);
          } else {
            StepProjects(a, e, inner, p'.first, []);
          }
        } else {
          FinishedHasNoWord(a, []);
          FinishedHasNoWord(a, below);
          StepExtends(b, e, inner, p'.rest, below);
          PrefixBelow(inner, below);
        }
      case Both(a, b) =>
        if p'.right == b && at[0] == Left && Step(a, e, at[1..], p'.left) {
          if task[0] == Left {
            StepExtends(a, e, inner, p'.left, below);
          }
        } else if task[0] == Right {
          StepExtends(b, e, inner, p'.right, below);
        }
    }
  }

  /** A step of a task is the first event of its line. */
  lemma {:induction false} StepHeads(p: Proc, e: Event, task: Task, p': Proc)
    requires Step(p, e, task, p')
    ensures Line(p, task) != [] && Line(p, task)[0] == e && WordOf(p, task) != []
  {
    var inner := if task == [] then [] else task[1..];
    match p
    case Emit(_) =>
    case Then(a, b) =>
      if p'.rest == b && StepWithin(a, e, First, task, p'.first) {
        StepHeads(a, e, inner, p'.first);
      } else {
        FinishedHasNoWord(a, []);
        StepHeads(b, e, inner, p'.rest);
      }
    case Both(a, b) =>
      if p'.right == b && task[0] == Left && Step(a, e, task[1..], p'.left) {
        StepHeads(a, e, inner, p'.left);
      } else {
        StepHeads(b, e, inner, p'.right);
      }
  }

  /** While a task is still to act, what has happened in its lineage and what is left make up its line. */
  lemma {:induction false} RunExtends(ps: seq<Proc>, steps: seq<Happening>, task: Task)
    requires Run(ps, steps) && IsTask(task) && WordOf(ps[|steps|], task) != []
    ensures Line(ps[0], task) == Lineage(steps, task) + Line(ps[|steps|], task)
  {
    if steps != [] {
      var n := |steps| - 1;
      StepProjects(ps[n], steps[n].event, steps[n].task, ps[n + 1], task);
      StepExtends(ps[n], steps[n].event, steps[n].task, ps[n + 1], task);
      RunExtends(ps[..n + 1], steps[..n], task);
    }
  }

  // ----- All tasks of a process -----

  /**
   All events fit, of the process's own task and of those it launches, when `v` was seen before; and it launches
   tasks in parallel regions only.
   */
  ghost predicate ProcFits(g: Setting, v: View, p: Proc)
    decreases p, 1
  {
    AllFit(g, v, Word(p)) && LaunchedFit(g, v, p)
  }

  ghost predicate LaunchedFit(g: Setting, v: View, p: Proc)
    decreases p, 0
  {
    match p
    case Done => true
    case Emit(_) => true
    case Then(a, b) => LaunchedFit(g, v, a) && LaunchedFit(g, SeeAll(v, Word(a), g.side), b)
    case Both(a, b) => v.parallel > 0 && ProcFits(g, v, a) && ProcFits(g, v, b)
  }

  lemma ThenFits(g: Setting, v: View, a: Proc, b: Proc)
    ensures ProcFits(g, v, Then(a, b)) <==> ProcFits(g, v, a) && ProcFits(g, SeeAll(v, Word(a), g.side), b)
  {
    FitConcat(g, v, Word(a), Word(b));
  }

  lemma {:induction false} LineFits(g: Setting, v: View, p: Proc, task: Task)
    requires ProcFits(g, v, p) && IsTask(task)
    ensures AllFit(g, v, Line(p, task))
    decreases p
  {
    if task != [] {
      match p
      case Done =>
      case Emit(_) =>
      case Then(a, b) =>
        ThenFits(g, v, a, b);
        if task[0] == First {
          LineFits(g, v, a, task[1..]);
        } else if task[0] == Rest {
          LineFits(g, SeeAll(v, Word(a), g.side), b, task[1..]);
          FitConcat(g, v, Word(a), Line(b, task[1..]));
        }
      case Both(a, b) =>
        if task[0] == Left {
          LineFits(g, v, a, task[1..]);
        } else if task[0] == Right {
          LineFits(g, v, b, task[1..]);
        }
    }
  }

  // ----- Statements -----

  /** Whatever happens first in the statement is the beginning of a step. */
  predicate StartsStep(s: Stmt) {
    match s
    case Block(a, _) => StartsStep(a)
    case Scope(_, b) => StartsStep(b)
    case If(_, a, b) => StartsStep(a) && StartsStep(b)
    case ProducerConsumer(_, _, _) => true
    case _ => false
  }

  /** After the last produce step in the statement another step begins. */
  predicate EndsResumed(s: Stmt) {
    match s
    case Block(_, b) => EndsResumed(b)
    case Scope(_, b) => EndsResumed(b)
    case If(_, a, b) => EndsResumed(a) && EndsResumed(b)
    case ProducerConsumer(_, p, b) => !p && EndsResumed(b)
    case For(_, _, d, b) => d == Offload || EndsResumed(b)
    case _ => true
  }

  /** After every produce step another step begins before there is work, as when its consume step follows it. */
  predicate Resumes(s: Stmt) {
    match s
    case Block(a, b) => Resumes(a) && Resumes(b) && (EndsResumed(a) || StartsStep(b))
    case Scope(_, b) => Resumes(b)
    case If(_, a, b) => Resumes(a) && Resumes(b)
    case ProducerConsumer(_, _, b) => Resumes(b)
    case For(_, _, d, b) => d == Offload || (Resumes(b) && (EndsResumed(b) || StartsStep(b)))
    case _ => true
  }

  predicate AllHost(open: seq<OpenStep>) {
    forall i :: 0 <= i < |open| ==> !open[i].remote
  }

  /** What a task has seen when it comes to a statement in `ctx` that runs on the side `own`. */
  predicate Ready(g: Setting, ctx: Context, v: View, own: bool, resumed: bool) {
    && ctx.id == IdOf(g.ids, InnermostProduced(v.open)) && (ctx.mark.Some? <==> InnermostProduced(v.open).Some?)
    && ctx.name == CtxAround(g.r, v.open).name && ctx.mark == CtxAround(g.r, v.open).mark
    && (!own ==> AllHost(v.open)) && v.parallel >= 0
    && (Within(v, g.side) ==> v.current == Some(IdOf(g.ids, Owner(v))))
    && (resumed && own == g.side && Within(v, g.side) ==> v.ended == None)
  }

  /** It is in a region if the requests say so, and outside of its Func's if there are tasks to come. */
  ghost predicate InRegion(g: Setting, v: View, own: bool, src: Stmt) {
    && (Within(v, own) ==> Marked(g.r, v.open))
    && (g.apart ==> NoneInItself(src) && (DirectTasks(src) > 0 ==> Whole(v.open) == 0))
  }

  /** No produce step stands in another of its own Func. */
  predicate NoneInItself(s: Stmt) {
    match s
    case Block(a, b) => NoneInItself(a) && NoneInItself(b)
    case Scope(_, b) => NoneInItself(b)
    case If(_, a, b) => NoneInItself(a) && NoneInItself(b)
    case ProducerConsumer(n, p, b) => (p ==> Normalize(n) !in Produced(b)) && NoneInItself(b)
    case For(_, _, d, b) => d == Offload || NoneInItself(b)
    case _ => true
  }

  /** A process on the side `own` that fits, and leaves what was seen as it was in these respects. */
  ghost predicate Good(g: Setting, ctx: Context, v: View, p: Proc, own: bool, resumed: bool) {
    var v' := SeeAll(v, Word(p), g.side);
    && ProcFits(g, v, p)
    && v'.open == v.open && v'.parallel == v.parallel && Ready(g, ctx, v', own, resumed)
    && (own && !g.side ==> v' == v)
  }

  lemma ThenGood(g: Setting, ctx: Context, v: View, a: Proc, b: Proc, own: bool, first: bool, second: bool)
    requires Good(g, ctx, v, a, own, first) && Good(g, ctx, SeeAll(v, Word(a), g.side), b, own, second)
    ensures Good(g, ctx, v, Then(a, b), own, second)
  {
    ThenFits(g, v, a, b);
    SeeConcat(v, Word(a), Word(b), g.side);
  }

  /** An event that changes nothing. */
  lemma EmitGood(g: Setting, ctx: Context, v: View, e: Event, own: bool, resumed: bool)
    requires Ready(g, ctx, v, own, resumed) && See(v, e, g.side) == v && Fits(g, v, e)
    ensures Good(g, ctx, v, Emit(e), own, resumed)
  {
    OneEvent(g, v, e);
  }

  /** A probe that says nothing about Funcs. */
  predicate Plain(p: Probe) {
    match p
    case Enter(r) => r.LoopRegion?
    case Leave(r) => r.LoopRegion?
    case _ => p.Incr? || p.Decr?
  }

  /** A good process between two events that change nothing. */
  lemma AroundGood(g: Setting, ctx: Context, v: View, e: Probe, inner: Proc, f: Probe, own: bool, resumed: bool)
    requires Ready(g, ctx, v, own, false) && Good(g, ctx, v, inner, own, resumed) && Plain(e) && Plain(f)
    ensures Good(g, ctx, v, Around(e, inner, f, own), own, resumed)
  {
    var v' := SeeAll(v, Word(inner), g.side);
    EmitGood(g, ctx, v, Event(e, own), own, false);
    OneEvent(g, v, Event(e, own));
    EmitGood(g, ctx, v', Event(f, own), own, resumed);
    ThenGood(g, ctx, v, inner, Emit(Event(f, own)), own, resumed, resumed);
    ThenGood(g, ctx, v, Emit(Event(e, own)), Then(inner, Emit(Event(f, own))), own, false, resumed);
  }

  /** Entering and leaving regions changes nothing else that is seen of the open steps. */
  ghost predicate Keeps(r: Requests, open: seq<OpenStep>, a: seq<OpenStep>) {
    && SameLast(a, open) && InnermostProduced(a) == InnermostProduced(open) && CtxAround(r, a) == CtxAround(r, open)
    && (AllHost(open) <==> AllHost(a))
  }

  /** What another open step changes. */
  lemma PushedStep(r: Requests, open: seq<OpenStep>, s: OpenStep)
    ensures var a := open + [s];
            && a[..|a| - 1] == open && a[|a| - 1] == s && (AllHost(a) <==> AllHost(open) && !s.remote)
            && InnermostProduced(a) == (if s.isProducer then Some(s.name) else InnermostProduced(open))
            && Whole(a) == (if s.isProducer then s.whole else Whole(open))
            && var around := CtxAround(r, open);
               CtxAround(r, a) == (if s.isProducer
                                   then Context(0, Normalize(s.name), Some(Explicit(r, around, s.name, true)))
                                   else around)
  {
    var a := open + [s];
    assert a[..|a| - 1] == open;
    assert AllHost(a) ==> AllHost(open) by {
      assert forall i :: 0 <= i < |open| ==> a[i] == open[i];
    }
  }

  /** What is ready stays so when only the regions of the open steps change. */
  lemma SameReady(g: Setting, ctx: Context, v: View, w: View, own: bool, resumed: bool)
    requires Ready(g, ctx, v, own, resumed) && w == v.(open := w.open)
    requires Keeps(g.r, v.open, w.open) || Keeps(g.r, w.open, v.open)
    ensures Ready(g, ctx, w, own, resumed)
  {
  }

  lemma BumpWholeKeeps(r: Requests, open: seq<OpenStep>, d: int)
    ensures Keeps(r, open, BumpWhole(open, d)) && BumpWhole(BumpWhole(open, d), -d) == open
  {
    if open != [] {
      var front, a := open[..|open| - 1], BumpWhole(open, d);
      assert a[..|a| - 1] == front;
      assert BumpWhole(a, -d) == front + [open[|open| - 1]] == open;
    }
  }

  lemma BumpOwnKeeps(r: Requests, open: seq<OpenStep>, remote: bool, d: int)
    ensures Keeps(r, open, BumpOwn(open, remote, d)) && BumpOwn(BumpOwn(open, remote, d), remote, -d) == open
    ensures Whole(BumpOwn(open, remote, d)) == Whole(open)
  {
    BumpOwnLast(r, open, remote, d);
    BumpOwnBack(open, remote, d);
  }

  lemma {:induction false} BumpOwnLast(r: Requests, open: seq<OpenStep>, remote: bool, d: int)
    ensures Keeps(r, open, BumpOwn(open, remote, d)) && Whole(BumpOwn(open, remote, d)) == Whole(open)
  {
    if open != [] {
      var front, s := open[..|open| - 1], open[|open| - 1];
      assert open == front + [s];
      PushedStep(r, front, s);
      if !s.isProducer {
        BumpOwnLast(r, front, remote, d);
        PushedStep(r, BumpOwn(front, remote, d), s);
      } else {
        PushedStep(r, front, s.(own := s.own + d));
      }
    }
  }

  lemma {:induction false} BumpOwnBack(open: seq<OpenStep>, remote: bool, d: int)
    ensures BumpOwn(BumpOwn(open, remote, d), remote, -d) == open
  {
    if open != [] {
      var front, s, a := open[..|open| - 1], open[|open| - 1], BumpOwn(open, remote, d);
      assert front + [s] == open;
      if !s.isProducer {
        BumpOwnBack(front, remote, d);
        assert a[..|a| - 1] == BumpOwn(front, remote, d);
      } else {
        assert a[..|a| - 1] == front;
      }
    }
  }

  predicate SameLast(a: seq<OpenStep>, b: seq<OpenStep>) {
    |a| == |b| && (a != [] ==>
      var s, t := a[|a| - 1], b[|b| - 1];
      s.name == t.name && s.isProducer == t.isProducer && s.remote == t.remote)
  }

  /** The probe that undoes another. */
  predicate Undoes(e: Probe, f: Probe) {
    match e
    case Enter(FuncRegion(i, p)) => f == Leave(FuncRegion(i, p))
    case EnterOverhead(i) => f == LeaveOverhead(i)
    case LeaveOverhead(i) => f == EnterOverhead(i)
    case _ => false
  }

  lemma RegionSeen(g: Setting, v: View, e: Probe, f: Probe, own: bool)
    requires Undoes(e, f)
    ensures var v' := See(v, Event(e, own), g.side);
            && v' == v.(open := v'.open) && See(v', Event(f, own), g.side) == v && Keeps(g.r, v.open, v'.open)
            && (e.EnterOverhead? || e.LeaveOverhead? ==> Whole(v'.open) == Whole(v.open))
  {
    BumpWholeKeeps(g.r, v.open, 1);
    BumpOwnKeeps(g.r, v.open, own, 1);
    BumpOwnKeeps(g.r, v.open, own, -1);
  }

  lemma RegionReady(g: Setting, ctx: Context, v: View, e: Probe, f: Probe, own: bool, resumed: bool)
    requires Ready(g, ctx, v, own, resumed) && Undoes(e, f)
    ensures Ready(g, ctx, See(v, Event(e, own), g.side), own, resumed)
  {
    RegionSeen(g, v, e, f, own);
    SameReady(g, ctx, v, See(v, Event(e, own), g.side), own, resumed);
  }

  /** A process between two events. */
  lemma BetweenSeen(g: Setting, v: View, e: Event, inner: Proc, f: Event)
    ensures SeeAll(v, Word(Then(Emit(e), Then(inner, Emit(f)))), g.side)
            == See(SeeAll(See(v, e, g.side), Word(inner), g.side), f, g.side)
  {
    var v1 := See(v, e, g.side);
    OneEvent(g, v, e);
    OneEvent(g, SeeAll(v1, Word(inner), g.side), f);
    SeeConcat(v1, Word(inner), [f], g.side);
    SeeConcat(v, [e], Word(inner) + [f], g.side);
    var rest := Then(inner, Emit(f));
    assert Word(rest) == Word(inner) + Word(Emit(f)) && Word(Then(Emit(e), rest)) == Word(Emit(e)) + Word(rest);
  }

  lemma BetweenFits(g: Setting, v: View, e: Event, inner: Proc, f: Event)
    requires Fits(g, v, e) && ProcFits(g, See(v, e, g.side), inner)
    requires Fits(g, SeeAll(See(v, e, g.side), Word(inner), g.side), f)
    ensures ProcFits(g, v, Then(Emit(e), Then(inner, Emit(f))))
  {
    var v1, rest := See(v, e, g.side), Then(inner, Emit(f));
    EmitFits(g, v, e);
    EmitFits(g, SeeAll(v1, Word(inner), g.side), f);
    ThenFits(g, v1, inner, Emit(f));
    ThenFits(g, v, Emit(e), rest);
  }

  lemma EmitFits(g: Setting, v: View, e: Event)
    ensures ProcFits(g, v, Emit(e)) <==> Fits(g, v, e)
    ensures SeeAll(v, Word(Emit(e)), g.side) == See(v, e, g.side)
  {
    OneEvent(g, v, e);
  }

  /** A good process inside a region. */
  lemma RegionGood(g: Setting, ctx: Context, v: View, e: Probe, inner: Proc, f: Probe, own: bool, resumed: bool)
    requires Undoes(e, f) && Fits(g, v, Event(e, own))
    requires Good(g, ctx, See(v, Event(e, own), g.side), inner, own, resumed)
    ensures Good(g, ctx, v, Around(e, inner, f, own), own, resumed)
  {
    var v1 := See(v, Event(e, own), g.side);
    var v2 := SeeAll(v1, Word(inner), g.side);
    var v3 := See(v2, Event(f, own), g.side);
    RegionSeen(g, v, e, f, own);
    UndoneSeen(g, v, v2, e, f, own);
    LeaveFits(g, v, v2, e, f, own);
    BetweenSeen(g, v, Event(e, own), inner, Event(f, own));
    BetweenFits(g, v, Event(e, own), inner, Event(f, own));
    SameReady(g, ctx, v2, v3, own, resumed);
  }

  /** Undoing a probe, whatever else was seen in between. */
  lemma UndoneSeen(g: Setting, v: View, w: View, e: Probe, f: Probe, own: bool)
    requires Undoes(e, f) && w.open == See(v, Event(e, own), g.side).open
    ensures See(w, Event(f, own), g.side) == w.(open := v.open)
  {
    BumpWholeKeeps(g.r, v.open, 1);
    BumpOwnKeeps(g.r, v.open, own, 1);
    BumpOwnKeeps(g.r, v.open, own, -1);
  }

  /** What undoes a probe names the same Func. */
  lemma LeaveFits(g: Setting, v: View, w: View, e: Probe, f: Probe, own: bool)
    requires Undoes(e, f) && Fits(g, v, Event(e, own)) && w.open == See(v, Event(e, own), g.side).open
    ensures Fits(g, w, Event(f, own))
  {
    BumpWholeKeeps(g.r, v.open, 1);
    BumpOwnKeeps(g.r, v.open, own, 1);
    BumpOwnKeeps(g.r, v.open, own, -1);
  }

  // ----- Steps -----

  /** What a task has seen inside a step, once the step has set the current Func. */
  function Entered(v: View, n: string, isProducer: bool, own: bool, id: int, side: bool): View {
    See(See(v, Begin(n, isProducer, own), side), Event(SetCurrent(id), own), side)
  }

  lemma EnteredReady(g: Setting, ctx: Context, v: View, n: string, isProducer: bool, own: bool,
                     resumed: bool)
    requires Ready(g, ctx, v, own, resumed) && Normalize(n) in g.ids
    ensures var id := if isProducer then g.ids[Normalize(n)] else ctx.id;
            Ready(g, Inside(g.r, g.ids, ctx, n, isProducer), Entered(v, n, isProducer, own, id, g.side), own, true)
  {
    PushedStep(g.r, v.open, OpenStep(n, isProducer, own, 0, 0));
  }

  /** What is seen at the end of a step. */
  lemma LeftReady(g: Setting, ctx: Context, v: View, n: string, isProducer: bool, own: bool, w: View,
                  ended: bool)
    requires Ready(g, ctx, v, own, false) && Normalize(n) in g.ids
    requires w.open == v.open + [OpenStep(n, isProducer, own, 0, 0)]
    requires Ready(g, Inside(g.r, g.ids, ctx, n, isProducer), w, own, ended)
    requires own && !g.side ==> w == v.(open := w.open)
    ensures var w' := See(w, End(n, isProducer, own), g.side);
            && w'.open == v.open && Ready(g, ctx, w', own, ended && !isProducer) && (own && !g.side ==> w' == v)
  {
    PushedStep(g.r, v.open, OpenStep(n, isProducer, own, 0, 0));
    assert !own && g.side ==> !Within(v, g.side);
  }

  /** A step whose body is good is good. */
  lemma StepGood(g: Setting, ctx: Context, v: View, n: string, isProducer: bool, inner: Proc, own: bool,
                 ended: bool)
    requires Ready(g, ctx, v, own, false) && Normalize(n) in g.ids && (g.apart ==> Whole(v.open) == 0)
    requires var id := if isProducer then g.ids[Normalize(n)] else ctx.id;
             var v' := Entered(v, n, isProducer, own, id, g.side);
             Good(g, Inside(g.r, g.ids, ctx, n, isProducer), v', inner, own, ended)
    ensures var id := if isProducer then g.ids[Normalize(n)] else ctx.id;
            Good(g, ctx, v, StepProc(n, isProducer, Then(Emit(Event(SetCurrent(id), own)), inner), own), own,
                 ended && !isProducer)
  {
    var id := if isProducer then g.ids[Normalize(n)] else ctx.id;
    var begin, current := Begin(n, isProducer, own), Event(SetCurrent(id), own);
    var v1 := See(v, begin, g.side);
    var v2 := See(v1, current, g.side);
    var w := SeeAll(v2, Word(inner), g.side);
    LeftReady(g, ctx, v, n, isProducer, own, w, ended);
    var body := Then(Emit(current), inner);
    EmitFits(g, v1, current);
    ThenFits(g, v1, Emit(current), inner);
    SeeConcat(v1, [current], Word(inner), g.side);
    assert ProcFits(g, v1, body) && SeeAll(v1, Word(body), g.side) == w;
    StepSeen(g, v, n, isProducer, body, own);
  }

  /** A process between the beginning and the end of a step. */
  lemma StepSeen(g: Setting, v: View, n: string, isProducer: bool, body: Proc, own: bool)
    requires ProcFits(g, See(v, Begin(n, isProducer, own), g.side), body) && (g.apart ==> Whole(v.open) == 0)
    ensures var w := SeeAll(See(v, Begin(n, isProducer, own), g.side), Word(body), g.side);
            var p := StepProc(n, isProducer, body, own);
            ProcFits(g, v, p) && SeeAll(v, Word(p), g.side) == See(w, End(n, isProducer, own), g.side)
  {
    BetweenSeen(g, v, Begin(n, isProducer, own), body, End(n, isProducer, own));
    BetweenFits(g, v, Begin(n, isProducer, own), body, End(n, isProducer, own));
  }

  /** The body of a wrapped task, inside its region if it is profiled. */
  function MarkedProc(w: Wrapping, isProducer: bool, inner: Proc, own: bool): Proc {
    var region := FuncRegion(w.funcId, isProducer);
    if !w.mark.profile then inner
    else if w.overhead then Around(EnterOverhead(w.taskId), inner, LeaveOverhead(w.taskId), own)
    else Around(Enter(region), inner, Leave(region), own)
  }

  function TaskProc(w: Wrapping, n: string, isProducer: bool, ctx: Context, marked: Proc, own: bool): Proc {
    var step := StepProc(n, isProducer, Then(Emit(Event(SetCurrent(w.taskId), own)), marked), own);
    if w.mark.profile && ctx.mark.Some? then Around(LeaveOverhead(ctx.id), step, EnterOverhead(ctx.id), own) else step
  }

  /** The process of a wrapped task, from that of its body. */
  lemma TaskUnfolds(w: Wrapping, n: string, isProducer: bool, ctx: Context, own: bool, p: Proc)
    returns (marked: Proc, inner: Proc)
    requires Unfolds(WrapTask(w, n, isProducer, ctx), p, own)
    ensures Unfolds(w.body, inner, own)
    ensures marked == MarkedProc(w, isProducer, inner, own) && p == TaskProc(w, n, isProducer, ctx, marked, own)
  {
    var region := FuncRegion(w.funcId, isProducer);
    var body :=
      if !w.mark.profile then w.body
      else if w.overhead then Between(EnterOverhead(w.taskId), w.body, LeaveOverhead(w.taskId))
      else Between(Enter(region), w.body, Leave(region));
    var block := Block(Call(SetCurrent(w.taskId)), body);
    var task := ProducerConsumer(n, isProducer, block);
    var step := p;
    if w.mark.profile && ctx.mark.Some? {
      step := BetweenUnfolds(LeaveOverhead(ctx.id), task, EnterOverhead(ctx.id), own, p);
    }
    assert Unfolds(task, step, own) && Unfolds(block, step.rest.first, own);
    marked := step.rest.first.rest;
    assert Unfolds(Call(SetCurrent(w.taskId)), step.rest.first.first, own);
    inner := marked;
    if w.mark.profile {
      if w.overhead {
        inner := BetweenUnfolds(EnterOverhead(w.taskId), w.body, LeaveOverhead(w.taskId), own, marked);
      } else {
        inner := BetweenUnfolds(Enter(region), w.body, Leave(region), own, marked);
      }
    }
  }

  /** What a task has seen before a step, and before the body of the step. */
  function Outside(w: Wrapping, ctx: Context, v: View, own: bool, side: bool): View {
    if w.mark.profile && ctx.mark.Some? then See(v, Event(LeaveOverhead(ctx.id), own), side) else v
  }

  function InBody(w: Wrapping, n: string, isProducer: bool, ctx: Context, v: View, own: bool, side: bool): View {
    var entered := Entered(Outside(w, ctx, v, own, side), n, isProducer, own, w.taskId, side);
    if !w.mark.profile then entered
    else if w.overhead then See(entered, Event(EnterOverhead(w.taskId), own), side)
    else See(entered, Event(Enter(FuncRegion(w.funcId, isProducer)), own), side)
  }

  /** The step that is open in the body. */
  function BodyStep(w: Wrapping, n: string, isProducer: bool, own: bool): OpenStep {
    OpenStep(n, isProducer, own, if w.mark.profile && !w.overhead then 1 else 0,
             if w.mark.profile && w.overhead then 1 else 0)
  }

  lemma InBodySeen(w: Wrapping, n: string, isProducer: bool, ctx: Context, v: View, own: bool, side: bool)
    requires w.overhead ==> isProducer
    ensures var before := Outside(w, ctx, v, own, side);
            InBody(w, n, isProducer, ctx, v, own, side)
            == Entered(before, n, isProducer, own, w.taskId, side).(
                 open := before.open + [BodyStep(w, n, isProducer, own)])
  {
    var before := Outside(w, ctx, v, own, side);
    var step := OpenStep(n, isProducer, own, 0, 0);
    var open := before.open + [step];
    assert open[..|open| - 1] == before.open;
  }

  lemma OutsideReady(g: Setting, ctx: Context, v: View, w: Wrapping, own: bool)
    requires Ready(g, ctx, v, own, false)
    ensures var before := Outside(w, ctx, v, own, g.side);
            Ready(g, ctx, before, own, false) && Whole(before.open) == Whole(v.open)
  {
    if w.mark.profile && ctx.mark.Some? {
      RegionSeen(g, v, LeaveOverhead(ctx.id), EnterOverhead(ctx.id), own);
      RegionReady(g, ctx, v, LeaveOverhead(ctx.id), EnterOverhead(ctx.id), own, false);
    }
  }

  /** Before the body of a step the region is entered that its mark decides. */
  lemma BodyReady(g: Setting, ctx: Context, v: View, n: string, isProducer: bool, body: Stmt, w: Wrapping, own: bool)
    requires Ready(g, ctx, v, own, false) && Wraps(g.r, g.ids, ctx, n, isProducer, body, w)
    requires g.apart ==> NoneInItself(ProducerConsumer(n, isProducer, body)) && Whole(v.open) == 0
    ensures var inside, v' := Inside(g.r, g.ids, ctx, n, isProducer), InBody(w, n, isProducer, ctx, v, own, g.side);
            Ready(g, inside, v', own, true) && InRegion(g, v', own, body)
  {
    var before, step := Outside(w, ctx, v, own, g.side), BodyStep(w, n, isProducer, own);
    var inside, v' := Inside(g.r, g.ids, ctx, n, isProducer), InBody(w, n, isProducer, ctx, v, own, g.side);
    OutsideReady(g, ctx, v, w, own);
    EnteredReady(g, ctx, before, n, isProducer, own, false);
    InBodySeen(w, n, isProducer, ctx, v, own, g.side);
    var entered := Entered(before, n, isProducer, own, w.taskId, g.side);
    SameStep(g, inside, before.open, n, isProducer, own, step, entered, v');
    BodyMarked(g, ctx, before.open, n, isProducer, body, w, own);
    if g.apart {
      BodyApart(g, ctx, before.open, n, isProducer, body, w, own);
    }
  }

  lemma SameStep(g: Setting, inside: Context, open: seq<OpenStep>, n: string, isProducer: bool, own: bool,
                 step: OpenStep, v: View, v': View)
    requires v.open == open + [OpenStep(n, isProducer, own, 0, 0)] && v'.open == open + [step]
    requires step.name == n && step.isProducer == isProducer && step.remote == own && v' == v.(open := v'.open)
    requires Ready(g, inside, v, own, true)
    ensures Ready(g, inside, v', own, true)
  {
    PushedStep(g.r, open, step);
    PushedStep(g.r, open, OpenStep(n, isProducer, own, 0, 0));
    SameReady(g, inside, v, v', own, true);
  }

  /** A Func with steps directly inside is not in its own region. */
  lemma BodyApart(g: Setting, ctx: Context, open: seq<OpenStep>, n: string, isProducer: bool, body: Stmt, w: Wrapping,
                  own: bool)
    requires Wraps(g.r, g.ids, ctx, n, isProducer, body, w)
    requires NoneInItself(ProducerConsumer(n, isProducer, body)) && Whole(open) == 0
    ensures NoneInItself(body) && (DirectTasks(body) > 0 ==> Whole(open + [BodyStep(w, n, isProducer, own)]) == 0)
  {
    PushedStep(g.r, open, BodyStep(w, n, isProducer, own));
  }

  lemma BodyMarked(g: Setting, ctx: Context, open: seq<OpenStep>, n: string, isProducer: bool, body: Stmt, w: Wrapping,
                   own: bool)
    requires ctx.name == CtxAround(g.r, open).name && ctx.mark == CtxAround(g.r, open).mark
    requires Wraps(g.r, g.ids, ctx, n, isProducer, body, w)
    ensures Marked(g.r, open + [BodyStep(w, n, isProducer, own)])
  {
    var step := BodyStep(w, n, isProducer, own);
    PushedStep(g.r, open, step);
    assert Decided(g.r, CtxAround(g.r, open), n, isProducer, Mark(w.mark.profile, w.mark.threads));
    assert step.whole + step.own == 1 <==> w.mark.profile;
  }

  /** Wrapping a task whose body is good. */
  lemma TaskGood(g: Setting, ctx: Context, v: View, n: string, isProducer: bool, body: Stmt, w: Wrapping, own: bool,
                 inner: Proc, marked: Proc, p: Proc, ended: bool)
    requires Ready(g, ctx, v, own, false) && Wraps(g.r, g.ids, ctx, n, isProducer, body, w)
    requires g.apart ==> NoneInItself(ProducerConsumer(n, isProducer, body)) && Whole(v.open) == 0
    requires Good(g, Inside(g.r, g.ids, ctx, n, isProducer), InBody(w, n, isProducer, ctx, v, own, g.side), inner, own,
                  ended)
    requires marked == MarkedProc(w, isProducer, inner, own) && p == TaskProc(w, n, isProducer, ctx, marked, own)
    ensures Good(g, ctx, v, p, own, ended && !isProducer)
  {
    var before := Outside(w, ctx, v, own, g.side);
    OutsideReady(g, ctx, v, w, own);
    var inside, entered := Inside(g.r, g.ids, ctx, n, isProducer),
                           Entered(before, n, isProducer, own, w.taskId, g.side);
    PushedStep(g.r, before.open, OpenStep(n, isProducer, own, 0, 0));
    if w.mark.profile {
      if w.overhead {
        RegionGood(g, inside, entered, EnterOverhead(w.taskId), inner, LeaveOverhead(w.taskId), own, ended);
      } else {
        var region := FuncRegion(w.funcId, isProducer);
        RegionGood(g, inside, entered, Enter(region), inner, Leave(region), own, ended);
      }
    }
    StepGood(g, ctx, before, n, isProducer, marked, own, ended);
    if w.mark.profile && ctx.mark.Some? {
      var step := StepProc(n, isProducer, Then(Emit(Event(SetCurrent(w.taskId), own)), marked), own);
      RegionGood(g, ctx, v, LeaveOverhead(ctx.id), step, EnterOverhead(ctx.id), own, ended && !isProducer);
    }
  }

  // ----- Loops and the whole output -----

  /** Inside a remote loop nothing of the host's side is seen to change. */
  lemma RemoteReady(g: Setting, ctx: Context, v: View, own: bool, resumed: bool)
    requires Ready(g, ctx, v, own, resumed)
    ensures Ready(g, ctx, v, true, resumed || !own)
  {
  }

  lemma FromRemoteGood(g: Setting, ctx: Context, v: View, p: Proc, own: bool, resumed: bool, ended: bool)
    requires Ready(g, ctx, v, own, resumed) && Good(g, ctx, v, p, true, ended)
    ensures Good(g, ctx, v, p, own, if own then ended else resumed)
  {
  }

  lemma WeakerGood(g: Setting, ctx: Context, v: View, p: Proc, own: bool, resumed: bool, less: bool)
    requires Good(g, ctx, v, p, own, resumed) && (less ==> resumed)
    ensures Good(g, ctx, v, p, own, less)
  {
  }

  /** What is seen inside a parallel region. */
  function InParallel(v: View, launches: bool): View {
    if launches then v.(parallel := v.parallel + 1) else v
  }

  lemma LaunchGood(g: Setting, ctx: Context, v: View, inner: Proc, own: bool, resumed: bool)
    requires Good(g, ctx, InParallel(v, true), inner, own, resumed) && v.parallel >= 0
    ensures Good(g, ctx, v, LaunchProc(inner, own), own, resumed)
  {
    var v1 := InParallel(v, true);
    var v2 := SeeAll(v1, Word(inner), g.side);
    var leave, incr := Event(Leave(ParallelRegion), own), Event(Incr, own);
    var enter, decr := Event(Enter(ParallelRegion), own), Event(Decr, own);
    var v3 := See(v2, leave, g.side);
    var end := Then(Emit(leave), Emit(incr));
    var rest := Then(inner, end);
    EmitFits(g, v2, leave);
    EmitFits(g, v3, incr);
    ThenFits(g, v2, Emit(leave), Emit(incr));
    SeeConcat(v2, Word(Emit(leave)), Word(Emit(incr)), g.side);
    ThenFits(g, v1, inner, end);
    SeeConcat(v1, Word(inner), Word(end), g.side);
    EmitFits(g, v, enter);
    ThenFits(g, v, Emit(enter), rest);
    SeeConcat(v, Word(Emit(enter)), Word(rest), g.side);
    EmitFits(g, v, decr);
    ThenFits(g, v, Emit(decr), Then(Emit(enter), rest));
    SeeConcat(v, Word(Emit(decr)), Word(Then(Emit(enter), rest)), g.side);
    assert v3 == v2.(parallel := v.parallel);
  }

  /** The process of a wrapped loop, from that of the loop. */
  lemma WrappedLoopGood(g: Setting, ctx: Context, v: View, loop: Stmt, id: Option<int>, counts: bool, own: bool,
                        resumed: bool, p: Proc) returns (inner: Proc)
    requires Ready(g, ctx, v, own, false) && Unfolds(WrapLoop(loop, id, counts), p, own)
    ensures Unfolds(loop, inner, own)
    ensures Good(g, ctx, InParallel(v, counts), inner, own, resumed) ==> Good(g, ctx, v, p, own, resumed)
  {
    var marked := if id.Some? then Between(Enter(LoopRegion(id.value)), loop, Leave(LoopRegion(id.value))) else loop;
    var outer := p;
    if counts {
      outer := LaunchUnfolds(marked, own, p);
    }
    inner := outer;
    if id.Some? {
      inner := BetweenUnfolds(Enter(LoopRegion(id.value)), loop, Leave(LoopRegion(id.value)), own, outer);
    }
    var v' := InParallel(v, counts);
    if Good(g, ctx, v', inner, own, resumed) {
      if id.Some? {
        AroundGood(g, ctx, v', Enter(LoopRegion(id.value)), inner, Leave(LoopRegion(id.value)), own, resumed);
      }
      if counts {
        LaunchGood(g, ctx, v, outer, own, resumed);
      }
    }
  }

  /** One iteration of a rewritten loop. */
  lemma {:induction false} IterationGood(g: Setting, ctx: Context, before: seq<string>, parallel: bool,
                                         d: Device, b: Stmt, b': Stmt, own: bool, resumed: bool, v: View, p: Proc)
    requires Probed(g.r, g.ids, ctx, before, b, b') && Clean(b) && d != Offload
    requires Unfolds(LoopBody(parallel, d, b'), p, own) && Ready(g, ctx, v, own, resumed) && InRegion(g, v, own, b)
    requires g.strict ==> Resumes(b) && (resumed || (StartsStep(b) && !EndsResumed(b)))
    ensures Good(g, ctx, v, p, own, g.strict && EndsResumed(b))
    decreases b, 2, p
  {
    var side := own || d == Hexagon;
    var ended := g.strict && EndsResumed(b);
    RemoteReady(g, ctx, v, own, resumed);
    var ready := if d == Hexagon then resumed || !own else resumed;
    var inner := p;
    if CountsThreads(parallel, d) {
      assert d == Hexagon ==> Unfolds(Between(Incr, b', Decr), p, side);
      inner := BetweenUnfolds(Incr, b', Decr, side, p);
    }
    ProbedGood(g, ctx, before, b, b', side, ready, v, inner);
    if CountsThreads(parallel, d) {
      AroundGood(g, ctx, v, Incr, inner, Decr, side, ended);
    }
    if d == Hexagon {
      FromRemoteGood(g, ctx, v, p, own, resumed, ended);
      WeakerGood(g, ctx, v, p, own, if own then ended else resumed, ended);
    }
  }

  lemma {:induction false} IterationsGood(g: Setting, ctx: Context, before: seq<string>, parallel: bool,
                                          d: Device, b: Stmt, b': Stmt, own: bool, v: View, p: Proc)
    requires Probed(g.r, g.ids, ctx, before, b, b') && Clean(b) && d != Offload
    requires Iterates(parallel, LoopBody(parallel, d, b'), p, own) && Ready(g, ctx, v, own, g.strict)
    requires InRegion(g, v, own, b) && (parallel ==> v.parallel > 0)
    requires g.strict ==> Resumes(b) && (EndsResumed(b) || StartsStep(b))
    ensures Good(g, ctx, v, p, own, g.strict && EndsResumed(b))
    decreases b, 3, p
  {
    var ended := g.strict && EndsResumed(b);
    match p
    case Done =>
    case Then(earlier, last) =>
      IterationsGood(g, ctx, before, parallel, d, b, b', own, v, earlier);
      var v' := SeeAll(v, Word(earlier), g.side);
      IterationGood(g, ctx, before, parallel, d, b, b', own, ended, v', last);
      ThenGood(g, ctx, v, earlier, last, own, ended, ended);
    case Both(earlier, last) =>
      IterationsGood(g, ctx, before, parallel, d, b, b', own, v, earlier);
      IterationGood(g, ctx, before, parallel, d, b, b', own, g.strict, v, last);
  }

  lemma {:induction false} ProbedBlockGood(g: Setting, ctx: Context, before: seq<string>, src: Stmt, out: Stmt,
                                           own: bool, resumed: bool, v: View, p: Proc)
    requires src.Block? && Probed(g.r, g.ids, ctx, before, src, out) && Clean(src) && Unfolds(out, p, own)
    requires Ready(g, ctx, v, own, resumed) && (g.strict ==> Resumes(src) && (resumed || StartsStep(src)))
    requires InRegion(g, v, own, src)
    ensures Good(g, ctx, v, p, own, g.strict && EndsResumed(src))
    decreases src, 0, p
  {
    var a, b, between := src.first, src.rest, g.strict && EndsResumed(src.first);
    ProbedGood(g, ctx, before, a, out.first, own, resumed, v, p.first);
    var v' := SeeAll(v, Word(p.first), g.side);
    ProbedGood(g, ctx, before + LoopNames(g.r.loops, a), b, out.rest, own, between, v', p.rest);
    ThenGood(g, ctx, v, p.first, p.rest, own, between, g.strict && EndsResumed(src));
  }

  lemma {:induction false} ProbedTaskGood(g: Setting, ctx: Context, before: seq<string>, src: Stmt, out: Stmt,
                                          own: bool, resumed: bool, v: View, p: Proc)
    requires src.ProducerConsumer? && Probed(g.r, g.ids, ctx, before, src, out) && Clean(src) && Unfolds(out, p, own)
    requires Ready(g, ctx, v, own, resumed) && (g.strict ==> Resumes(src)) && InRegion(g, v, own, src)
    ensures Good(g, ctx, v, p, own, g.strict && EndsResumed(src))
    decreases src, 0, p
  {
    var n, isProducer, b := src.name, src.isProducer, src.body;
    var w := TaskWrapping(g.r, g.ids, ctx, before, n, isProducer, b, out);
    var marked, inner := TaskUnfolds(w, n, isProducer, ctx, own, p);
    BodyReady(g, ctx, v, n, isProducer, b, w, own);
    var inside, v' := Inside(g.r, g.ids, ctx, n, isProducer), InBody(w, n, isProducer, ctx, v, own, g.side);
    ProbedGood(g, inside, before, b, w.body, own, true, v', inner);
    TaskGood(g, ctx, v, n, isProducer, b, w, own, inner, marked, p, g.strict && EndsResumed(b));
  }

  lemma {:induction false} ProbedLoopGood(g: Setting, ctx: Context, before: seq<string>, src: Stmt, out: Stmt,
                                          own: bool, resumed: bool, v: View, p: Proc)
    requires src.For? && src.device != Offload && Probed(g.r, g.ids, ctx, before, src, out) && Clean(src)
    requires Unfolds(out, p, own)
    requires Ready(g, ctx, v, own, resumed) && (g.strict ==> Resumes(src) && resumed) && InRegion(g, v, own, src)
    ensures Good(g, ctx, v, p, own, g.strict && EndsResumed(src))
    decreases src, 0, p
  {
    var n, parallel, d, b := src.name, src.parallel, src.device, src.body;
    var b' := LoopRewriting(g.r, g.ids, ctx, before, n, parallel, d, b, out);
    var loop := For(n, parallel, d, LoopBody(parallel, d, b'));
    var id := LoopId(g.r.loops, before + LoopNames(g.r.loops, b), n);
    var inner := WrappedLoopGood(g, ctx, v, loop, id, CountsThreads(parallel, d), own, g.strict && EndsResumed(b), p);
    var v' := LoopReady(g, ctx, src, own, v);
    IterationsGood(g, ctx, before, parallel, d, b, b', own, v', inner);
  }

  lemma LoopReady(g: Setting, ctx: Context, src: Stmt, own: bool, v: View) returns (v': View)
    requires src.For? && src.device != Offload && Ready(g, ctx, v, own, g.strict) && InRegion(g, v, own, src)
    ensures v' == InParallel(v, CountsThreads(src.parallel, src.device)) && (src.parallel ==> v'.parallel > 0)
    ensures Ready(g, ctx, v', own, g.strict) && InRegion(g, v', own, src.body)
  {
    v' := InParallel(v, CountsThreads(src.parallel, src.device));
  }

  /** What runs on another device is one piece of work. */
  lemma OffloadGood(g: Setting, ctx: Context, src: Stmt, id: Option<int>, own: bool, v: View, p: Proc)
    requires src.For? && src.device == Offload && Unfolds(WrapLoop(src, id, src.parallel), p, own)
    requires Ready(g, ctx, v, own, g.strict) && InRegion(g, v, own, src)
    ensures Good(g, ctx, v, p, own, g.strict)
  {
    var inner := WrappedLoopGood(g, ctx, v, src, id, src.parallel, own, g.strict, p);
    EmitGood(g, ctx, InParallel(v, src.parallel), Work(own), own, g.strict);
  }

  /** Every process of a rewritten statement is good. */
  lemma {:induction false} ProbedGood(g: Setting, ctx: Context, before: seq<string>, src: Stmt, out: Stmt,
                                      own: bool, resumed: bool, v: View, p: Proc)
    requires Probed(g.r, g.ids, ctx, before, src, out) && Clean(src) && Unfolds(out, p, own)
    requires Ready(g, ctx, v, own, resumed) && (g.strict ==> Resumes(src) && (resumed || StartsStep(src)))
    requires InRegion(g, v, own, src)
    ensures Good(g, ctx, v, p, own, g.strict && EndsResumed(src))
    decreases src, 1, p
  {
    var ended := g.strict && EndsResumed(src);
    match src
    case Leaf(_) => EmitGood(g, ctx, v, Work(own), own, ended);
    case Block(_, _) => ProbedBlockGood(g, ctx, before, src, out, own, resumed, v, p);
    case Scope(_, b) => ProbedGood(g, ctx, before, b, out.body, own, resumed, v, p);
    case If(_, a, b) =>
      if Unfolds(out.thenCase, p, own) {
        ProbedGood(g, ctx, before, a, out.thenCase, own, resumed, v, p);
        WeakerGood(g, ctx, v, p, own, g.strict && EndsResumed(a), ended);
      } else {
        ProbedGood(g, ctx, before + LoopNames(g.r.loops, a), b, out.elseCase, own, resumed, v, p);
        WeakerGood(g, ctx, v, p, own, g.strict && EndsResumed(b), ended);
      }
    case ProducerConsumer(n, isProducer, b) => ProbedTaskGood(g, ctx, before, src, out, own, resumed, v, p);
    case For(n, _, d, _) =>
      if d == Offload {
        OffloadGood(g, ctx, src, LoopId(g.r.loops, before, n), own, v, p);
      } else {
        ProbedLoopGood(g, ctx, before, src, out, own, resumed, v, p);
      }
  }

  // ----- Runs -----

  /** The conditions under which a setting asks for more. */
  predicate Suits(g: Setting, src: Stmt) {
    (g.strict ==> Resumes(src)) && (g.apart ==> NoneInItself(src))
  }

  lemma OutputFits(g: Setting, src: Stmt, out: Stmt, p: Proc)
    requires Instrumented(g.r, g.ids, src, out) && Clean(src) && Unfolds(out, p, false) && Suits(g, src)
    ensures ProcFits(g, NOTHING_SEEN, p)
  {
    var inner := BetweenUnfolds(Incr, out.rest.first, Decr, false, p);
    ProbedGood(g, OUTERMOST, [], src, out.rest.first, false, true, NOTHING_SEEN, inner);
    AroundGood(g, OUTERMOST, NOTHING_SEEN, Incr, inner, Decr, false, g.strict && EndsResumed(src));
  }

  /** Parallel regions entered less those left. */
  function Parallel(word: seq<Event>): int {
    if word == [] then 0
    else
      Parallel(word[..|word| - 1]) +
      match word[|word| - 1]
      case Event(Enter(ParallelRegion), _) => 1
      case Event(Leave(ParallelRegion), _) => -1
      case _ => 0
  }

  /** Wherever the process launches tasks, a parallel region is open that it entered, or one before it did. */
  ghost predicate LaunchesInside(p: Proc, before: int)
    decreases p
  {
    match p
    case Done => true
    case Emit(_) => true
    case Then(a, b) => LaunchesInside(a, before) && LaunchesInside(b, before + Parallel(Word(a)))
    case Both(a, b) => before > 0 && LaunchesInside(a, before) && LaunchesInside(b, before)
  }

  lemma {:induction false} SeeParallel(v: View, word: seq<Event>, side: bool)
    ensures SeeAll(v, word, side).parallel == v.parallel + Parallel(word)
  {
    if word != [] {
      SeeParallel(v, word[..|word| - 1], side);
    }
  }

  lemma {:induction false} FittingLaunches(g: Setting, v: View, p: Proc)
    requires LaunchedFit(g, v, p)
    ensures LaunchesInside(p, v.parallel)
    decreases p
  {
    match p
    case Done =>
    case Emit(_) =>
    case Then(a, b) =>
      FittingLaunches(g, v, a);
      FittingLaunches(g, SeeAll(v, Word(a), g.side), b);
      SeeParallel(v, Word(a), g.side);
    case Both(a, b) =>
      FittingLaunches(g, v, a);
      FittingLaunches(g, v, b);
  }

  /** An instrumented pipeline launches tasks only inside of parallel regions, whatever its loops and branches do. */
  lemma ThreadsStartInParallelRegions(r: Requests, ids: map<string, int>, src: Stmt, out: Stmt, p: Proc)
    requires Instrumented(r, ids, src, out) && Clean(src) && Unfolds(out, p, false)
    ensures LaunchesInside(p, 0)
  {
    var g := Setting(r, ids, false, false, false);
    OutputFits(g, src, out, p);
    FittingLaunches(g, NOTHING_SEEN, p);
  }

  /** What happens in a run fits what its task has seen. */
  lemma HappeningFits(g: Setting, src: Stmt, out: Stmt, ps: seq<Proc>, steps: seq<Happening>, i: nat)
    requires Instrumented(g.r, g.ids, src, out) && Clean(src) && Suits(g, src)
    requires Run(ps, steps) && Unfolds(out, ps[0], false) && i < |steps|
    ensures Fits(g, SeeAll(NOTHING_SEEN, Lineage(steps[..i], steps[i].task), g.side), steps[i].event)
  {
    var task, e := steps[i].task, steps[i].event;
    StepProjects(ps[i], e, task, ps[i + 1], []);
    StepHeads(ps[i], e, task, ps[i + 1]);
    RunExtends(ps[..i + 1], steps[..i], task);
    OutputFits(g, src, out, ps[0]);
    LineFits(g, NOTHING_SEEN, ps[0], task);
    var seen, left := Lineage(steps[..i], task), Line(ps[i], task);
    assert left == [e] + left[1..];
    FitConcat(g, NOTHING_SEEN, seen, left);
    FitConcat(g, SeeAll(NOTHING_SEEN, seen, g.side), [e], left[1..]);
    OneEvent(g, SeeAll(NOTHING_SEEN, seen, g.side), e);
  }

  /**
   In every run, interleaved in any way and stopped anywhere: a task that works in a step finds current the Func of
   the innermost produce step around, or the overhead if there is none; but if a produce step has ended since a
   step last began, the Func of that one.
   */
  lemma WorkIsBilled(r: Requests, ids: map<string, int>, src: Stmt, out: Stmt, ps: seq<Proc>, steps: seq<Happening>,
                     i: nat, side: bool)
    requires Instrumented(r, ids, src, out) && Clean(src) && Run(ps, steps) && Unfolds(out, ps[0], false)
    requires i < |steps| && steps[i].event == Work(side)
    ensures var v := SeeAll(NOTHING_SEEN, Lineage(steps[..i], steps[i].task), side);
            Within(v, side) ==>
              v.current == Some(IdOf(ids, if v.ended.Some? then v.ended else InnermostProduced(v.open)))
  {
    HappeningFits(Setting(r, ids, side, false, false), src, out, ps, steps, i);
  }

  /** If after every produce step another step begins before there is work, that is the Func around. */
  lemma WorkIsBilledAround(r: Requests, ids: map<string, int>, src: Stmt, out: Stmt, ps: seq<Proc>,
                           steps: seq<Happening>, i: nat, side: bool)
    requires Instrumented(r, ids, src, out) && Clean(src) && Run(ps, steps) && Unfolds(out, ps[0], false)
    requires i < |steps| && steps[i].event == Work(side) && Resumes(src)
    ensures var v := SeeAll(NOTHING_SEEN, Lineage(steps[..i], steps[i].task), side);
            Within(v, side) ==> v.current == Some(IdOf(ids, InnermostProduced(v.open)))
  {
    HappeningFits(Setting(r, ids, side, true, false), src, out, ps, steps, i);
  }

  /** In every run, work in a step is inside a region of that step exactly if the requests have the step profiled. */
  lemma WorkIsInItsRegion(r: Requests, ids: map<string, int>, src: Stmt, out: Stmt, ps: seq<Proc>,
                          steps: seq<Happening>, i: nat, side: bool)
    requires Instrumented(r, ids, src, out) && Clean(src) && Run(ps, steps) && Unfolds(out, ps[0], false)
    requires i < |steps| && steps[i].event == Work(side)
    ensures var v := SeeAll(NOTHING_SEEN, Lineage(steps[..i], steps[i].task), side);
            Within(v, side) ==> Marked(r, v.open)
  {
    HappeningFits(Setting(r, ids, side, false, false), src, out, ps, steps, i);
  }

  /**
   In every run, a step begins only while the Func around is in its overhead region at most: the counters of a Func's
   own region never take in a step nested in it, unless the Func is produced inside itself.
   */
  lemma NestedOutsideRegion(r: Requests, ids: map<string, int>, src: Stmt, out: Stmt, ps: seq<Proc>,
                            steps: seq<Happening>, i: nat)
    requires Instrumented(r, ids, src, out) && Clean(src) && Run(ps, steps) && Unfolds(out, ps[0], false)
    requires i < |steps| && steps[i].event.Begin? && NoneInItself(src)
    ensures Whole(SeeAll(NOTHING_SEEN, Lineage(steps[..i], steps[i].task), false).open) == 0
  {
    HappeningFits(Setting(r, ids, false, false, true), src, out, ps, steps, i);
  }

  /** In every run the regions of Funcs name the step they are in, and overhead regions the innermost produce step. */
  lemma RegionsNameFuncs(r: Requests, ids: map<string, int>, src: Stmt, out: Stmt, ps: seq<Proc>,
                         steps: seq<Happening>, i: nat, id: int)
    requires Instrumented(r, ids, src, out) && Clean(src) && Run(ps, steps) && Unfolds(out, ps[0], false)
    requires i < |steps| && steps[i].event.Event?
    ensures var v := SeeAll(NOTHING_SEEN, Lineage(steps[..i], steps[i].task), false);
            var probe := steps[i].event.probe;
            && (forall p :: probe == Enter(FuncRegion(id, p)) || probe == Leave(FuncRegion(id, p)) ==>
                  v.open != [] && var s := v.open[|v.open| - 1]; s.isProducer == p && id == IdOf(ids, Some(s.name)))
            && (probe == EnterOverhead(id) || probe == LeaveOverhead(id) ==>
                  InnermostProduced(v.open).Some? && id == IdOf(ids, InnermostProduced(v.open)))
  {
    HappeningFits(Setting(r, ids, false, false, false), src, out, ps, steps, i);
  }
}
