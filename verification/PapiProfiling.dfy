/** `InjectPAPIProfiling`: the pass that puts profiling calls around tasks and loops. */
module PapiProfiling {
  import opened Collections
  import opened Names
  import opened ProfiledStmt

  // ----- Requests -----

  /** A request to profile a Func; an empty `parent` stands for any enclosing Func. */
  datatype Request = Request(name: string, production: bool, consumption: bool, showThreads: bool, enable: bool,
                             parent: string)

  datatype LoopRequest = LoopRequest(func: string, variable: string, showThreads: bool)

  datatype Requests = Requests(funcs: seq<Request>, loops: seq<LoopRequest>)

  predicate Concerns(q: Request, name: string, isProducer: bool, parent: string) {
    && q.name == name && (if isProducer then q.production else q.consumption)
    && (q.parent == "" || q.parent == parent)
  }

  function FirstRequest(qs: seq<Request>, name: string, isProducer: bool, parent: string): Option<Request> {
    if qs == [] then None
    else if Concerns(qs[0], name, isProducer, parent) then Some(qs[0])
    else FirstRequest(qs[1..], name, isProducer, parent)
  }

  /** The first request of the list that concerns the step, if there is one. */
  lemma {:induction false} FirstRequestIs(qs: seq<Request>, name: string, isProducer: bool, parent: string)
    ensures match FirstRequest(qs, name, isProducer, parent)
            case None => forall i :: 0 <= i < |qs| ==> !Concerns(qs[i], name, isProducer, parent)
            case Some(q) =>
              exists i :: 0 <= i < |qs| && qs[i] == q && Concerns(q, name, isProducer, parent)
                          && forall j :: 0 <= j < i ==> !Concerns(qs[j], name, isProducer, parent)
  {
    if qs != [] && !Concerns(qs[0], name, isProducer, parent) {
      FirstRequestIs(qs[1..], name, isProducer, parent);
      match FirstRequest(qs[1..], name, isProducer, parent)
      case None =>
        assert forall i :: 1 <= i < |qs| ==> qs[i] == qs[1..][i - 1];
      case Some(q) =>
        var i :| 0 <= i < |qs[1..]| && qs[1..][i] == q
                 && forall j :: 0 <= j < i ==> !Concerns(qs[1..][j], name, isProducer, parent);
        assert qs[i + 1] == q && forall j :: 1 <= j < i + 1 ==> qs[j] == qs[1..][j - 1];
    }
  }

  predicate StartsWith(s: string, prefix: string) {
    |prefix| <= |s| && s[..|prefix|] == prefix
  }

  function FirstLoopRequest(qs: seq<LoopRequest>, loop: string): Option<LoopRequest> {
    if qs == [] then None
    else if Asks(qs[0], loop) then Some(qs[0])
    else FirstLoopRequest(qs[1..], loop)
  }

  /** The loop belongs to the Func and the variable of the request. */
  predicate Asks(q: LoopRequest, loop: string) {
    StartsWith(loop, q.func + ".") && EndsWith(loop, "." + q.variable)
  }

  /** The first request of the list that asks for the loop, if there is one. */
  lemma {:induction false} FirstLoopRequestIs(qs: seq<LoopRequest>, loop: string)
    ensures match FirstLoopRequest(qs, loop)
            case None => forall i :: 0 <= i < |qs| ==> !Asks(qs[i], loop)
            case Some(q) =>
              exists i :: 0 <= i < |qs| && qs[i] == q && Asks(q, loop) && forall j :: 0 <= j < i ==> !Asks(qs[j], loop)
  {
    if qs != [] && !Asks(qs[0], loop) {
      FirstLoopRequestIs(qs[1..], loop);
      match FirstLoopRequest(qs[1..], loop)
      case None =>
        assert forall i :: 1 <= i < |qs| ==> qs[i] == qs[1..][i - 1];
      case Some(q) =>
        var i :| 0 <= i < |qs[1..]| && qs[1..][i] == q && forall j :: 0 <= j < i ==> !Asks(qs[1..][j], loop);
        assert qs[i + 1] == q && forall j :: 1 <= j < i + 1 ==> qs[j] == qs[1..][j - 1];
    }
  }

  /** The name up to its first dot. */
  function Normalize(name: string): (r: string)
    ensures r <= name && '.' !in r
    ensures r != name ==> name[|r|] == '.'
  {
    if name == "" || name[0] == '.' then "" else [name[0]] + Normalize(name[1..])
  }

  // ----- What the pass emits -----

  datatype Mark = Mark(profile: bool, threads: bool)

  /** The enclosing produce step: its id and name, and its mark if there is one. */
  datatype Context = Context(id: int, name: string, mark: Option<Mark>)

  /** The id of the enclosing produce step, if there is one. */
  function Top(ctx: Context): Option<int> {
    if ctx.mark.Some? then Some(ctx.id) else None
  }

  /** How one task is wrapped. */
  datatype Wrapping = Wrapping(funcId: int, taskId: int, mark: Mark, overhead: bool, body: Stmt)

  function WrapTask(w: Wrapping, name: string, isProducer: bool, ctx: Context): Stmt {
    var marked :=
      if !w.mark.profile then w.body
      else if w.overhead then Between(EnterOverhead(w.taskId), w.body, LeaveOverhead(w.taskId))
      else Between(Enter(FuncRegion(w.funcId, isProducer)), w.body, Leave(FuncRegion(w.funcId, isProducer)));
    var task := ProducerConsumer(name, isProducer, Block(Call(SetCurrent(w.taskId)), marked));
    if w.mark.profile && ctx.mark.Some? then Between(LeaveOverhead(ctx.id), task, EnterOverhead(ctx.id)) else task
  }

  predicate CountsThreads(parallel: bool, device: Device) {
    device == Hexagon || parallel
  }

  /** The body of a loop: each iteration counts as a thread of its own when the loop launches them. */
  function LoopBody(parallel: bool, device: Device, body: Stmt): Stmt {
    var counted := if CountsThreads(parallel, device) then Between(Incr, body, Decr) else body;
    if device == Hexagon then RemoteState(counted) else counted
  }

  function WrapLoop(loop: Stmt, id: Option<int>, countsThreads: bool): Stmt {
    var marked := if id.Some? then Between(Enter(LoopRegion(id.value)), loop, Leave(LoopRegion(id.value))) else loop;
    if countsThreads
    then Block(Call(Decr),
      Block(Call(Enter(ParallelRegion)), Block(marked, Block(Call(Leave(ParallelRegion)), Call(Incr)))))
    else marked
  }

  // ----- What the pass counts -----

  /** The profiled loops in the order in which they get their ids. */
  function LoopNames(qs: seq<LoopRequest>, s: Stmt): seq<string> {
    match s
    case Leaf(_) => []
    case Call(_) => []
    case Block(a, b) => LoopNames(qs, a) + LoopNames(qs, b)
    case Scope(_, b) => LoopNames(qs, b)
    case If(_, a, b) => LoopNames(qs, a) + LoopNames(qs, b)
    case ProducerConsumer(_, _, b) => LoopNames(qs, b)
    case For(n, _, d, b) =>
      (if d == Offload then [] else LoopNames(qs, b)) + (if FirstLoopRequest(qs, n).Some? then [n] else [])
    case RemoteState(b) => LoopNames(qs, b)
  }

  /** The ids of the profiled loops by name; a name met again gets a new id. */
  function LoopTable(names: seq<string>): map<string, int> {
    if names == [] then map[]
    else
      var front := names[..|names| - 1];
      LoopTable(front)[names[|names| - 1] := |NameSet(front)|]
  }

  /** All ids that the profiled loops get. */
  function LoopIdSet(names: seq<string>): set<int> {
    if names == [] then {} else LoopIdSet(names[..|names| - 1]) + {|NameSet(names[..|names| - 1])|}
  }

  /** What was asked about showing the threads of the last loop that got the id. */
  function LastAsked(qs: seq<LoopRequest>, names: seq<string>, id: int): Option<bool> {
    if names == [] then None
    else
      var front, request := names[..|names| - 1], FirstLoopRequest(qs, names[|names| - 1]);
      if id == |NameSet(front)| && request.Some? then Some(request.value.showThreads) else LastAsked(qs, front, id)
  }

  predicate LastIsRepeated(names: seq<string>) {
    names != [] && names[|names| - 1] in names[..|names| - 1]
  }

  /**
   The ids are all the numbers below the number of loops, and that number as well exactly when the last profiled
   loop has a name that was met before.
   */
  lemma {:induction false} LoopIdsAre(names: seq<string>, id: int)
    ensures id in LoopIdSet(names) <==>
              0 <= id < |NameSet(names)| || (id == |NameSet(names)| && LastIsRepeated(names))
  {
    if names != [] {
      var front, last := names[..|names| - 1], names[|names| - 1];
      LoopIdsAre(front, id);
      OneMoreName(front, last);
      assert names == front + [last];
    }
  }

  lemma OneMoreName(names: seq<string>, name: string)
    ensures NameSet(names + [name]) == NameSet(names) + {name}
    ensures |NameSet(names + [name])| == |NameSet(names)| + if name in names then 0 else 1
  {
    assert NameSet(names + [name]) == NameSet(names) + {name};
    if name in names {
      assert NameSet(names + [name]) == NameSet(names);
    }
  }

  function NameSet(names: seq<string>): set<string> {
    set n | n in names
  }

  /** The tasks directly inside the enclosing produce step. */
  function DirectTasks(s: Stmt): nat {
    match s
    case Leaf(_) => 0
    case Call(_) => 0
    case Block(a, b) => DirectTasks(a) + DirectTasks(b)
    case Scope(_, b) => DirectTasks(b)
    case If(_, a, b) => DirectTasks(a) + DirectTasks(b)
    case ProducerConsumer(_, p, b) => 1 + if p then 0 else DirectTasks(b)
    case For(_, _, d, b) => if d == Offload then 0 else DirectTasks(b)
    case RemoteState(b) => DirectTasks(b)
  }

  /** The Funcs with a produce step in `s`. */
  function Produced(s: Stmt): set<string> {
    match s
    case Leaf(_) => {}
    case Call(_) => {}
    case Block(a, b) => Produced(a) + Produced(b)
    case Scope(_, b) => Produced(b)
    case If(_, a, b) => Produced(a) + Produced(b)
    case ProducerConsumer(n, p, b) => (if p then {Normalize(n)} else {}) + Produced(b)
    case For(_, _, d, b) => if d == Offload then {} else Produced(b)
    case RemoteState(b) => Produced(b)
  }

  datatype TaskName = TaskName(name: string, isProducer: bool)

  /** The tasks in the order in which the pass is done with them. */
  function TaskNames(s: Stmt): seq<TaskName> {
    match s
    case Leaf(_) => []
    case Call(_) => []
    case Block(a, b) => TaskNames(a) + TaskNames(b)
    case Scope(_, b) => TaskNames(b)
    case If(_, a, b) => TaskNames(a) + TaskNames(b)
    case ProducerConsumer(n, p, b) => TaskNames(b) + [TaskName(Normalize(n), p)]
    case For(_, _, d, b) => if d == Offload then [] else TaskNames(b)
    case RemoteState(b) => TaskNames(b)
  }

  ghost predicate AllNamed(ids: map<string, int>, tasks: seq<TaskName>) {
    forall t :: t in tasks ==> t.name in ids
  }

  /** What was decided about showing the threads of a task, the last time it was met. */
  function LastShown(tasks: seq<TaskName>, shown: seq<bool>, t: TaskName): Option<bool>
    requires |shown| == |tasks|
  {
    if tasks == [] then None
    else
      var last := |tasks| - 1;
      if tasks[last] == t then Some(shown[last]) else LastShown(tasks[..last], shown[..last], t)
  }

  function Flag(flags: map<int, bool>, id: int): Option<bool> {
    if id in flags then Some(flags[id]) else None
  }

  ghost predicate FlagAt(ids: map<string, int>, flags: map<int, bool>, tasks: seq<TaskName>, shown: seq<bool>,
                         isProducer: bool, n: string)
    requires |shown| == |tasks| && n in ids
  {
    Flag(flags, ids[n]) == LastShown(tasks, shown, TaskName(n, isProducer))
  }

  /** The flags are those of the produce steps, or of the consume steps, among the tasks. */
  ghost predicate FlagsOf(ids: map<string, int>, flags: map<int, bool>, tasks: seq<TaskName>, shown: seq<bool>,
                          isProducer: bool)
    requires |shown| == |tasks|
  {
    && (forall id :: id in flags ==> 0 <= id < |ids|)
    && forall n {:trigger FlagAt(ids, flags, tasks, shown, isProducer, n)} :: n in ids ==>
         FlagAt(ids, flags, tasks, shown, isProducer, n)
  }

  lemma {:induction false} NotShown(tasks: seq<TaskName>, shown: seq<bool>, t: TaskName)
    requires |shown| == |tasks|
    ensures LastShown(tasks, shown, t) == None <==> t !in tasks
  {
    if tasks != [] {
      NotShown(tasks[..|tasks| - 1], shown[..|tasks| - 1], t);
    }
  }

  /** A Func that gets the next free id has no flag yet. */
  lemma FlagsGrow(ids: map<string, int>, n: string, flags: map<int, bool>, tasks: seq<TaskName>, shown: seq<bool>,
                  isProducer: bool)
    requires |shown| == |tasks| && AllNamed(ids, tasks) && n !in ids && FlagsOf(ids, flags, tasks, shown, isProducer)
    ensures FlagsOf(ids[n := |ids|], flags, tasks, shown, isProducer)
  {
    var ids' := ids[n := |ids|];
    NotShown(tasks, shown, TaskName(n, isProducer));
    forall m | m in ids' ensures FlagAt(ids', flags, tasks, shown, isProducer, m) {
      assert m in ids ==> FlagAt(ids, flags, tasks, shown, isProducer, m);
    }
  }

  /** One more task sets the flag of its Func and its kind. */
  lemma FlagsAppend(ids: map<string, int>, flags: map<int, bool>, tasks: seq<TaskName>, shown: seq<bool>,
                    isProducer: bool, t: TaskName, threads: bool)
    requires |shown| == |tasks| && IdsValid(ids) && t.name in ids && FlagsOf(ids, flags, tasks, shown, isProducer)
    ensures FlagsOf(ids, if t.isProducer == isProducer then flags[ids[t.name] := threads] else flags, tasks + [t],
                    shown + [threads], isProducer)
  {
    var flags' := if t.isProducer == isProducer then flags[ids[t.name] := threads] else flags;
    assert (tasks + [t])[..|tasks|] == tasks && (shown + [threads])[..|tasks|] == shown;
    forall m | m in ids ensures FlagAt(ids, flags', tasks + [t], shown + [threads], isProducer, m) {
      assert FlagAt(ids, flags, tasks, shown, isProducer, m);
      assert ids[m] == ids[t.name] ==> SameId(ids, m, t.name);
    }
  }

  // ----- The result of the pass -----

  /**
   The first request that concerns a task decides; without one the enclosing produce step does, and outside
   of any produce step the pass reads past the end of a stack, so either answer is possible.
   */
  predicate Decided(r: Requests, ctx: Context, name: string, isProducer: bool, mark: Mark) {
    match FirstRequest(r.funcs, name, isProducer, ctx.name)
    case Some(q) => mark == Mark(q.enable, q.enable && q.showThreads)
    case None =>
      && (mark.threads ==> mark.profile)
      && (ctx.mark.Some? ==> mark == Mark(ctx.mark.value.profile, ctx.mark.value.profile && ctx.mark.value.threads))
  }

  /**
   Threads are shown of profiled steps only; a request for one kind of step says nothing about the other; and a
   request that disables a step overrules what the step would inherit.
   */
  lemma DecisionsMeet(r: Requests, ctx: Context, name: string, isProducer: bool, mark: Mark, q: Request)
    requires Decided(r, ctx, name, isProducer, mark)
    ensures mark.threads ==> mark.profile
    ensures FirstRequest(r.funcs, name, isProducer, ctx.name) == Some(q) ==>
              && q.name == name && (isProducer ==> q.production) && (!isProducer ==> q.consumption)
              && (mark.profile <==> q.enable) && (mark.threads <==> q.enable && q.showThreads)
    ensures ctx.mark.Some? && mark.profile && !ctx.mark.value.profile ==>
              FirstRequest(r.funcs, name, isProducer, ctx.name).Some?
  {
    FirstRequestIs(r.funcs, name, isProducer, ctx.name);
  }

  /** What is inherited is the explicit mark of the enclosing produce step only. */
  function Explicit(r: Requests, ctx: Context, name: string, isProducer: bool): Mark {
    match FirstRequest(r.funcs, name, isProducer, ctx.name)
    case Some(q) => Mark(q.enable, q.enable && q.showThreads)
    case None => Mark(false, false)
  }

  predicate Wraps(r: Requests, ids: map<string, int>, ctx: Context, name: string, isProducer: bool, body: Stmt,
                  w: Wrapping)
  {
    && Normalize(name) in ids && w.funcId == ids[Normalize(name)]
    && w.taskId == (if isProducer then w.funcId else ctx.id)
    && Decided(r, ctx, name, isProducer, w.mark)
    && (!isProducer ==> !w.overhead)
    && (isProducer && Normalize(name) !in Produced(body) ==> w.overhead == (DirectTasks(body) > 0))
  }

  function Inside(r: Requests, ids: map<string, int>, ctx: Context, name: string, isProducer: bool): Context
    requires Normalize(name) in ids
  {
    if isProducer then Context(ids[Normalize(name)], Normalize(name), Some(Explicit(r, ctx, name, isProducer))) else ctx
  }

  /**
   What is decided about showing the threads of the tasks in `src`, in the order in which the pass is done with
   them, inside the produce step of the name `around` with that mark: what the request asks that decides about the
   task, or what its enclosing produce step was asked.
   */
  ghost predicate Shows(r: Requests, around: string, mark: Option<Mark>, src: Stmt, shown: seq<bool>)
    decreases src
  {
    match src
    case Leaf(_) => shown == []
    case Call(_) => shown == []
    case Block(a, b) =>
      var n := |TaskNames(a)|;
      n <= |shown| && Shows(r, around, mark, a, shown[..n]) && Shows(r, around, mark, b, shown[n..])
    case Scope(_, b) => Shows(r, around, mark, b, shown)
    case If(_, a, b) =>
      var n := |TaskNames(a)|;
      n <= |shown| && Shows(r, around, mark, a, shown[..n]) && Shows(r, around, mark, b, shown[n..])
    case ProducerConsumer(n, p, b) =>
      var ctx := Context(0, around, mark);
      && shown != [] && ShownOnce(r, ctx, n, p, shown[|shown| - 1])
      && Shows(r, if p then Normalize(n) else around, if p then Some(Explicit(r, ctx, n, p)) else mark, b,
               shown[..|shown| - 1])
    case For(_, _, d, b) => if d == Offload then shown == [] else Shows(r, around, mark, b, shown)
    case RemoteState(b) => Shows(r, around, mark, b, shown)
  }

  ghost predicate ShownOnce(r: Requests, ctx: Context, name: string, isProducer: bool, threads: bool) {
    exists profile :: Decided(r, ctx, name, isProducer, Mark(profile, threads))
  }

  function LoopId(qs: seq<LoopRequest>, before: seq<string>, name: string): Option<int> {
    if FirstLoopRequest(qs, name).Some? then Some(|NameSet(before)|) else None
  }

  /** `out` is `src` with probes, where the Funcs have the ids `ids` and the loops named `before` have theirs. */
  ghost predicate Probed(r: Requests, ids: map<string, int>, ctx: Context, before: seq<string>, src: Stmt, out: Stmt)
    decreases src
  {
    match src
    case Leaf(_) => out == src
    case Call(_) => out == src
    case Block(a, b) =>
      && out.Block? && Probed(r, ids, ctx, before, a, out.first)
      && Probed(r, ids, ctx, before + LoopNames(r.loops, a), b, out.rest)
    case Scope(t, b) => out.Scope? && out.tag == t && Probed(r, ids, ctx, before, b, out.body)
    case If(c, a, b) =>
      && out.If? && out.code == c && Probed(r, ids, ctx, before, a, out.thenCase)
      && Probed(r, ids, ctx, before + LoopNames(r.loops, a), b, out.elseCase)
    case ProducerConsumer(n, p, b) =>
      exists w: Wrapping {:trigger WrapTask(w, n, p, ctx)} ::
        && out == WrapTask(w, n, p, ctx) && Wraps(r, ids, ctx, n, p, b, w)
        && Probed(r, ids, Inside(r, ids, ctx, n, p), before, b, w.body)
    case For(n, p, d, b) =>
      if d == Offload then out == WrapLoop(src, LoopId(r.loops, before, n), p)
      else
        exists b': Stmt {:trigger LoopBody(p, d, b')} ::
          && out == WrapLoop(For(n, p, d, LoopBody(p, d, b')), LoopId(r.loops, before + LoopNames(r.loops, b), n),
            CountsThreads(p, d))
          && Probed(r, ids, ctx, before, b, b')
    case RemoteState(b) => out.RemoteState? && Probed(r, ids, ctx, before, b, out.body)
  }

  // ----- The pass -----

  lemma AppendTwice<T>(s: seq<T>, a: seq<T>, b: seq<T>)
    ensures s + a + b == s + (a + b)
  {
  }

  ghost predicate IdsValid(ids: map<string, int>) {
    && (forall n :: n in ids ==> 0 <= ids[n] < |ids|)
    && (forall m, n {:trigger SameId(ids, m, n)} :: m in ids && n in ids && SameId(ids, m, n) ==> m == n)
    && (forall i {:trigger Taken(ids, i)} :: 0 <= i < |ids| ==> Taken(ids, i))
  }

  ghost predicate Taken(ids: map<string, int>, i: int) {
    exists n :: n in ids && ids[n] == i
  }

  ghost predicate SameId(ids: map<string, int>, m: string, n: string)
    requires m in ids && n in ids
  {
    ids[m] == ids[n]
  }

  ghost predicate Grows(ids: map<string, int>, ids': map<string, int>) {
    forall n :: n in ids ==> n in ids' && ids'[n] == ids[n]
  }

  /** Ids that are handed out later change nothing. */
  lemma {:induction false} ProbedGrows(r: Requests, ids: map<string, int>, ids': map<string, int>, ctx: Context,
                                       before: seq<string>, src: Stmt, out: Stmt)
    requires Probed(r, ids, ctx, before, src, out) && Grows(ids, ids')
    ensures Probed(r, ids', ctx, before, src, out)
    decreases src
  {
    match src
    case Leaf(_) =>
    case Call(_) =>
    case Block(a, b) =>
      ProbedGrows(r, ids, ids', ctx, before, a, out.first);
      ProbedGrows(r, ids, ids', ctx, before + LoopNames(r.loops, a), b, out.rest);
    case Scope(_, b) => ProbedGrows(r, ids, ids', ctx, before, b, out.body);
    case If(_, a, b) =>
      ProbedGrows(r, ids, ids', ctx, before, a, out.thenCase);
      ProbedGrows(r, ids, ids', ctx, before + LoopNames(r.loops, a), b, out.elseCase);
    case ProducerConsumer(n, p, b) =>
      var w: Wrapping :| out == WrapTask(w, n, p, ctx) && Wraps(r, ids, ctx, n, p, b, w)
                         && Probed(r, ids, Inside(r, ids, ctx, n, p), before, b, w.body);
      ProbedGrows(r, ids, ids', Inside(r, ids, ctx, n, p), before, b, w.body);
      assert Wraps(r, ids', ctx, n, p, b, w);
    case For(n, p, d, b) =>
      if d != Offload {
        var b': Stmt :| out == WrapLoop(For(n, p, d, LoopBody(p, d, b')),
          LoopId(r.loops, before + LoopNames(r.loops, b), n), CountsThreads(p, d))
                        && Probed(r, ids, ctx, before, b, b');
        ProbedGrows(r, ids, ids', ctx, before, b, b');
        assert out == WrapLoop(For(n, p, d, LoopBody(p, d, b')), LoopId(r.loops, before + LoopNames(r.loops, b), n),
          CountsThreads(p, d));
      }
    case RemoteState(b) => ProbedGrows(r, ids, ids', ctx, before, b, out.body);
  }

  function Tasks(s: Stmt): nat {
    match s
    case Leaf(_) => 0
    case Call(_) => 0
    case Block(a, b) => Tasks(a) + Tasks(b)
    case Scope(_, b) => Tasks(b)
    case If(_, a, b) => Tasks(a) + Tasks(b)
    case ProducerConsumer(_, _, b) => 1 + Tasks(b)
    case For(_, _, _, b) => 1 + Tasks(b)
    case RemoteState(b) => Tasks(b)
  }

  ghost predicate MakesId(ids: map<string, int>, s: Stmt, id: int) {
    exists n :: n in Produced(s) && n in ids && ids[n] == id
  }

  /** The count of the enclosing produce step `top` grows by the tasks directly inside it; those inside are reset. */
  ghost predicate ChildrenCounted(counts: map<int, nat>, counts': map<int, nat>, ids: map<string, int>, s: Stmt,
                                  top: Option<int>)
  {
    forall x {:trigger CountedAt(counts, counts', ids, s, top, x)} :: CountedAt(counts, counts', ids, s, top, x)
  }

  ghost predicate CountedAt(counts: map<int, nat>, counts': map<int, nat>, ids: map<string, int>, s: Stmt,
                            top: Option<int>, x: int)
  {
    !MakesId(ids, s, x) ==> CountOf(counts', x) == CountOf(counts, x) + if top == Some(x) then DirectTasks(s) else 0
  }

  /** `whole` is made of `a` and `b`. */
  predicate MadeOf(whole: Stmt, a: Stmt, b: Stmt) {
    || (whole.Block? && whole.first == a && whole.rest == b)
    || (whole.If? && whole.thenCase == a && whole.elseCase == b)
  }

  lemma CountedInTurn(counts: map<int, nat>, counts1: map<int, nat>, counts2: map<int, nat>, ids1: map<string, int>,
                      ids2: map<string, int>, whole: Stmt, a: Stmt, b: Stmt, top: Option<int>)
    requires MadeOf(whole, a, b) && Grows(ids1, ids2)
    requires ChildrenCounted(counts, counts1, ids1, a, top) && ChildrenCounted(counts1, counts2, ids2, b, top)
    ensures ChildrenCounted(counts, counts2, ids2, whole, top)
  {
    forall x ensures CountedAt(counts, counts2, ids2, whole, top, x) {
      assert CountedAt(counts, counts1, ids1, a, top, x) && CountedAt(counts1, counts2, ids2, b, top, x);
      assert MakesId(ids1, a, x) ==> MakesId(ids2, a, x) ==> MakesId(ids2, whole, x);
      assert MakesId(ids2, b, x) ==> MakesId(ids2, whole, x);
    }
  }

  function CountOf(counts: map<int, nat>, id: int): nat {
    if id in counts then counts[id] else 0
  }

  /** The count of `top` is one more. */
  ghost predicate ChildCounted(counts: map<int, nat>, counts': map<int, nat>, top: Option<int>) {
    forall x {:trigger CountOf(counts', x)} ::
      CountOf(counts', x) == CountOf(counts, x) + if top == Some(x) then 1 else 0
  }

  lemma GuardCounts(qs: seq<LoopRequest>, body: Stmt)
    ensures var guarded := Between(Incr, body, Decr);
            && TaskNames(guarded) == TaskNames(body) && Tasks(guarded) == Tasks(body)
            && DirectTasks(guarded) == DirectTasks(body)
            && Produced(guarded) == Produced(body) && LoopNames(qs, guarded) == LoopNames(qs, body)
  {
    var rest := Block(body, Call(Decr));
    assert Tasks(rest) == Tasks(body) && DirectTasks(rest) == DirectTasks(body);
    assert Produced(Call(Decr)) == {} && LoopNames(qs, Call(Decr)) == [];
    assert Produced(rest) == Produced(body);
    assert LoopNames(qs, rest) == LoopNames(qs, body) + [];
    assert LoopNames(qs, Between(Incr, body, Decr)) == [] + LoopNames(qs, rest);
    assert TaskNames(rest) == TaskNames(body) + [] == TaskNames(body);
    assert TaskNames(Between(Incr, body, Decr)) == [] + TaskNames(rest);
  }

  /** The guard around a loop body passes through the rewriting. */
  lemma GuardProbed(r: Requests, ids: map<string, int>, ctx: Context, before: seq<string>, body: Stmt, out: Stmt)
    requires Probed(r, ids, ctx, before, Between(Incr, body, Decr), out)
    ensures out.Block? && out.rest.Block? && out == Between(Incr, out.rest.first, Decr)
    ensures Probed(r, ids, ctx, before, body, out.rest.first)
  {
    assert before + LoopNames(r.loops, Call(Incr)) == before;
    assert Probed(r, ids, ctx, before, Call(Incr), out.first);
    assert Probed(r, ids, ctx, before, Block(body, Call(Decr)), out.rest);
  }

  /** The body of a task is rewritten, and the task will set the current Func to `idx`. */
  ghost predicate BodyProbed(r: Requests, ids: map<string, int>, ctx: Context, before: seq<string>, name: string,
                             isProducer: bool, idx: int, body: Stmt, body': Stmt)
  {
    if isProducer
    then Normalize(name) in ids && idx == ids[Normalize(name)]
      && Probed(r, ids, Inside(r, ids, ctx, name, true), before, body, body')
    else idx == ctx.id && Probed(r, ids, ctx, before, body, body')
  }

  /** What the counts are after the body of a task. */
  ghost predicate BodyCounted(counts: map<int, nat>, counts': map<int, nat>, ids: map<string, int>, isProducer: bool,
                              idx: int, body: Stmt, top: Option<int>)
  {
    forall x {:trigger BodyCountedAt(counts, counts', ids, isProducer, idx, body, top, x)} ::
      BodyCountedAt(counts, counts', ids, isProducer, idx, body, top, x)
  }

  ghost predicate BodyCountedAt(counts: map<int, nat>, counts': map<int, nat>, ids: map<string, int>,
                                isProducer: bool, idx: int, body: Stmt, top: Option<int>, x: int)
  {
    !MakesId(ids, body, x) ==>
      CountOf(counts', x) ==
        if isProducer then (if x == idx then DirectTasks(body) else CountOf(counts, x))
        else CountOf(counts, x) + if top == Some(x) then DirectTasks(body) else 0
  }

  lemma BodyGrows(r: Requests, ids: map<string, int>, ids': map<string, int>, ctx: Context, before: seq<string>,
                  name: string, isProducer: bool, idx: int, body: Stmt, body': Stmt, counts: map<int, nat>,
                  counts': map<int, nat>, top: Option<int>)
    requires Grows(ids, ids') && Normalize(name) in ids'
    requires BodyProbed(r, ids, ctx, before, name, isProducer, idx, body, body')
    requires BodyCounted(counts, counts', ids, isProducer, idx, body, top)
    ensures Probed(r, ids', Inside(r, ids', ctx, name, isProducer), before, body, body')
    ensures isProducer ==> idx == ids'[Normalize(name)]
    ensures !isProducer ==> idx == ctx.id
    ensures BodyCounted(counts, counts', ids', isProducer, idx, body, top)
  {
    ProbedGrows(r, ids, ids', if isProducer then Inside(r, ids, ctx, name, true) else ctx, before, body, body');
    forall x ensures BodyCountedAt(counts, counts', ids', isProducer, idx, body, top, x) {
      assert BodyCountedAt(counts, counts', ids, isProducer, idx, body, top, x);
    }
  }

  lemma TaskProbed(r: Requests, ids: map<string, int>, ctx: Context, before: seq<string>, name: string,
                   isProducer: bool, body: Stmt, w: Wrapping, out: Stmt)
    requires out == WrapTask(w, name, isProducer, ctx) && Wraps(r, ids, ctx, name, isProducer, body, w)
    requires Probed(r, ids, Inside(r, ids, ctx, name, isProducer), before, body, w.body)
    ensures Probed(r, ids, ctx, before, ProducerConsumer(name, isProducer, body), out)
  {
  }

  /** A task adds one, and a consume step the tasks in its body as well. */
  lemma TaskCounted(counts: map<int, nat>, counts1: map<int, nat>, counts2: map<int, nat>, ids: map<string, int>,
                    name: string, isProducer: bool, idx: int, body: Stmt, top: Option<int>)
    requires IdsValid(ids) && Normalize(name) in ids && (isProducer ==> idx == ids[Normalize(name)])
    requires ChildCounted(counts, counts1, top)
    requires BodyCounted(counts1, counts2, ids, isProducer, idx, body, top)
    ensures ChildrenCounted(counts, counts2, ids, ProducerConsumer(name, isProducer, body), top)
    ensures isProducer && Normalize(name) !in Produced(body) ==> CountOf(counts2, idx) == DirectTasks(body)
  {
    var task := ProducerConsumer(name, isProducer, body);
    forall x ensures CountedAt(counts, counts2, ids, task, top, x) {
      assert BodyCountedAt(counts1, counts2, ids, isProducer, idx, body, top, x);
      assert Produced(task) == (if isProducer then {Normalize(name)} else {}) + Produced(body);
      assert MakesId(ids, body, x) ==> MakesId(ids, task, x);
      if isProducer {
        assert Normalize(name) in Produced(task);
      }
      assert CountOf(counts1, x) == CountOf(counts, x) + if top == Some(x) then 1 else 0;
    }
    if isProducer && Normalize(name) !in Produced(body) {
      assert BodyCountedAt(counts1, counts2, ids, isProducer, idx, body, top, idx);
      assert forall n :: n in Produced(body) && n in ids ==> !SameId(ids, n, Normalize(name));
      assert !MakesId(ids, body, idx);
    }
  }

  lemma ProducedCounted(counts: map<int, nat>, counts1: map<int, nat>, counts2: map<int, nat>, ids: map<string, int>,
                        idx: int, body: Stmt, top: Option<int>)
    requires forall x {:trigger CountOf(counts1, x)} ::
               CountOf(counts1, x) == if x == idx then 0 else CountOf(counts, x)
    requires ChildrenCounted(counts1, counts2, ids, body, Some(idx))
    ensures BodyCounted(counts, counts2, ids, true, idx, body, top)
  {
    forall x ensures BodyCountedAt(counts, counts2, ids, true, idx, body, top, x) {
      assert CountedAt(counts1, counts2, ids, body, Some(idx), x);
    }
  }

  lemma CountsOfEqual(counts: map<int, nat>, counts': map<int, nat>, ids: map<string, int>, s: Stmt, t: Stmt,
                      top: Option<int>)
    requires ChildrenCounted(counts, counts', ids, s, top) && Produced(s) == Produced(t)
             && DirectTasks(s) == DirectTasks(t)
    ensures ChildrenCounted(counts, counts', ids, t, top)
  {
    forall x ensures CountedAt(counts, counts', ids, t, top, x) {
      assert CountedAt(counts, counts', ids, s, top, x);
    }
  }

  lemma NothingCounted(counts: map<int, nat>, ids: map<string, int>, s: Stmt, top: Option<int>)
    requires DirectTasks(s) == 0
    ensures ChildrenCounted(counts, counts, ids, s, top)
  {
    forall x ensures CountedAt(counts, counts, ids, s, top, x) {
    }
  }

  lemma ConsumedCounted(counts: map<int, nat>, counts': map<int, nat>, ids: map<string, int>, idx: int, body: Stmt,
                        top: Option<int>)
    requires ChildrenCounted(counts, counts', ids, body, top)
    ensures BodyCounted(counts, counts', ids, false, idx, body, top)
  {
    forall x ensures BodyCountedAt(counts, counts', ids, false, idx, body, top, x) {
      assert CountedAt(counts, counts', ids, body, top, x);
    }
  }

  lemma FreshId(ids: map<string, int>, name: string)
    requires IdsValid(ids) && name !in ids
    ensures IdsValid(ids[name := |ids|]) && Grows(ids, ids[name := |ids|])
  {
    var ids' := ids[name := |ids|];
    forall m, n | m in ids' && n in ids' && SameId(ids', m, n) ensures m == n {
      if m in ids && n in ids {
        assert SameId(ids, m, n);
      }
    }
    forall i | 0 <= i < |ids'| ensures Taken(ids', i) {
      if i < |ids| {
        assert Taken(ids, i);
        var n :| n in ids && ids[n] == i;
        assert ids'[n] == i;
      } else {
        assert ids'[name] == i;
      }
    }
  }

  /** A rewritten loop, and the names of the loops in it. */
  lemma LoopFinished(r: Requests, ids: map<string, int>, ctx: Context, before: seq<string>, n: string, p: bool,
                     d: Device, b: Stmt, b': Stmt)
    requires d == Offload || Probed(r, ids, ctx, before, b, b')
    ensures var inner := if d == Offload then [] else LoopNames(r.loops, b);
            && before + LoopNames(r.loops, For(n, p, d, b)) ==
              before + inner + (if FirstLoopRequest(r.loops, n).Some? then [n] else [])
            && Probed(r, ids, ctx, before, For(n, p, d, b),
                      WrapLoop(For(n, p, d, if d == Offload then b else LoopBody(p, d, b')),
                        LoopId(r.loops, before + inner, n), CountsThreads(p, d)))
  {
    assert before + [] == before;
  }

  /** The tables of loops are those of the loops met. */
  ghost predicate LoopsNumbered(qs: seq<LoopRequest>, loops: map<string, int>, flags: map<int, bool>, met: seq<string>)
  {
    && loops == LoopTable(met) && loops.Keys == NameSet(met) && flags.Keys == LoopIdSet(met)
    && forall id :: id in flags ==> LastAsked(qs, met, id) == Some(flags[id])
  }

  lemma OneMoreLoop(qs: seq<LoopRequest>, loops: map<string, int>, flags: map<int, bool>, met: seq<string>,
                    name: string)
    requires LoopsNumbered(qs, loops, flags, met) && FirstLoopRequest(qs, name).Some?
    ensures LoopsNumbered(qs, loops[name := |loops|],
                          flags[|loops| := FirstLoopRequest(qs, name).value.showThreads], met + [name])
  {
    assert (met + [name])[..|met|] == met;
    OneMoreName(met, name);
  }

  lemma ShowsInTurn(r: Requests, around: string, mark: Option<Mark>, whole: Stmt, a: Stmt, b: Stmt,
                    first: seq<bool>, second: seq<bool>)
    requires MadeOf(whole, a, b) && |first| == |TaskNames(a)|
    requires Shows(r, around, mark, a, first) && Shows(r, around, mark, b, second)
    ensures Shows(r, around, mark, whole, first + second)
  {
    var flags := first + second;
    assert flags[..|first|] == first && flags[|first|..] == second;
  }

  lemma ShowsTask(r: Requests, ctx: Context, name: string, isProducer: bool, body: Stmt, flags: seq<bool>, mark: Mark)
    requires Decided(r, ctx, name, isProducer, mark)
    requires Shows(r, if isProducer then Normalize(name) else ctx.name,
                   if isProducer then Some(Explicit(r, ctx, name, isProducer)) else ctx.mark, body, flags)
    ensures Shows(r, ctx.name, ctx.mark, ProducerConsumer(name, isProducer, body), flags + [mark.threads])
  {
    var all := flags + [mark.threads];
    assert all[..|all| - 1] == flags;
    assert Decided(r, Context(0, ctx.name, ctx.mark), name, isProducer, Mark(mark.profile, mark.threads));
  }

  /** The calls that count threads are no tasks. */
  lemma GuardShows(r: Requests, around: string, mark: Option<Mark>, body: Stmt, flags: seq<bool>)
    requires Shows(r, around, mark, Between(Incr, body, Decr), flags)
    ensures Shows(r, around, mark, body, flags)
  {
    var rest := flags[0..];
    assert Shows(r, around, mark, Block(body, Call(Decr)), rest) && rest == flags;
    var n := |TaskNames(body)|;
    assert n <= |rest| && Shows(r, around, mark, body, rest[..n]) && Shows(r, around, mark, Call(Decr), rest[n..]);
    assert rest[..n] == flags;
  }

  class InjectPAPIProfiling {
    const requests: Requests
    var indices: map<string, int>
    var loops: map<string, int>
    var showThreadsProd: map<int, bool>
    var showThreadsCons: map<int, bool>
    var showThreadsLoop: map<int, bool>
    var stack: seq<int>
    var profileStack: seq<Mark>
    var funcChildrens: map<int, nat>
    /** The names of the profiled loops met so far, and the tasks done with. */
    ghost var met: seq<string>
    ghost var done: seq<TaskName>
    /** What was decided about showing their threads. */
    ghost var shown: seq<bool>

    constructor (requests: Requests)
      ensures Valid() && this.requests == requests
      ensures indices == map["overhead" := 0] && loops == map[] && stack == [0] && profileStack == [] && met == []
              && done == [] && shown == []
    {
      assert Taken(map["overhead" := 0], 0) by {
        assert "overhead" in map["overhead" := 0];
      }
      this.requests := requests;
      indices, loops := map["overhead" := 0], map[];
      showThreadsProd, showThreadsCons, showThreadsLoop := map[], map[], map[];
      stack, profileStack, funcChildrens := [0], [], map[];
      met, done, shown := [], [], [];
    }

    /** Func ids are distinct and below their number; the flags are those of the tasks that the pass is done with. */
    ghost predicate Valid()
      reads this
    {
      && IdsValid(indices)
      && AllNamed(indices, done) && |shown| == |done|
      && FlagsOf(indices, showThreadsProd, done, shown, true) && FlagsOf(indices, showThreadsCons, done, shown, false)
      && LoopsNumbered(requests.loops, loops, showThreadsLoop, met)
      && |stack| == |profileStack| + 1
    }

    /** The pass stands inside the task that `ctx` describes. */
    ghost predicate At(ctx: Context)
      reads this
      requires |stack| == |profileStack| + 1
    {
      && ctx.name in indices && indices[ctx.name] == ctx.id == stack[|stack| - 1]
      && (|stack| == 1 ==> ctx.id == 0)
      && ctx.mark == if profileStack == [] then None else Some(profileStack[|profileStack| - 1])
    }

    /** The id of a Func, new Funcs getting the next free one. */
    method GetFuncId(name: string) returns (idx: int)
      requires Valid()
      modifies `indices
      ensures Valid() && Grows(old(indices), indices)
      ensures Normalize(name) in indices && idx == indices[Normalize(name)]
      ensures Normalize(name) in old(indices) ==> indices == old(indices)
    {
      var normName := Normalize(name);
      if normName !in indices {
        FreshId(indices, normName);
        idx := |indices|;
        FlagsGrow(indices, normName, showThreadsProd, done, shown, true);
        FlagsGrow(indices, normName, showThreadsCons, done, shown, false);
        indices := indices[normName := idx];
      } else {
        idx := indices[normName];
      }
    }

    /** The name of the enclosing produce step, looked up by its id. */
    method ParentName(ghost ctx: Context) returns (name: string)
      requires Valid() && At(ctx)
      ensures name == ctx.name
    {
      var parent := if |stack| > 1 then stack[|stack| - 1] else 0;
      name := "";
      var names := indices.Keys;
      while names != {}
        invariant names <= indices.Keys
        invariant ctx.name in names || name == ctx.name
        decreases |names|
      {
        var n :| n in names;
        if indices[n] == parent {
          assert SameId(indices, n, ctx.name);
          name := n;
        }
        names := names - {n};
      }
    }

    /** Whether a request concerns the task, and the mark it asks for. */
    method RequestFor(name: string, isProducer: bool, ghost ctx: Context) returns (requested: bool, mark: Mark)
      requires Valid() && At(ctx)
      ensures requested == FirstRequest(requests.funcs, name, isProducer, ctx.name).Some?
      ensures mark == Explicit(requests, ctx, name, isProducer)
      ensures requested ==> Decided(requests, ctx, name, isProducer, mark)
    {
      var parent := ParentName(ctx);
      var request := FirstRequest(requests.funcs, name, isProducer, parent);
      requested := request.Some?;
      mark := Mark(false, false);
      if requested {
        mark := Mark(request.value.enable, request.value.enable && request.value.showThreads);
      }
    }

    /** One more task directly inside the enclosing produce step. */
    method CountChild(ghost ctx: Context)
      requires Valid() && At(ctx)
      modifies `funcChildrens
      ensures ChildCounted(old(funcChildrens), funcChildrens, Top(ctx))
    {
      if |stack| > 1 {
        var top := stack[|stack| - 1];
        funcChildrens := funcChildrens[top := CountOf(funcChildrens, top) + 1];
      }
    }

    /** What a task without a request inherits; with nothing to inherit from, any mark. */
    method Inherited(name: string, isProducer: bool, ghost ctx: Context) returns (mark: Mark)
      requires Valid() && At(ctx) && FirstRequest(requests.funcs, name, isProducer, ctx.name).None?
      ensures Decided(requests, ctx, name, isProducer, mark)
    {
      var top: Mark := *;
      if profileStack != [] {
        top := profileStack[|profileStack| - 1];
      }
      mark := Mark(top.profile, top.profile && top.threads);
    }

    method ShowThreads(name: string, isProducer: bool, threads: bool)
      requires Valid() && Normalize(name) in indices
      modifies `indices, `showThreadsProd, `showThreadsCons, `done, `shown
      ensures Valid() && indices == old(indices) && done == old(done) + [TaskName(Normalize(name), isProducer)]
      ensures shown == old(shown) + [threads]
    {
      var fid := GetFuncId(name);
      ghost var t := TaskName(Normalize(name), isProducer);
      FlagsAppend(indices, showThreadsProd, done, shown, true, t, threads);
      FlagsAppend(indices, showThreadsCons, done, shown, false, t, threads);
      if isProducer {
        showThreadsProd := showThreadsProd[fid := threads];
      } else {
        showThreadsCons := showThreadsCons[fid := threads];
      }
      done, shown := done + [t], shown + [threads];
    }

    /** Rewrites a statement. */
    method Mutate(s: Stmt, ghost ctx: Context) returns (out: Stmt, ghost flags: seq<bool>)
      requires Valid() && At(ctx)
      modifies this
      ensures Valid() && At(ctx) && stack == old(stack) && profileStack == old(profileStack)
      ensures Grows(old(indices), indices) && met == old(met) + LoopNames(requests.loops, s)
      ensures done == old(done) + TaskNames(s)
      ensures shown == old(shown) + flags && Shows(requests, ctx.name, ctx.mark, s, flags)
      ensures Probed(requests, indices, ctx, old(met), s, out)
      ensures ChildrenCounted(old(funcChildrens), funcChildrens, indices, s, Top(ctx))
      decreases Tasks(s), s
    {
      flags := [];
      match s
      case Leaf(_) =>
        out := s;
        NothingCounted(funcChildrens, indices, s, Top(ctx));
      case Call(_) =>
        out := s;
        NothingCounted(funcChildrens, indices, s, Top(ctx));
      case Block(a, b) =>
        var a', b';
        a', b', flags := MutateBoth(s, a, b, ctx);
        out := Block(a', b');
      case Scope(t, b) =>
        var b';
        b', flags := Mutate(b, ctx);
        out := Scope(t, b');
        CountsOfEqual(old(funcChildrens), funcChildrens, indices, b, s, Top(ctx));
      case If(c, a, b) =>
        var a', b';
        a', b', flags := MutateBoth(s, a, b, ctx);
        out := If(c, a', b');
      case ProducerConsumer(n, p, b) => out, flags := MutateTask(n, p, b, ctx);
      case For(n, p, d, b) => out, flags := MutateLoop(n, p, d, b, ctx);
      case RemoteState(b) =>
        var b';
        b', flags := Mutate(b, ctx);
        out := RemoteState(b');
        CountsOfEqual(old(funcChildrens), funcChildrens, indices, b, s, Top(ctx));
    }

    method MutateBoth(ghost whole: Stmt, a: Stmt, b: Stmt, ghost ctx: Context)
      returns (a': Stmt, b': Stmt, ghost flags: seq<bool>)
      requires Valid() && At(ctx) && MadeOf(whole, a, b)
      modifies this
      ensures Valid() && At(ctx) && stack == old(stack) && profileStack == old(profileStack)
      ensures Grows(old(indices), indices)
      ensures met == old(met) + (LoopNames(requests.loops, a) + LoopNames(requests.loops, b))
      ensures done == old(done) + (TaskNames(a) + TaskNames(b))
      ensures shown == old(shown) + flags && Shows(requests, ctx.name, ctx.mark, whole, flags)
      ensures Probed(requests, indices, ctx, old(met), a, a')
      ensures Probed(requests, indices, ctx, old(met) + LoopNames(requests.loops, a), b, b')
      ensures ChildrenCounted(old(funcChildrens), funcChildrens, indices, whole, Top(ctx))
      decreases Tasks(whole), whole, 0
    {
      ghost var first, second;
      a', first := Mutate(a, ctx);
      ghost var ids, counts := indices, funcChildrens;
      b', second := Mutate(b, ctx);
      flags := first + second;
      AppendTwice(old(shown), first, second);
      ShowsInTurn(requests, ctx.name, ctx.mark, whole, a, b, first, second);
      AppendTwice(old(met), LoopNames(requests.loops, a), LoopNames(requests.loops, b));
      AppendTwice(old(done), TaskNames(a), TaskNames(b));
      ProbedGrows(requests, ids, indices, ctx, old(met), a, a');
      CountedInTurn(old(funcChildrens), counts, funcChildrens, ids, indices, whole, a, b, Top(ctx));
    }

    /** `visit(const ProducerConsumer *)`. */
    method MutateTask(name: string, isProducer: bool, body: Stmt, ghost ctx: Context)
      returns (out: Stmt, ghost flags: seq<bool>)
      requires Valid() && At(ctx)
      modifies this
      ensures Valid() && At(ctx) && stack == old(stack) && profileStack == old(profileStack)
      ensures Grows(old(indices), indices) && met == old(met) + LoopNames(requests.loops, body)
      ensures done == old(done) + TaskNames(ProducerConsumer(name, isProducer, body))
      ensures shown == old(shown) + flags
      ensures Shows(requests, ctx.name, ctx.mark, ProducerConsumer(name, isProducer, body), flags)
      ensures Probed(requests, indices, ctx, old(met), ProducerConsumer(name, isProducer, body), out)
      ensures ChildrenCounted(old(funcChildrens), funcChildrens, indices, ProducerConsumer(name, isProducer, body),
                              Top(ctx))
      decreases 1 + Tasks(body), ProducerConsumer(name, isProducer, body), 2
    {
      var idx, body', mark;
      ghost var counts;
      idx, body', mark, flags, counts := MutateMarked(name, isProducer, body, ctx);
      out := FinishTask(name, isProducer, idx, body', mark, body, old(met), old(funcChildrens), counts, ctx);
      AppendTwice(old(done), TaskNames(body), [TaskName(Normalize(name), isProducer)]);
      AppendTwice(old(shown), flags, [mark.threads]);
      ShowsTask(requests, ctx, name, isProducer, body, flags, mark);
      flags := flags + [mark.threads];
    }

    /** The first part: the mark of a task and its rewritten body. */
    method MutateMarked(name: string, isProducer: bool, body: Stmt, ghost ctx: Context)
      returns (idx: int, body': Stmt, mark: Mark, ghost flags: seq<bool>, ghost counts: map<int, nat>)
      requires Valid() && At(ctx)
      modifies this
      ensures Valid() && At(ctx) && stack == old(stack) && profileStack == old(profileStack)
      ensures Grows(old(indices), indices) && met == old(met) + LoopNames(requests.loops, body)
      ensures done == old(done) + TaskNames(body) && shown == old(shown) + flags
      ensures Decided(requests, ctx, name, isProducer, mark)
      ensures Shows(requests, if isProducer then Normalize(name) else ctx.name,
                    if isProducer then Some(Explicit(requests, ctx, name, isProducer)) else ctx.mark, body, flags)
      ensures BodyProbed(requests, indices, ctx, old(met), name, isProducer, idx, body, body')
      ensures ChildCounted(old(funcChildrens), counts, Top(ctx))
      ensures BodyCounted(counts, funcChildrens, indices, isProducer, idx, body, Top(ctx))
      decreases 1 + Tasks(body), ProducerConsumer(name, isProducer, body), 1
    {
      var requested;
      requested, mark := RequestFor(name, isProducer, ctx);
      CountChild(ctx);
      counts := funcChildrens;
      idx, body', flags := MutateTaskBody(name, isProducer, body, mark, ctx);
      if !requested {
        mark := Inherited(name, isProducer, ctx);
      }
    }

    /** The last part of `visit(const ProducerConsumer *)`: emits the calls for a task whose body is rewritten. */
    method FinishTask(name: string, isProducer: bool, idx: int, body': Stmt, mark: Mark, ghost body: Stmt,
                      ghost before: seq<string>, ghost counts0: map<int, nat>, ghost counts: map<int, nat>,
                      ghost ctx: Context)
      returns (out: Stmt)
      requires Valid() && At(ctx) && Decided(requests, ctx, name, isProducer, mark)
      requires BodyProbed(requests, indices, ctx, before, name, isProducer, idx, body, body')
      requires ChildCounted(counts0, counts, Top(ctx))
      requires BodyCounted(counts, funcChildrens, indices, isProducer, idx, body, Top(ctx))
      modifies `indices, `showThreadsProd, `showThreadsCons, `done, `shown
      ensures Valid() && At(ctx) && Grows(old(indices), indices)
      ensures done == old(done) + [TaskName(Normalize(name), isProducer)] && shown == old(shown) + [mark.threads]
      ensures Probed(requests, indices, ctx, before, ProducerConsumer(name, isProducer, body), out)
      ensures ChildrenCounted(counts0, funcChildrens, indices, ProducerConsumer(name, isProducer, body), Top(ctx))
    {
      out := WrapBody(name, isProducer, idx, body', mark, body, before, counts0, counts, ctx);
      ghost var ids, children := indices, funcChildrens;
      ShowThreads(name, isProducer, mark.threads);
      assert indices == ids && funcChildrens == children;
    }

    method WrapBody(name: string, isProducer: bool, idx: int, body': Stmt, mark: Mark, ghost body: Stmt,
                    ghost before: seq<string>, ghost counts0: map<int, nat>, ghost counts: map<int, nat>,
                    ghost ctx: Context)
      returns (out: Stmt)
      requires Valid() && At(ctx) && Decided(requests, ctx, name, isProducer, mark)
      requires BodyProbed(requests, indices, ctx, before, name, isProducer, idx, body, body')
      requires ChildCounted(counts0, counts, Top(ctx))
      requires BodyCounted(counts, funcChildrens, indices, isProducer, idx, body, Top(ctx))
      modifies `indices
      ensures Valid() && At(ctx) && Grows(old(indices), indices) && Normalize(name) in indices
      ensures Probed(requests, indices, ctx, before, ProducerConsumer(name, isProducer, body), out)
      ensures ChildrenCounted(counts0, funcChildrens, indices, ProducerConsumer(name, isProducer, body), Top(ctx))
    {
      ghost var ids := indices;
      var funcId := GetFuncId(name);
      BodyGrows(requests, ids, indices, ctx, before, name, isProducer, idx, body, body', counts, funcChildrens,
        Top(ctx));
      TaskCounted(counts0, counts, funcChildrens, indices, name, isProducer, idx, body, Top(ctx));
      var overhead := isProducer && CountOf(funcChildrens, idx) > 0;
      out := Emit(Wrapping(funcId, idx, mark, overhead, body'), name, isProducer, ctx);
      TaskProbed(requests, indices, ctx, before, name, isProducer, body, Wrapping(funcId, idx, mark, overhead, body'),
        out);
    }

    /** The calls around a task, for the produce step on top of the stacks. */
    method Emit(w: Wrapping, name: string, isProducer: bool, ghost ctx: Context) returns (out: Stmt)
      requires |stack| == |profileStack| + 1 && At(ctx)
      ensures out == WrapTask(w, name, isProducer, ctx)
    {
      out := w.body;
      if w.mark.profile {
        if w.overhead {
          out := Between(EnterOverhead(w.taskId), out, LeaveOverhead(w.taskId));
        } else {
          out := Between(Enter(FuncRegion(w.funcId, isProducer)), out, Leave(FuncRegion(w.funcId, isProducer)));
        }
      }
      out := ProducerConsumer(name, isProducer, Block(Call(SetCurrent(w.taskId)), out));
      if w.mark.profile && profileStack != [] {
        var parent := stack[|stack| - 1];
        out := Between(LeaveOverhead(parent), out, EnterOverhead(parent));
      }
    }

    /** The body of a task, inside its produce step if it is one. */
    method MutateTaskBody(name: string, isProducer: bool, body: Stmt, mark: Mark, ghost ctx: Context)
      returns (idx: int, body': Stmt, ghost flags: seq<bool>)
      requires Valid() && At(ctx) && mark == Explicit(requests, ctx, name, isProducer)
      modifies this
      ensures Valid() && At(ctx) && stack == old(stack) && profileStack == old(profileStack)
      ensures Grows(old(indices), indices) && met == old(met) + LoopNames(requests.loops, body)
      ensures done == old(done) + TaskNames(body) && shown == old(shown) + flags
      ensures Shows(requests, if isProducer then Normalize(name) else ctx.name,
                    if isProducer then Some(mark) else ctx.mark, body, flags)
      ensures BodyProbed(requests, indices, ctx, old(met), name, isProducer, idx, body, body')
      ensures BodyCounted(old(funcChildrens), funcChildrens, indices, isProducer, idx, body, Top(ctx))
      decreases 1 + Tasks(body), ProducerConsumer(name, isProducer, body), 0
    {
      if isProducer {
        idx, body', flags := MutateProduced(name, body, mark, ctx);
      } else {
        body', flags := Mutate(body, ctx);
        idx := stack[|stack| - 1];
        ConsumedCounted(old(funcChildrens), funcChildrens, indices, idx, body, Top(ctx));
      }
    }

    method MutateProduced(name: string, body: Stmt, mark: Mark, ghost ctx: Context)
      returns (idx: int, body': Stmt, ghost flags: seq<bool>)
      requires Valid() && At(ctx) && mark == Explicit(requests, ctx, name, true)
      modifies this
      ensures Valid() && At(ctx) && stack == old(stack) && profileStack == old(profileStack)
      ensures Grows(old(indices), indices) && met == old(met) + LoopNames(requests.loops, body)
      ensures done == old(done) + TaskNames(body)
      ensures shown == old(shown) + flags && Shows(requests, Normalize(name), Some(mark), body, flags)
      ensures Normalize(name) in indices && idx == indices[Normalize(name)]
      ensures Probed(requests, indices, Inside(requests, indices, ctx, name, true), old(met), body, body')
      ensures BodyCounted(old(funcChildrens), funcChildrens, indices, true, idx, body, Top(ctx))
      decreases 1 + Tasks(body), body, 0
    {
      idx := EnterProduced(name, mark, ctx);
      ghost var counts := funcChildrens;
      body', flags := Mutate(body, Inside(requests, indices, ctx, name, true));
      LeaveProduced(old(stack), old(profileStack), idx, mark);
      ProducedCounted(old(funcChildrens), counts, funcChildrens, indices, idx, body, Top(ctx));
    }

    method LeaveProduced(ghost below: seq<int>, ghost marksBelow: seq<Mark>, ghost idx: int, ghost mark: Mark)
      requires Valid() && stack == below + [idx] && profileStack == marksBelow + [mark]
      modifies `stack, `profileStack
      ensures Valid() && stack == below && profileStack == marksBelow
    {
      stack := stack[..|stack| - 1];
      profileStack := profileStack[..|profileStack| - 1];
    }

    method EnterProduced(name: string, mark: Mark, ghost ctx: Context) returns (idx: int)
      requires Valid() && At(ctx) && mark == Explicit(requests, ctx, name, true)
      modifies `indices, `funcChildrens, `stack, `profileStack
      ensures Valid() && Grows(old(indices), indices) && Normalize(name) in indices && idx == indices[Normalize(name)]
      ensures At(Inside(requests, indices, ctx, name, true))
      ensures stack == old(stack) + [idx] && profileStack == old(profileStack) + [mark]
      ensures forall x {:trigger CountOf(funcChildrens, x)} ::
                CountOf(funcChildrens, x) == if x == idx then 0 else CountOf(old(funcChildrens), x)
    {
      idx := GetFuncId(name);
      funcChildrens := funcChildrens[idx := 0];
      profileStack := profileStack + [mark];
      stack := stack + [idx];
    }

    /** The rewritten body of a loop, each iteration counted as a thread if the loop launches threads. */
    method MutateLoopBody(countsThreads: bool, body: Stmt, ghost ctx: Context)
      returns (out: Stmt, ghost flags: seq<bool>)
      requires Valid() && At(ctx)
      modifies this
      ensures Valid() && At(ctx) && stack == old(stack) && profileStack == old(profileStack)
      ensures Grows(old(indices), indices) && met == old(met) + LoopNames(requests.loops, body)
      ensures done == old(done) + TaskNames(body)
      ensures shown == old(shown) + flags && Shows(requests, ctx.name, ctx.mark, body, flags)
      ensures countsThreads ==> out.Block? && out.rest.Block? && out == Between(Incr, out.rest.first, Decr)
      ensures Probed(requests, indices, ctx, old(met), body, if countsThreads then out.rest.first else out)
      ensures ChildrenCounted(old(funcChildrens), funcChildrens, indices, body, Top(ctx))
      decreases 1 + Tasks(body), body, 0
    {
      GuardCounts(requests.loops, body);
      out, flags := Mutate(if countsThreads then Between(Incr, body, Decr) else body, ctx);
      if countsThreads {
        GuardShows(requests, ctx.name, ctx.mark, body, flags);
        GuardProbed(requests, indices, ctx, old(met), body, out);
        CountsOfEqual(old(funcChildrens), funcChildrens, indices, Between(Incr, body, Decr), body, Top(ctx));
      }
    }

    /** `visit(const For *)`. */
    method MutateLoop(name: string, parallel: bool, device: Device, body: Stmt, ghost ctx: Context)
      returns (out: Stmt, ghost flags: seq<bool>)
      requires Valid() && At(ctx)
      modifies this
      ensures Valid() && At(ctx) && stack == old(stack) && profileStack == old(profileStack)
      ensures Grows(old(indices), indices)
              && met == old(met) + LoopNames(requests.loops, For(name, parallel, device, body))
      ensures done == old(done) + TaskNames(For(name, parallel, device, body)) && shown == old(shown) + flags
      ensures Shows(requests, ctx.name, ctx.mark, For(name, parallel, device, body), flags)
      ensures Probed(requests, indices, ctx, old(met), For(name, parallel, device, body), out)
      ensures ChildrenCounted(old(funcChildrens), funcChildrens, indices, For(name, parallel, device, body),
                              Top(ctx))
      decreases 1 + Tasks(body), For(name, parallel, device, body), 1
    {
      var inner;
      ghost var body';
      inner, body', flags := MutateIfEntered(name, parallel, device, body, ctx);
      out := FinishLoop(For(name, parallel, device, inner), name, device == Hexagon || parallel);
      LoopFinished(requests, indices, ctx, old(met), name, parallel, device, body, body');
    }

    /** The body of a loop, rewritten unless the loop runs on another device. */
    method MutateIfEntered(ghost name: string, parallel: bool, device: Device, body: Stmt, ghost ctx: Context)
      returns (inner: Stmt, ghost body': Stmt, ghost flags: seq<bool>)
      requires Valid() && At(ctx)
      modifies this
      ensures Valid() && At(ctx) && stack == old(stack) && profileStack == old(profileStack)
      ensures Grows(old(indices), indices)
      ensures met == old(met) + if device == Offload then [] else LoopNames(requests.loops, body)
      ensures done == old(done) + TaskNames(For(name, parallel, device, body)) && shown == old(shown) + flags
      ensures Shows(requests, ctx.name, ctx.mark, For(name, parallel, device, body), flags)
      ensures inner == if device == Offload then body else LoopBody(parallel, device, body')
      ensures device != Offload ==> Probed(requests, indices, ctx, old(met), body, body')
      ensures ChildrenCounted(old(funcChildrens), funcChildrens, indices, For(name, parallel, device, body), Top(ctx))
      decreases 1 + Tasks(body), For(name, parallel, device, body), 0
    {
      if device == Offload {
        inner, body', flags := body, body, [];
        NothingCounted(funcChildrens, indices, For(name, parallel, device, body), Top(ctx));
        assert met == old(met) + [] && done == old(done) + [] && shown == old(shown) + flags;
      } else {
        inner, body', flags := MutateEntered(name, parallel, device, body, ctx);
      }
    }

    /** The body of a loop that the pass enters. */
    method MutateEntered(ghost name: string, parallel: bool, device: Device, body: Stmt, ghost ctx: Context)
      returns (inner: Stmt, ghost body': Stmt, ghost flags: seq<bool>)
      requires Valid() && At(ctx) && device != Offload
      modifies this
      ensures Valid() && At(ctx) && stack == old(stack) && profileStack == old(profileStack)
      ensures Grows(old(indices), indices) && met == old(met) + LoopNames(requests.loops, body)
      ensures done == old(done) + TaskNames(body)
      ensures shown == old(shown) + flags && Shows(requests, ctx.name, ctx.mark, body, flags)
      ensures inner == LoopBody(parallel, device, body') && Probed(requests, indices, ctx, old(met), body, body')
      ensures ChildrenCounted(old(funcChildrens), funcChildrens, indices, For(name, parallel, device, body), Top(ctx))
      decreases 1 + Tasks(body), body, 1
    {
      inner, flags := MutateLoopBody(device == Hexagon || parallel, body, ctx);
      body' := if device == Hexagon || parallel then inner.rest.first else inner;
      if device == Hexagon {
        inner := RemoteState(inner);
      }
      CountsOfEqual(old(funcChildrens), funcChildrens, indices, body, For(name, parallel, device, body), Top(ctx));
    }

    /** The calls around a loop. */
    method FinishLoop(loop: Stmt, name: string, countsThreads: bool) returns (out: Stmt)
      requires Valid()
      modifies `loops, `showThreadsLoop, `met
      ensures Valid() && met == old(met) + (if FirstLoopRequest(requests.loops, name).Some? then [name] else [])
      ensures out == WrapLoop(loop, LoopId(requests.loops, old(met), name), countsThreads)
    {
      out := loop;
      var request := FirstLoopRequest(requests.loops, name);
      if request.Some? {
        var loopId := |loops|;
        out := Between(Enter(LoopRegion(loopId)), out, Leave(LoopRegion(loopId)));
        OneMoreLoop(requests.loops, loops, showThreadsLoop, met, name);
        loops := loops[name := loopId];
        showThreadsLoop := showThreadsLoop[loopId := request.value.showThreads];
        met := met + [name];
      }
      if countsThreads {
        out := Block(Call(Decr),
          Block(Call(Enter(ParallelRegion)), Block(out, Block(Call(Leave(ParallelRegion)), Call(Incr)))));
      }
    }
  }

  // ----- The instrumented pipeline -----

  const OUTERMOST := Context(0, "overhead", None)

  /** The body of a pipeline after the pass: it counts as one thread itself. */
  ghost predicate Instrumented(r: Requests, ids: map<string, int>, src: Stmt, out: Stmt) {
    && IdsValid(ids) && "overhead" in ids && ids["overhead"] == 0
    && out.Block? && out.rest.Block? && out == Between(Incr, out.rest.first, Decr)
    && Probed(r, ids, OUTERMOST, [], src, out.rest.first)
  }

  /** The tables that the runtime is started with; None is a slot that stays unwritten. */
  datatype Tables = Tables(funcNames: seq<Option<string>>, producing: seq<Option<bool>>, consuming: seq<Option<bool>>,
                           loopNames: seq<Option<string>>, loopThreads: seq<Option<bool>>)

  /**
   A flag is written for the Funcs with a step of the kind, and for no others; it is the one decided about the last
   such step.
   */
  ghost predicate FlagsFor(flags: seq<Option<bool>>, ids: map<string, int>, tasks: seq<TaskName>, shown: seq<bool>,
                           isProducer: bool)
    requires |shown| == |tasks|
  {
    |flags| == |ids|
    && forall n :: n in ids && 0 <= ids[n] < |flags| ==>
         flags[ids[n]] == LastShown(tasks, shown, TaskName(n, isProducer))
  }

  /** Every slot has the name of its id. */
  ghost predicate NamesIds(names: seq<Option<string>>, ids: map<string, int>) {
    |names| == |ids| && forall i :: 0 <= i < |ids| ==>
      names[i].Some? && names[i].value in ids && ids[names[i].value] == i
  }

  /** Exactly the slots of the ids are written, each with a name that has the id. */
  ghost predicate NamesStored(slots: seq<Option<string>>, n: nat, ids: map<string, int>) {
    |slots| == n && forall i :: 0 <= i < n ==>
      && (slots[i].Some? <==> i in ids.Values)
      && (slots[i].Some? ==> slots[i].value in ids && ids[slots[i].value] == i)
  }

  /** `inject_papi_profiling`, with the tables that the runtime reads. */
  method Inject(s: Stmt, requests: Requests)
    returns (out: Stmt, ids: map<string, int>, tables: Tables, numLoops: nat, loops: map<string, int>, pastEnd: bool,
             ghost shown: seq<bool>)
    ensures Instrumented(requests, ids, s, out)
    ensures NamesIds(tables.funcNames, ids)
    ensures |shown| == |TaskNames(s)| && Shows(requests, OUTERMOST.name, None, s, shown)
    ensures FlagsFor(tables.producing, ids, TaskNames(s), shown, true)
    ensures FlagsFor(tables.consuming, ids, TaskNames(s), shown, false)
    ensures numLoops == |NameSet(LoopNames(requests.loops, s))| && loops == LoopTable(LoopNames(requests.loops, s))
    ensures NamesStored(tables.loopNames, numLoops, loops)
    ensures |tables.loopThreads| == numLoops && forall i :: 0 <= i < numLoops ==>
              tables.loopThreads[i] == LastAsked(requests.loops, LoopNames(requests.loops, s), i)
    ensures pastEnd <==> LastIsRepeated(LoopNames(requests.loops, s))
  {
    var pass := new InjectPAPIProfiling(requests);
    var body;
    body, shown := pass.Mutate(s, OUTERMOST);
    assert [] + LoopNames(requests.loops, s) == LoopNames(requests.loops, s) && [] + TaskNames(s) == TaskNames(s);
    assert [] + shown == shown;
    out := Between(Incr, body, Decr);
    ids, numLoops, loops := pass.indices, |pass.loops|, pass.loops;
    tables, pastEnd := FillTables(pass);
  }

  method FillTables(pass: InjectPAPIProfiling) returns (tables: Tables, pastEnd: bool)
    requires pass.Valid()
    ensures NamesIds(tables.funcNames, pass.indices)
    ensures FlagsFor(tables.producing, pass.indices, pass.done, pass.shown, true)
    ensures FlagsFor(tables.consuming, pass.indices, pass.done, pass.shown, false)
    ensures NamesStored(tables.loopNames, |pass.loops|, pass.loops)
    ensures |tables.loopThreads| == |pass.loops| && forall i :: 0 <= i < |pass.loops| ==>
              tables.loopThreads[i] == LastAsked(pass.requests.loops, pass.met, i)
    ensures pastEnd <==> LastIsRepeated(pass.met)
  {
    var funcNames := FillNames(pass.indices);
    var producing := FillFlags(pass.indices, pass.showThreadsProd, pass.done, pass.shown, true);
    var consuming := FillFlags(pass.indices, pass.showThreadsCons, pass.done, pass.shown, false);
    var numLoops := |pass.loops|;
    var loopNames := FillLoopNames(pass.loops, numLoops);
    forall id ensures id in pass.showThreadsLoop <==>
      0 <= id < numLoops || (id == numLoops && LastIsRepeated(pass.met)) {
      LoopIdsAre(pass.met, id);
    }
    var loopThreads;
    loopThreads, pastEnd := FillLoopFlags(pass.showThreadsLoop, numLoops);
    tables := Tables(funcNames, producing, consuming, loopNames, loopThreads);
  }

  /** Stores every flag at its loop's id, in the order of the ids, the last one perhaps past the end of the table. */
  method FillLoopFlags(flags: map<int, bool>, numLoops: nat) returns (slots: seq<Option<bool>>, pastEnd: bool)
    requires forall id :: 0 <= id < numLoops ==> id in flags
    requires forall id :: id in flags ==> 0 <= id <= numLoops
    ensures |slots| == numLoops && forall id :: 0 <= id < numLoops ==> slots[id] == Some(flags[id])
    ensures pastEnd <==> numLoops in flags
  {
    slots, pastEnd := seq(numLoops, _ => None), false;
    for id := 0 to numLoops + 1
      invariant |slots| == numLoops && forall k :: 0 <= k < id && k < numLoops ==> slots[k] == Some(flags[k])
      invariant pastEnd <==> id > numLoops && numLoops in flags
    {
      if id in flags {
        if id < numLoops {
          slots := slots[id := Some(flags[id])];
        } else {
          pastEnd := true;
        }
      }
    }
  }

  /** Stores every flag at its id, in the order of the ids. */
  method FillFlags(ids: map<string, int>, flags: map<int, bool>, ghost tasks: seq<TaskName>, ghost shown: seq<bool>,
                   ghost isProducer: bool)
    returns (slots: seq<Option<bool>>)
    requires |shown| == |tasks| && FlagsOf(ids, flags, tasks, shown, isProducer)
    ensures FlagsFor(slots, ids, tasks, shown, isProducer)
  {
    slots := seq(|ids|, _ => None);
    for id := 0 to |ids|
      invariant |slots| == |ids| && forall k :: 0 <= k < |ids| ==> slots[k] == if k < id then Flag(flags, k) else None
    {
      if id in flags {
        slots := slots[id := Some(flags[id])];
      }
    }
    assert forall n :: n in ids ==> FlagAt(ids, flags, tasks, shown, isProducer, n);
  }

  /** Stores every loop's name at its id; a store past the end leaves the slots alone. */
  method FillLoopNames(loops: map<string, int>, numLoops: nat) returns (names: seq<Option<string>>)
    ensures NamesStored(names, numLoops, loops)
  {
    names := seq(numLoops, _ => None);
    var rest := loops.Keys;
    while rest != {}
      invariant rest <= loops.Keys && |names| == numLoops
      invariant forall i :: 0 <= i < numLoops && names[i].Some? ==>
                  names[i].value in loops && loops[names[i].value] == i
      invariant forall i :: 0 <= i < numLoops ==>
                  (names[i].Some? <==> exists n :: n in loops && n !in rest && loops[n] == i)
      decreases |rest|
    {
      var n :| n in rest;
      if 0 <= loops[n] < numLoops {
        names := names[loops[n] := Some(n)];
      }
      rest := rest - {n};
    }
  }

  /** Stores every name at its id.  No slot stays unwritten. */
  method FillNames(ids: map<string, int>) returns (names: seq<Option<string>>)
    requires IdsValid(ids)
    ensures NamesIds(names, ids)
  {
    names := seq(|ids|, _ => None);
    var rest := ids.Keys;
    while rest != {}
      invariant rest <= ids.Keys && |names| == |ids|
      invariant forall n :: n in ids && n !in rest ==> names[ids[n]] == Some(n)
      decreases |rest|
    {
      var n :| n in rest;
      assert forall m :: m in ids && m != n ==> !SameId(ids, m, n);
      names := names[ids[n] := Some(n)];
      rest := rest - {n};
    }
    forall i | 0 <= i < |ids| ensures names[i].Some? && names[i].value in ids && ids[names[i].value] == i {
      assert Taken(ids, i);
    }
  }
}
