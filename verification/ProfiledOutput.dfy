/** The instrumented program as a text: erasing the probes gives the input back, and ids stay inside the tables. */
module ProfiledOutput {
  import opened Collections
  import opened Names
  import opened ProfiledStmt
  import opened PapiProfiling

  // ----- Erasing -----

  /** Deleting the profiling calls from the output gives the input. */
  lemma ProbesErase(r: Requests, ids: map<string, int>, src: Stmt, out: Stmt)
    requires Instrumented(r, ids, src, out)
    ensures Strip(out) == Strip(src)
  {
    ProbedErases(r, ids, OUTERMOST, [], src, out.rest.first);
    StripBetween(Incr, out.rest.first, Decr);
  }

  lemma {:induction false} ProbedErases(r: Requests, ids: map<string, int>, ctx: Context, before: seq<string>,
                                        src: Stmt, out: Stmt)
    requires Probed(r, ids, ctx, before, src, out)
    ensures Strip(out) == Strip(src)
    decreases src
  {
    match src
    case Leaf(_) =>
    case Call(_) =>
    case Block(a, b) =>
      ProbedErases(r, ids, ctx, before, a, out.first);
      ProbedErases(r, ids, ctx, before + LoopNames(r.loops, a), b, out.rest);
    case Scope(_, b) => ProbedErases(r, ids, ctx, before, b, out.body);
    case If(_, a, b) =>
      ProbedErases(r, ids, ctx, before, a, out.thenCase);
      ProbedErases(r, ids, ctx, before + LoopNames(r.loops, a), b, out.elseCase);
    case ProducerConsumer(n, p, b) =>
      var w := TaskWrapping(r, ids, ctx, before, n, p, b, out);
      ProbedErases(r, ids, Inside(r, ids, ctx, n, p), before, b, w.body);
      StripTask(w, n, p, ctx);
    case For(n, p, d, b) =>
      if d == Offload {
        StripLoop(src, LoopId(r.loops, before, n), p);
      } else {
        var b' := LoopRewriting(r, ids, ctx, before, n, p, d, b, out);
        ProbedErases(r, ids, ctx, before, b, b');
        StripBetween(Incr, b', Decr);
        StripLoop(For(n, p, d, LoopBody(p, d, b')), LoopId(r.loops, before + LoopNames(r.loops, b), n),
          CountsThreads(p, d));
      }
    case RemoteState(b) => ProbedErases(r, ids, ctx, before, b, out.body);
  }

  lemma StripBetween(p: Probe, s: Stmt, q: Probe)
    ensures Strip(Between(p, s, q)) == Strip(s)
  {
    assert Strip(Block(s, Call(q))) == Strip(s) + [];
    assert Strip(Between(p, s, q)) == [] + Strip(Block(s, Call(q)));
  }

  lemma StripTask(w: Wrapping, name: string, isProducer: bool, ctx: Context)
    ensures Strip(WrapTask(w, name, isProducer, ctx)) == [PlainTask(name, isProducer, Strip(w.body))]
  {
    StripBetween(EnterOverhead(w.taskId), w.body, LeaveOverhead(w.taskId));
    StripBetween(Enter(FuncRegion(w.funcId, isProducer)), w.body, Leave(FuncRegion(w.funcId, isProducer)));
    var marked :=
      if !w.mark.profile then w.body
      else if w.overhead then Between(EnterOverhead(w.taskId), w.body, LeaveOverhead(w.taskId))
      else Between(Enter(FuncRegion(w.funcId, isProducer)), w.body, Leave(FuncRegion(w.funcId, isProducer)));
    assert Strip(Block(Call(SetCurrent(w.taskId)), marked)) == [] + Strip(marked) == Strip(w.body);
    StripBetween(LeaveOverhead(ctx.id), ProducerConsumer(name, isProducer, Block(Call(SetCurrent(w.taskId)), marked)),
      EnterOverhead(ctx.id));
  }

  lemma StripLoop(loop: Stmt, id: Option<int>, countsThreads: bool)
    ensures Strip(WrapLoop(loop, id, countsThreads)) == Strip(loop)
  {
    var marked := loop;
    if id.Some? {
      marked := Between(Enter(LoopRegion(id.value)), loop, Leave(LoopRegion(id.value)));
      StripBetween(Enter(LoopRegion(id.value)), loop, Leave(LoopRegion(id.value)));
    }
    if countsThreads {
      var tail := Block(Call(Leave(ParallelRegion)), Call(Incr));
      assert Strip(tail) == [];
      assert Strip(Block(marked, tail)) == Strip(marked);
      assert Strip(Block(Call(Enter(ParallelRegion)), Block(marked, tail))) == Strip(marked);
    }
  }

  // ----- Taking the relation apart -----

  lemma TaskWrapping(r: Requests, ids: map<string, int>, ctx: Context, before: seq<string>, n: string, p: bool, b: Stmt,
                     out: Stmt)
    returns (w: Wrapping)
    requires Probed(r, ids, ctx, before, ProducerConsumer(n, p, b), out)
    ensures out == WrapTask(w, n, p, ctx) && Wraps(r, ids, ctx, n, p, b, w)
    ensures Probed(r, ids, Inside(r, ids, ctx, n, p), before, b, w.body)
  {
    w :| out == WrapTask(w, n, p, ctx) && Wraps(r, ids, ctx, n, p, b, w)
         && Probed(r, ids, Inside(r, ids, ctx, n, p), before, b, w.body);
  }

  lemma LoopRewriting(r: Requests, ids: map<string, int>, ctx: Context, before: seq<string>, n: string, p: bool,
                      d: Device, b: Stmt, out: Stmt)
    returns (b': Stmt)
    requires d != Offload && Probed(r, ids, ctx, before, For(n, p, d, b), out)
    ensures out == WrapLoop(For(n, p, d, LoopBody(p, d, b')), LoopId(r.loops, before + LoopNames(r.loops, b), n),
        CountsThreads(p, d))
    ensures Probed(r, ids, ctx, before, b, b')
  {
    b' :| out == WrapLoop(For(n, p, d, LoopBody(p, d, b')), LoopId(r.loops, before + LoopNames(r.loops, b), n),
      CountsThreads(p, d))
          && Probed(r, ids, ctx, before, b, b');
  }

  // ----- Func ids -----

  /** Every Func id that the output mentions is below the number of Funcs reported to the runtime. */
  lemma FuncIdsInRange(r: Requests, ids: map<string, int>, src: Stmt, out: Stmt)
    requires Instrumented(r, ids, src, out) && Clean(src)
    ensures FuncIdsBelow(out, |ids|)
  {
    ProbedIdsInRange(r, ids, OUTERMOST, [], src, out.rest.first);
  }

  lemma {:induction false} ProbedIdsInRange(r: Requests, ids: map<string, int>, ctx: Context, before: seq<string>,
                                            src: Stmt, out: Stmt)
    requires Probed(r, ids, ctx, before, src, out) && Clean(src) && IdsValid(ids) && 0 <= ctx.id < |ids|
    ensures FuncIdsBelow(out, |ids|)
    decreases src
  {
    match src
    case Leaf(_) =>
    case Block(a, b) =>
      ProbedIdsInRange(r, ids, ctx, before, a, out.first);
      ProbedIdsInRange(r, ids, ctx, before + LoopNames(r.loops, a), b, out.rest);
    case Scope(_, b) => ProbedIdsInRange(r, ids, ctx, before, b, out.body);
    case If(_, a, b) =>
      ProbedIdsInRange(r, ids, ctx, before, a, out.thenCase);
      ProbedIdsInRange(r, ids, ctx, before + LoopNames(r.loops, a), b, out.elseCase);
    case ProducerConsumer(n, p, b) =>
      var w := TaskWrapping(r, ids, ctx, before, n, p, b, out);
      ProbedIdsInRange(r, ids, Inside(r, ids, ctx, n, p), before, b, w.body);
      TaskIdsInRange(w, n, p, ctx, |ids|);
    case For(n, p, d, b) =>
      if d == Offload {
        CleanMentionsNoIds(b, |ids|);
        LoopWrapInRange(src, LoopId(r.loops, before, n), p, |ids|);
      } else {
        var b' := LoopRewriting(r, ids, ctx, before, n, p, d, b, out);
        ProbedIdsInRange(r, ids, ctx, before, b, b');
        FuncIdsBetween(Incr, b', Decr, |ids|);
        LoopWrapInRange(For(n, p, d, LoopBody(p, d, b')), LoopId(r.loops, before + LoopNames(r.loops, b), n),
          CountsThreads(p, d), |ids|);
      }
  }

  lemma TaskIdsInRange(w: Wrapping, name: string, isProducer: bool, ctx: Context, n: int)
    requires FuncIdsBelow(w.body, n) && 0 <= w.funcId < n && 0 <= w.taskId < n && 0 <= ctx.id < n
    ensures FuncIdsBelow(WrapTask(w, name, isProducer, ctx), n)
  {
    FuncIdsBetween(EnterOverhead(w.taskId), w.body, LeaveOverhead(w.taskId), n);
    FuncIdsBetween(Enter(FuncRegion(w.funcId, isProducer)), w.body, Leave(FuncRegion(w.funcId, isProducer)), n);
    var marked :=
      if !w.mark.profile then w.body
      else if w.overhead then Between(EnterOverhead(w.taskId), w.body, LeaveOverhead(w.taskId))
      else Between(Enter(FuncRegion(w.funcId, isProducer)), w.body, Leave(FuncRegion(w.funcId, isProducer)));
    var task := ProducerConsumer(name, isProducer, Block(Call(SetCurrent(w.taskId)), marked));
    assert FuncIdsBelow(Block(Call(SetCurrent(w.taskId)), marked), n);
    FuncIdsBetween(LeaveOverhead(ctx.id), task, EnterOverhead(ctx.id), n);
  }

  lemma LoopWrapInRange(loop: Stmt, id: Option<int>, countsThreads: bool, n: int)
    requires FuncIdsBelow(loop, n)
    ensures FuncIdsBelow(WrapLoop(loop, id, countsThreads), n)
  {
    var marked := loop;
    if id.Some? {
      marked := Between(Enter(LoopRegion(id.value)), loop, Leave(LoopRegion(id.value)));
      FuncIdsBetween(Enter(LoopRegion(id.value)), loop, Leave(LoopRegion(id.value)), n);
    }
    var tail := Block(Call(Leave(ParallelRegion)), Call(Incr));
    assert FuncIdsBelow(Call(Leave(ParallelRegion)), n) && FuncIdsBelow(Call(Incr), n);
    assert FuncIdsBelow(Block(marked, tail), n);
    assert FuncIdsBelow(Block(Call(Enter(ParallelRegion)), Block(marked, tail)), n);
  }

  lemma FuncIdsBetween(p: Probe, s: Stmt, q: Probe, n: int)
    ensures FuncIdsBelow(Between(p, s, q), n) <==>
              FuncIdsBelow(Call(p), n) && FuncIdsBelow(s, n) && FuncIdsBelow(Call(q), n)
  {
    assert FuncIdsBelow(Block(s, Call(q)), n) <==> FuncIdsBelow(s, n) && FuncIdsBelow(Call(q), n);
  }

  lemma {:induction false} CleanMentionsNoIds(s: Stmt, n: int)
    requires Clean(s)
    ensures FuncIdsBelow(s, n) && LoopIds(s) == []
  {
    match s
    case Leaf(_) =>
    case Block(a, b) => CleanMentionsNoIds(a, n); CleanMentionsNoIds(b, n);
    case Scope(_, b) => CleanMentionsNoIds(b, n);
    case If(_, a, b) => CleanMentionsNoIds(a, n); CleanMentionsNoIds(b, n);
    case ProducerConsumer(_, _, b) => CleanMentionsNoIds(b, n);
    case For(_, _, _, b) => CleanMentionsNoIds(b, n);
  }

  // ----- Loop ids -----

  /** The id of each loop is the number of different names met before it. */
  function IdsAfter(before: seq<string>, names: seq<string>): (r: seq<int>)
    ensures |r| == |names|
    ensures forall k :: 0 <= k < |names| ==> r[k] == |NameSet(before + names[..k])|
    decreases names
  {
    if names == [] then []
    else
      var rest := IdsAfter(before + [names[0]], names[1..]);
      assert before + names[..0] == before;
      assert forall k :: 0 < k < |names| ==> before + names[..k] == (before + [names[0]]) + names[1..][..k - 1];
      [|NameSet(before)|] + rest
  }

  lemma {:induction false} IdsAfterConcat(before: seq<string>, a: seq<string>, b: seq<string>)
    ensures IdsAfter(before, a + b) == IdsAfter(before, a) + IdsAfter(before + a, b)
    decreases a
  {
    if a == [] {
      assert a + b == b && before + a == before;
    } else {
      assert (a + b)[1..] == a[1..] + b && before + a == before + [a[0]] + a[1..];
      IdsAfterConcat(before + [a[0]], a[1..], b);
    }
  }

  lemma {:induction false} ProbedLoopIds(r: Requests, ids: map<string, int>, ctx: Context, before: seq<string>,
                                         src: Stmt, out: Stmt)
    requires Probed(r, ids, ctx, before, src, out) && Clean(src)
    ensures LoopIds(out) == IdsAfter(before, LoopNames(r.loops, src))
    decreases src
  {
    match src
    case Leaf(_) =>
    case Block(a, b) =>
      ProbedLoopIds(r, ids, ctx, before, a, out.first);
      ProbedLoopIds(r, ids, ctx, before + LoopNames(r.loops, a), b, out.rest);
      IdsAfterConcat(before, LoopNames(r.loops, a), LoopNames(r.loops, b));
    case Scope(_, b) => ProbedLoopIds(r, ids, ctx, before, b, out.body);
    case If(_, a, b) =>
      ProbedLoopIds(r, ids, ctx, before, a, out.thenCase);
      ProbedLoopIds(r, ids, ctx, before + LoopNames(r.loops, a), b, out.elseCase);
      IdsAfterConcat(before, LoopNames(r.loops, a), LoopNames(r.loops, b));
    case ProducerConsumer(n, p, b) =>
      var w := TaskWrapping(r, ids, ctx, before, n, p, b, out);
      ProbedLoopIds(r, ids, Inside(r, ids, ctx, n, p), before, b, w.body);
      TaskLoopIds(w, n, p, ctx);
    case For(n, p, d, b) =>
      if d == Offload {
        CleanMentionsNoIds(b, 0);
        assert before + [] == before;
        ProbedLoopIdsOfLoop(r, before, n, [], src, p);
      } else {
        var b' := LoopRewriting(r, ids, ctx, before, n, p, d, b, out);
        ProbedLoopIds(r, ids, ctx, before, b, b');
        LoopIdsBetween(Incr, b', Decr);
        ProbedLoopIdsOfLoop(r, before, n, LoopNames(r.loops, b), For(n, p, d, LoopBody(p, d, b')), CountsThreads(p, d));
      }
  }

  lemma LoopIdsBetween(p: Probe, s: Stmt, q: Probe)
    requires LoopIds(Call(p)) == []
    ensures LoopIds(Between(p, s, q)) == LoopIds(s) + LoopIds(Call(q))
  {
    assert LoopIds(Block(s, Call(q))) == LoopIds(s) + LoopIds(Call(q));
  }

  lemma TaskLoopIds(w: Wrapping, name: string, isProducer: bool, ctx: Context)
    ensures LoopIds(WrapTask(w, name, isProducer, ctx)) == LoopIds(w.body)
  {
    var marked :=
      if !w.mark.profile then w.body
      else if w.overhead then Between(EnterOverhead(w.taskId), w.body, LeaveOverhead(w.taskId))
      else Between(Enter(FuncRegion(w.funcId, isProducer)), w.body, Leave(FuncRegion(w.funcId, isProducer)));
    LoopIdsBetween(EnterOverhead(w.taskId), w.body, LeaveOverhead(w.taskId));
    LoopIdsBetween(Enter(FuncRegion(w.funcId, isProducer)), w.body, Leave(FuncRegion(w.funcId, isProducer)));
    assert LoopIds(marked) == LoopIds(w.body);
    var task := ProducerConsumer(name, isProducer, Block(Call(SetCurrent(w.taskId)), marked));
    assert LoopIds(Block(Call(SetCurrent(w.taskId)), marked)) == [] + LoopIds(marked);
    LoopIdsBetween(LeaveOverhead(ctx.id), task, EnterOverhead(ctx.id));
  }

  lemma ProbedLoopIdsOfLoop(r: Requests, before: seq<string>, n: string, inner: seq<string>, loop: Stmt,
                            countsThreads: bool)
    requires LoopIds(loop) == IdsAfter(before, inner)
    ensures var names := inner + if FirstLoopRequest(r.loops, n).Some? then [n] else [];
            LoopIds(WrapLoop(loop, LoopId(r.loops, before + inner, n), countsThreads)) == IdsAfter(before, names)
  {
    var id := LoopId(r.loops, before + inner, n);
    var marked := if id.Some? then Between(Enter(LoopRegion(id.value)), loop, Leave(LoopRegion(id.value))) else loop;
    IdsAfterConcat(before, inner, [n]);
    assert IdsAfter(before + inner, [n]) == [|NameSet(before + inner)|];
    assert inner + [] == inner;
    if id.Some? {
      LoopIdsBetween(Enter(LoopRegion(id.value)), loop, Leave(LoopRegion(id.value)));
    }
    var tail := Block(Call(Leave(ParallelRegion)), Call(Incr));
    assert LoopIds(Block(marked, tail)) == LoopIds(marked) + [];
    assert LoopIds(Block(Call(Enter(ParallelRegion)), Block(marked, tail))) == [] + LoopIds(marked);
    assert LoopIds(Block(Call(Decr), Block(Call(Enter(ParallelRegion)), Block(marked, tail)))) == [] + LoopIds(marked);
  }

  predicate AllBelow(s: seq<int>, n: int) {
    forall i :: 0 <= i < |s| ==> 0 <= s[i] < n
  }

  /**
   The loop ids are all below the number of loops reported to the runtime exactly when the last profiled loop
   has a name of its own.
   */
  lemma LoopIdsInRange(r: Requests, ids: map<string, int>, src: Stmt, out: Stmt)
    requires Instrumented(r, ids, src, out) && Clean(src)
    ensures var names := LoopNames(r.loops, src);
            AllBelow(LoopIds(out), |NameSet(names)|) <==> names == [] || names[|names| - 1] !in names[..|names| - 1]
  {
    OutputLoopIds(r, ids, src, out);
    InRange(LoopNames(r.loops, src), LoopIds(out));
  }

  /** Each id is the number of different names before it. */
  ghost predicate Numbered(names: seq<string>, ids: seq<int>) {
    |ids| == |names| && forall k {:trigger ids[k]} :: 0 <= k < |names| ==> ids[k] == |NameSet(names[..k])|
  }

  lemma InRange(names: seq<string>, ids: seq<int>)
    requires Numbered(names, ids)
    ensures AllBelow(ids, |NameSet(names)|) <==> names == [] || names[|names| - 1] !in names[..|names| - 1]
  {
    if names != [] {
      var front, last := names[..|names| - 1], names[|names| - 1];
      assert NameSet(names) == NameSet(front) + {last};
      assert ids[|names| - 1] == |NameSet(front)|;
      forall k | 0 <= k < |names| ensures 0 <= ids[k] <= |NameSet(front)| {
        assert names[..k] == front[..k];
        NameSetsGrow(front, k);
      }
    }
  }

  lemma NameSetsGrow(names: seq<string>, k: nat)
    requires k <= |names|
    ensures |NameSet(names[..k])| <= |NameSet(names)|
  {
    CardinalityGrows(NameSet(names[..k]), NameSet(names));
  }

  lemma OutputLoopIds(r: Requests, ids: map<string, int>, src: Stmt, out: Stmt)
    requires Instrumented(r, ids, src, out) && Clean(src)
    ensures Numbered(LoopNames(r.loops, src), LoopIds(out))
  {
    var body := out.rest.first;
    ProbedLoopIds(r, ids, OUTERMOST, [], src, body);
    assert LoopIds(Block(body, Call(Decr))) == LoopIds(body) + [];
    assert LoopIds(out) == [] + LoopIds(Block(body, Call(Decr)));
    var names := LoopNames(r.loops, src);
    assert forall k :: 0 <= k < |names| ==> [] + names[..k] == names[..k];
  }

  /** Each profiled loop has an id of its own below the reported number exactly when the loops' names differ. */
  lemma LoopIdsDense(r: Requests, ids: map<string, int>, src: Stmt, out: Stmt)
    requires Instrumented(r, ids, src, out) && Clean(src)
    ensures var names := LoopNames(r.loops, src);
            AllBelow(LoopIds(out), |NameSet(names)|) && Distinct(LoopIds(out)) <==> Distinct(names)
  {
    OutputLoopIds(r, ids, src, out);
    if Distinct(LoopNames(r.loops, src)) {
      DistinctNamesDense(LoopNames(r.loops, src), LoopIds(out));
    } else {
      RepeatedNamesClash(LoopNames(r.loops, src), LoopIds(out));
    }
  }

  lemma DistinctNamesDense(names: seq<string>, ids: seq<int>)
    requires Numbered(names, ids) && Distinct(names)
    ensures |NameSet(names)| == |names| && forall k :: 0 <= k < |names| ==> ids[k] == k
  {
    DistinctCount(names);
    forall k | 0 <= k < |names| ensures ids[k] == k {
      DistinctCount(names[..k]);
    }
  }

  lemma RepeatedNamesClash(names: seq<string>, ids: seq<int>)
    requires Numbered(names, ids) && !Distinct(names)
    ensures !(AllBelow(ids, |NameSet(names)|) && Distinct(ids))
  {
    RepeatsLoseNames(names);
    if Distinct(ids) {
      StrictlyIncreasing(names, ids, |names|);
      assert ids[|names| - 1] >= |NameSet(names)|;
    }
  }

  lemma {:induction false} DistinctCount(names: seq<string>)
    ensures Distinct(names) ==> |NameSet(names)| == |names|
    ensures |NameSet(names)| <= |names|
  {
    if names != [] {
      var front := names[..|names| - 1];
      DistinctCount(front);
      assert NameSet(names) == NameSet(front) + {names[|names| - 1]};
    }
  }

  lemma {:induction false} RepeatsLoseNames(names: seq<string>)
    requires !Distinct(names)
    ensures |NameSet(names)| < |names|
  {
    var front := names[..|names| - 1];
    assert NameSet(names) == NameSet(front) + {names[|names| - 1]};
    DistinctCount(front);
    if !Distinct(front) {
      RepeatsLoseNames(front);
    } else {
      assert names[|names| - 1] in front;
    }
  }

  lemma {:induction false} StrictlyIncreasing(names: seq<string>, ids: seq<int>, k: nat)
    requires Numbered(names, ids) && k <= |names| && Distinct(ids)
    ensures k > 0 ==> ids[k - 1] >= k - 1
  {
    if k > 1 {
      StrictlyIncreasing(names, ids, k - 1);
      assert names[..k - 1][..k - 2] == names[..k - 2];
      NameSetsGrow(names[..k - 1], k - 2);
      assert ids[k - 2] != ids[k - 1];
    }
  }

  // ----- The table of loop names -----

  /** No later profiled loop has the name of the one at `k`. */
  ghost predicate LastOfItsName(names: seq<string>, k: int) {
    0 <= k < |names| && names[k] !in names[k + 1..]
  }

  /** A slot is written for the last loop of each name, at the number of names met before it. */
  lemma SlotWritten(names: seq<string>, id: int)
    ensures id in LoopTable(names).Values <==> exists k :: LastOfItsName(names, k) && |NameSet(names[..k])| == id
  {
    forall k | LastOfItsName(names, k) ensures |NameSet(names[..k])| in LoopTable(names).Values {
      assert names[k] in names;
      var l := TableEntry(names, names[k]);
      assert LoopTable(names)[names[k]] == |NameSet(names[..k])|;
    }
    if id in LoopTable(names).Values {
      var n :| n in LoopTable(names) && LoopTable(names)[n] == id;
      var k := TableEntry(names, n);
    }
  }

  lemma {:induction false} TableEntry(names: seq<string>, n: string) returns (k: nat)
    requires n in LoopTable(names) || n in names
    ensures LastOfItsName(names, k) && names[k] == n
    ensures n in LoopTable(names) && LoopTable(names)[n] == |NameSet(names[..k])|
  {
    var last := |names| - 1;
    var front := names[..last];
    if names[last] == n {
      k := last;
    } else {
      k := TableEntry(front, n);
      assert names[k + 1..] == front[k + 1..] + [names[last]] && names[..k] == front[..k];
    }
  }

  lemma {:induction false} FirstRepeat(names: seq<string>) returns (i: nat, j: nat)
    requires !Distinct(names)
    ensures i < j < |names| && names[i] == names[j] && Distinct(names[..j])
  {
    var last := |names| - 1;
    if Distinct(names[..last]) {
      j := last;
      i :| 0 <= i < last && names[i] == names[last];
    } else {
      i, j := FirstRepeat(names[..last]);
      assert names[..last][..j] == names[..j];
    }
  }

  /** Every slot of the table of loop names is written exactly when all profiled loops have names of their own. */
  lemma LoopNamesWritten(names: seq<string>)
    ensures (forall id :: 0 <= id < |NameSet(names)| ==> id in LoopTable(names).Values) <==> Distinct(names)
  {
    if Distinct(names) {
      forall id | 0 <= id < |NameSet(names)| ensures id in LoopTable(names).Values {
        DistinctCount(names);
        DistinctCount(names[..id]);
        assert LastOfItsName(names, id);
        SlotWritten(names, id);
      }
    } else {
      var i, j := FirstRepeat(names);
      NameSetsGrow(names, j);
      DistinctCount(names[..j]);
      SlotWritten(names, i);
      forall k | LastOfItsName(names, k) ensures |NameSet(names[..k])| != i {
        if k <= j {
          assert names[..k] == names[..j][..k];
          DistinctCount(names[..k]);
        } else {
          assert names[..k][..j] == names[..j];
          NameSetsGrow(names[..k], j);
        }
      }
    }
  }

  /** Two loops of one name: the runtime is told of one loop, the second has an id past it, and no name is stored. */
  method RepeatedLoopName() returns (out: Stmt, tables: Tables, numLoops: nat, pastEnd: bool)
    ensures LoopIds(out) == [0, 1] && numLoops == 1 && tables.loopNames == [None] && pastEnd
  {
    var loop := For("f.x", false, Host, Leaf(0));
    var requests := Requests([], [LoopRequest("f", "x", false)]);
    TwoLoopNames(requests.loops, loop);
    out, tables, numLoops, pastEnd := InjectTwice(Block(loop, loop), requests, "f.x");
  }

  method InjectTwice(src: Stmt, requests: Requests, name: string)
    returns (out: Stmt, tables: Tables, numLoops: nat, pastEnd: bool)
    requires Clean(src) && LoopNames(requests.loops, src) == [name, name]
    ensures LoopIds(out) == [0, 1] && numLoops == 1 && tables.loopNames == [None] && pastEnd
  {
    var ids, loops;
    ghost var shown;
    OneNameTwice([name, name]);
    out, ids, tables, numLoops, loops, pastEnd, shown := Inject(src, requests);
    RepeatedIds(requests, ids, src, out, name);
    assert 0 !in loops.Values;
  }

  lemma RepeatedIds(r: Requests, ids: map<string, int>, src: Stmt, out: Stmt, name: string)
    requires Instrumented(r, ids, src, out) && Clean(src) && LoopNames(r.loops, src) == [name, name]
    ensures LoopIds(out) == [0, 1]
  {
    OutputLoopIds(r, ids, src, out);
    OneNameTwice([name, name]);
  }

  lemma OneNameTwice(names: seq<string>)
    requires |names| == 2 && names[0] == names[1]
    ensures NameSet(names) == NameSet(names[..1]) == {names[0]} && NameSet(names[..0]) == {}
    ensures LoopTable(names) == map[names[0] := 1]
  {
    assert names[..1] == [names[0]] && names[..0] == [] && names[..1][..0] == [];
    assert LoopTable(names[..1]) == LoopTable([])[names[0] := 0];
  }

  lemma TwoLoopNames(qs: seq<LoopRequest>, loop: Stmt)
    requires qs == [LoopRequest("f", "x", false)] && loop == For("f.x", false, Host, Leaf(0))
    ensures LoopNames(qs, Block(loop, loop)) == ["f.x", "f.x"]
  {
    assert "f" + "." == "f." && "." + "x" == ".x";
    assert StartsWith("f.x", "f.") && EndsWith("f.x", ".x");
    assert FirstLoopRequest(qs, "f.x").Some?;
    assert LoopNames(qs, loop) == [] + ["f.x"];
  }
}
