/** Lowered statements, the probes that profiling inserts, and what is left when the probes are taken out. */
module ProfiledStmt {
  /** `Host` stands for no device API as well. */
  datatype Device = Host | Hexagon | Offload

  datatype Region = FuncRegion(id: int, isProducer: bool) | LoopRegion(id: int) | ParallelRegion

  datatype Probe =
    | SetCurrent(id: int)
    | Enter(region: Region)
    | Leave(region: Region)
    | EnterOverhead(id: int)
    | LeaveOverhead(id: int)
    | Incr
    | Decr

  /**
   `Leaf` is any statement without substatements, `Scope` one with a single body.  Under `RemoteState` the
   profiler state is the one of the remote processor.
   */
  datatype Stmt =
    | Leaf(code: int)
    | Call(probe: Probe)
    | Block(first: Stmt, rest: Stmt)
    | Scope(tag: string, body: Stmt)
    | If(code: int, thenCase: Stmt, elseCase: Stmt)
    | ProducerConsumer(name: string, isProducer: bool, body: Stmt)
    | For(name: string, parallel: bool, device: Device, body: Stmt)
    | RemoteState(body: Stmt)

  /** `Block::make` of a probe, a statement and a probe. */
  function Between(before: Probe, s: Stmt, after: Probe): Stmt {
    Block(Call(before), Block(s, Call(after)))
  }

  /** A statement that the pass has not touched. */
  predicate Clean(s: Stmt) {
    match s
    case Leaf(_) => true
    case Call(_) => false
    case Block(a, b) => Clean(a) && Clean(b)
    case Scope(_, b) => Clean(b)
    case If(_, a, b) => Clean(a) && Clean(b)
    case ProducerConsumer(_, _, b) => Clean(b)
    case For(_, _, _, b) => Clean(b)
    case RemoteState(_) => false
  }

  /** A statement without probes; blocks are sequences. */
  datatype Plain =
    | PlainLeaf(code: int)
    | PlainScope(tag: string, body: seq<Plain>)
    | PlainIf(code: int, thenCase: seq<Plain>, elseCase: seq<Plain>)
    | PlainTask(name: string, isProducer: bool, body: seq<Plain>)
    | PlainFor(name: string, parallel: bool, device: Device, body: seq<Plain>)

  /** The program with its profiling calls erased. */
  function Strip(s: Stmt): seq<Plain> {
    match s
    case Leaf(c) => [PlainLeaf(c)]
    case Call(_) => []
    case Block(a, b) => Strip(a) + Strip(b)
    case Scope(t, b) => [PlainScope(t, Strip(b))]
    case If(c, a, b) => [PlainIf(c, Strip(a), Strip(b))]
    case ProducerConsumer(n, p, b) => [PlainTask(n, p, Strip(b))]
    case For(n, p, d, b) => [PlainFor(n, p, d, Strip(b))]
    case RemoteState(b) => Strip(b)
  }

  /** Every Func id in a probe is below `n`. */
  predicate FuncIdsBelow(s: Stmt, n: int) {
    match s
    case Leaf(_) => true
    case Call(SetCurrent(i)) => 0 <= i < n
    case Call(EnterOverhead(i)) => 0 <= i < n
    case Call(LeaveOverhead(i)) => 0 <= i < n
    case Call(Enter(FuncRegion(i, _))) => 0 <= i < n
    case Call(Leave(FuncRegion(i, _))) => 0 <= i < n
    case Call(_) => true
    case Block(a, b) => FuncIdsBelow(a, n) && FuncIdsBelow(b, n)
    case Scope(_, b) => FuncIdsBelow(b, n)
    case If(_, a, b) => FuncIdsBelow(a, n) && FuncIdsBelow(b, n)
    case ProducerConsumer(_, _, b) => FuncIdsBelow(b, n)
    case For(_, _, _, b) => FuncIdsBelow(b, n)
    case RemoteState(b) => FuncIdsBelow(b, n)
  }

  /** The loop ids in the order in which the loops are left. */
  function LoopIds(s: Stmt): seq<int> {
    match s
    case Leaf(_) => []
    case Call(Leave(LoopRegion(i))) => [i]
    case Call(_) => []
    case Block(a, b) => LoopIds(a) + LoopIds(b)
    case Scope(_, b) => LoopIds(b)
    case If(_, a, b) => LoopIds(a) + LoopIds(b)
    case ProducerConsumer(_, _, b) => LoopIds(b)
    case For(_, _, _, b) => LoopIds(b)
    case RemoteState(b) => LoopIds(b)
  }
}
