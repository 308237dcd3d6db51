/** Slots for threads, found without a lock and handed out under one, under every interleaving of the steps. */
module ThreadSlots {
  import opened Collections

  const MAX_THREADS := 32

  /** An entry of `threadsInfo`. */
  datatype Slot = Slot(id: int, used: bool)

  /** The whole table. */
  type Slots = s: seq<Slot> | |s| == MAX_THREADS witness seq(MAX_THREADS, _ => Slot(0, false))

  /** The thread handle squeezed into an `int`: its low 32 bits, read as a signed number. */
  function ThreadId(handle: nat): (id: int)
    ensures -0x8000_0000 <= id < 0x8000_0000 && (handle - id) % 0x1_0000_0000 == 0
  {
    var low := handle % 0x1_0000_0000;
    if low < 0x8000_0000 then low else low - 0x1_0000_0000
  }

  /** The handles agree modulo 2^32. */
  predicate SameLowBits(t: nat, u: nat) {
    t % 0x1_0000_0000 == u % 0x1_0000_0000
  }

  lemma ThreadIdIsLowBits(t: nat, u: nat)
    ensures ThreadId(t) == ThreadId(u) <==> SameLowBits(t, u)
  {
  }

  // ----- Steps of `find_or_insert_thread` -----

  /** Where a thread stands; every access to shared memory is a step of its own. */
  datatype Phase =
    | Idle
    | ScanSet(i: nat)               // reads `set` of slot i, without the lock
    | ScanId(i: nat)                // reads `thread_id` of slot i, whose `set` was found true
    | Lock
    | Search(i: nat, first: int)    // reads `set` of slot i, under the lock
    | WriteId(k: int)
    | WriteSet(k: int)
    | Unlock(k: int)

  /** `results` lists the calls that have returned: thread and index. */
  datatype State = State(slots: Slots, lock: Option<nat>, phases: map<nat, Phase>, results: seq<(nat, int)>) {
    function PhaseOf(t: nat): Phase {
      if t in phases then phases[t] else Idle
    }

    function Go(t: nat, p: Phase): State {
      this.(phases := phases[t := p])
    }

    function Return(t: nat, k: int): State {
      this.(phases := phases[t := Idle], results := results + [(t, k)])
    }
  }

  function Initial(): State {
    State(seq(MAX_THREADS, _ => Slot(0, false)), None, map[], [])
  }

  /** The next step of thread `t`; a thread that waits for the lock stays where it is. */
  function Next(s: State, t: nat): State
  {
    match s.PhaseOf(t)
    case Idle => s.Go(t, ScanSet(0))
    case ScanSet(i) =>
      if i >= MAX_THREADS then s.Go(t, Lock)
      else if s.slots[i].used then s.Go(t, ScanId(i))
      else s.Go(t, ScanSet(i + 1))
    case ScanId(i) =>
      if i < MAX_THREADS && s.slots[i].id == ThreadId(t) then s.Return(t, i) else s.Go(t, ScanSet(i + 1))
    case Lock =>
      if s.lock.None? then s.(lock := Some(t)).Go(t, Search(0, -1)) else s
    case Search(i, first) =>
      if i < MAX_THREADS then s.Go(t, Search(i + 1, if !s.slots[i].used && first == -1 then i else first))
      else if first == -1 then s.Return(t, -1)
      else s.Go(t, WriteId(first))
    case WriteId(k) =>
      if 0 <= k < MAX_THREADS then s.(slots := s.slots[k := s.slots[k].(id := ThreadId(t))]).Go(t, WriteSet(k)) else s
    case WriteSet(k) =>
      if 0 <= k < MAX_THREADS then s.(slots := s.slots[k := s.slots[k].(used := true)]).Go(t, Unlock(k)) else s
    case Unlock(k) => s.(lock := None).Return(t, k)
  }

  /** A schedule says which thread takes each step. */
  function Execute(s: State, schedule: seq<nat>): (r: State)
  {
    if schedule == [] then s else Next(Execute(s, schedule[..|schedule| - 1]), schedule[|schedule| - 1])
  }

  // ----- Safety -----

  /** The threads are told apart by the low 32 bits of their handles. */
  ghost predicate Distinguished(threads: set<nat>) {
    forall t, u {:trigger SameLowBits(t, u)} :: t in threads && u in threads && SameLowBits(t, u) ==> t == u
  }

  /** So are they by their ids. */
  ghost predicate IdsDiffer(threads: set<nat>) {
    forall t, u {:trigger ThreadId(t), ThreadId(u)} :: t in threads && u in threads && ThreadId(t) == ThreadId(u) ==>
      t == u
  }

  lemma LowBitsDiffer(threads: set<nat>)
    requires Distinguished(threads)
    ensures IdsDiffer(threads)
  {
    forall t, u | t in threads && u in threads && ThreadId(t) == ThreadId(u) ensures t == u {
      ThreadIdIsLowBits(t, u);
    }
  }

  predicate Owns(slots: Slots, t: nat, k: int) {
    0 <= k < MAX_THREADS && slots[k] == Slot(ThreadId(t), true)
  }

  /** No slot below `n` is in use under the id of thread `t`. */
  ghost predicate Absent(slots: Slots, t: nat, n: nat) {
    forall j {:trigger Owns(slots, t, j)} :: 0 <= j < n ==> !Owns(slots, t, j)
  }

  predicate Free(slots: Slots, k: int) {
    0 <= k < MAX_THREADS && !slots[k].used
  }

  /** What holds of the slots and the lock where a thread stands. */
  ghost predicate PhaseHolds(slots: Slots, lock: Option<nat>, p: Phase, t: nat) {
    match p
    case Idle => true
    case ScanSet(i) => i <= MAX_THREADS && Absent(slots, t, i)
    case ScanId(i) => i < MAX_THREADS && slots[i].used && Absent(slots, t, i)
    case Lock => Absent(slots, t, MAX_THREADS)
    case Search(i, first) =>
      && lock == Some(t) && Absent(slots, t, MAX_THREADS) && i <= MAX_THREADS
      && (if first == -1 then forall j {:trigger Free(slots, j)} :: 0 <= j < i ==> !Free(slots, j)
          else Free(slots, first))
    case WriteId(k) => lock == Some(t) && Absent(slots, t, MAX_THREADS) && Free(slots, k)
    case WriteSet(k) => lock == Some(t) && Absent(slots, t, MAX_THREADS) && Free(slots, k) && slots[k].id == ThreadId(t)
    case Unlock(k) => lock == Some(t) && Owns(slots, t, k)
  }

  /** A slot in use belongs to a thread. */
  ghost predicate Taken(slots: Slots, threads: set<nat>, k: int) {
    0 <= k < MAX_THREADS && slots[k].used ==> exists t :: t in threads && Owns(slots, t, k)
  }

  /** Slots in use have different ids. */
  predicate Once(slots: Slots, j: int, k: int) {
    0 <= j < k < MAX_THREADS && slots[j].used && slots[k].used ==> slots[j].id != slots[k].id
  }

  /** A call has returned the slot of its thread; or -1, with more threads than slots. */
  predicate Answered(slots: Slots, threads: set<nat>, answer: (nat, int)) {
    answer.0 in threads && (Owns(slots, answer.0, answer.1) || (answer.1 == -1 && |threads| > MAX_THREADS))
  }

  ghost predicate SlotsHold(slots: Slots, threads: set<nat>) {
    && (forall k {:trigger Taken(slots, threads, k)} :: Taken(slots, threads, k))
    && (forall j, k {:trigger Once(slots, j, k)} :: Once(slots, j, k))
  }

  ghost predicate Stands(s: State, t: nat)
  {
    PhaseHolds(s.slots, s.lock, s.PhaseOf(t), t)
  }

  ghost predicate Inv(s: State, threads: set<nat>) {
    && SlotsHold(s.slots, threads)
    && (forall t {:trigger Stands(s, t)} :: t in threads ==> Stands(s, t))
    && (forall n {:trigger s.results[n]} :: 0 <= n < |s.results| ==> Answered(s.slots, threads, s.results[n]))
  }

  // ----- Every step keeps the invariant -----

  lemma StepKeepsInv(s: State, t: nat, threads: set<nat>)
    requires Inv(s, threads) && t in threads && Distinguished(threads)
    ensures Inv(Next(s, t), threads)
  {
    LowBitsDiffer(threads);
    assert Stands(s, t);
    match s.PhaseOf(t)
    case Idle => MovingKeepsInv(s, Next(s, t), t, threads);
    case ScanSet(i) => ScanningKeepsInv(s, t, threads);
    case ScanId(i) => ScanningKeepsInv(s, t, threads);
    case Lock => LockingKeepsInv(s, t, threads);
    case Search(i, first) => SearchingKeepsInv(s, t, threads);
    case WriteId(k) => WritingKeepsInv(s, t, threads, k, s.slots[k].(id := ThreadId(t)));
    case WriteSet(k) => WritingKeepsInv(s, t, threads, k, s.slots[k].(used := true));
    case Unlock(k) => LockingKeepsInv(s, t, threads);
  }

  /** A step that only moves the thread on, and maybe returns. */
  lemma MovingKeepsInv(s: State, s': State, t: nat, threads: set<nat>)
    requires Inv(s, threads) && t in threads && s'.slots == s.slots && s'.lock == s.lock
             && s'.phases == s.phases[t := s'.PhaseOf(t)]
    requires Stands(s', t)
    requires s'.results == s.results
             || (exists k :: s'.results == s.results + [(t, k)] && Answered(s.slots, threads, (t, k)))
    ensures Inv(s', threads)
  {
    forall u | u in threads ensures Stands(s', u) {
      assert Stands(s, u);
    }
  }

  lemma ScanningKeepsInv(s: State, t: nat, threads: set<nat>)
    requires Inv(s, threads) && t in threads && (s.PhaseOf(t).ScanSet? || s.PhaseOf(t).ScanId?)
    ensures Inv(Next(s, t), threads)
  {
    assert Stands(s, t);
    MovingKeepsInv(s, Next(s, t), t, threads);
  }

  lemma LockingKeepsInv(s: State, t: nat, threads: set<nat>)
    requires Inv(s, threads) && t in threads && (s.PhaseOf(t).Lock? || s.PhaseOf(t).Unlock?)
    ensures Inv(Next(s, t), threads)
  {
    assert Stands(s, t);
    var s' := Next(s, t);
    forall u | u in threads ensures Stands(s', u) {
      assert Stands(s, u);
    }
  }

  lemma SearchingKeepsInv(s: State, t: nat, threads: set<nat>)
    requires Inv(s, threads) && t in threads && s.PhaseOf(t).Search?
    ensures Inv(Next(s, t), threads)
  {
    assert Stands(s, t);
    if s.PhaseOf(t).i == MAX_THREADS && s.PhaseOf(t).first == -1 {
      FullTable(s.slots, t, threads);
    }
    MovingKeepsInv(s, Next(s, t), t, threads);
  }

  /** A thread that finds every slot taken by another is one thread too many. */
  lemma FullTable(slots: Slots, t: nat, threads: set<nat>)
    requires SlotsHold(slots, threads) && t in threads && Absent(slots, t, MAX_THREADS)
    requires forall j {:trigger Free(slots, j)} :: 0 <= j < MAX_THREADS ==> !Free(slots, j)
    ensures |threads| > MAX_THREADS
  {
    var owners := Owners(slots, t, threads, MAX_THREADS);
    CardinalityGrows(owners + {t}, threads);
  }

  /** The owners of the first `n` slots. */
  lemma Owners(slots: Slots, t: nat, threads: set<nat>, n: nat) returns (owners: set<nat>)
    requires n <= MAX_THREADS && SlotsHold(slots, threads) && Absent(slots, t, MAX_THREADS)
    requires forall j {:trigger Free(slots, j)} :: 0 <= j < n ==> !Free(slots, j)
    ensures owners <= threads - {t} && |owners| == n
    ensures forall u :: u in owners ==> exists j :: 0 <= j < n && Owns(slots, u, j)
  {
    owners := {};
    if n > 0 {
      owners := Owners(slots, t, threads, n - 1);
      assert !Free(slots, n - 1) && Taken(slots, threads, n - 1) && !Owns(slots, t, n - 1);
      var u :| u in threads && Owns(slots, u, n - 1);
      forall j | 0 <= j < n - 1 ensures !Owns(slots, u, j) {
        assert Once(slots, j, n - 1);
      }
      owners := owners + {u};
    }
  }

  /** Writing to a free slot that a thread has reserved. */
  lemma WritingKeepsInv(s: State, t: nat, threads: set<nat>, k: int, slot: Slot)
    requires Inv(s, threads) && t in threads && IdsDiffer(threads)
    requires s.PhaseOf(t) == WriteId(k) || s.PhaseOf(t) == WriteSet(k)
    requires 0 <= k < MAX_THREADS && Next(s, t).slots == s.slots[k := slot]
    requires slot == if s.PhaseOf(t).WriteId? then s.slots[k].(id := ThreadId(t)) else s.slots[k].(used := true)
    ensures Inv(Next(s, t), threads)
  {
    var s' := Next(s, t);
    assert Stands(s, t);
    SlotWritten(s.slots, k, slot, t, threads);
    forall u | u in threads ensures Stands(s', u) {
      assert Stands(s, u);
    }
    forall n | 0 <= n < |s'.results| ensures Answered(s'.slots, threads, s'.results[n]) {
      assert Answered(s.slots, threads, s.results[n]);
    }
  }

  /** It changes nothing for the other threads. */
  lemma SlotWritten(slots: Slots, k: int, slot: Slot, t: nat, threads: set<nat>)
    requires SlotsHold(slots, threads) && t in threads && IdsDiffer(threads) && Absent(slots, t, MAX_THREADS)
             && Free(slots, k)
    requires slot.used ==> slot.id == ThreadId(t)
    ensures SlotsHold(slots[k := slot], threads)
    ensures forall u: nat, j: int {:trigger Owns(slots[k := slot], u, j)} :: u in threads ==>
              (Owns(slots[k := slot], u, j) <==> if u == t then slot.used && j == k else Owns(slots, u, j))
  {
    var slots' := slots[k := slot];
    forall u: nat, j: int | u in threads
      ensures Owns(slots', u, j) <==> if u == t then slot.used && j == k else Owns(slots, u, j)
    {
      assert 0 <= j < MAX_THREADS ==> !Owns(slots, t, j);
    }
    forall j ensures Taken(slots', threads, j) {
      assert Taken(slots, threads, j);
      if 0 <= j < MAX_THREADS && slots'[j].used {
        if j == k {
          assert Owns(slots', t, k);
        } else {
          var u :| u in threads && Owns(slots, u, j);
          assert Owns(slots', u, j);
        }
      }
    }
    forall i, j ensures Once(slots', i, j) {
      assert Once(slots, i, j);
      assert 0 <= i < MAX_THREADS ==> !Owns(slots, t, i);
      assert 0 <= j < MAX_THREADS ==> !Owns(slots, t, j);
    }
  }

  // ----- Every interleaving -----

  predicate Involves(schedule: seq<nat>, threads: set<nat>) {
    forall i :: 0 <= i < |schedule| ==> schedule[i] in threads
  }

  lemma {:induction false} ExecuteKeepsInv(schedule: seq<nat>, threads: set<nat>)
    requires Distinguished(threads) && Involves(schedule, threads)
    ensures Inv(Execute(Initial(), schedule), threads)
  {
    if schedule != [] {
      var n := |schedule| - 1;
      ExecuteKeepsInv(schedule[..n], threads);
      StepKeepsInv(Execute(Initial(), schedule[..n]), schedule[n], threads);
    }
  }

  /** Two answers with an index agree on the index exactly when they went to the same thread. */
  predicate Agree(a: (nat, int), b: (nat, int)) {
    a.1 != -1 && b.1 != -1 ==> (a.1 == b.1 <==> a.0 == b.0)
  }

  ghost predicate Safe(results: seq<(nat, int)>) {
    forall i, j {:trigger Agree(results[i], results[j])} :: 0 <= i < |results| && 0 <= j < |results| ==>
      Agree(results[i], results[j])
  }

  /**
   Under every interleaving of threads told apart by their ids, no two threads get the same slot and a thread
   gets the same slot on every call.
   */
  lemma SlotsAreSafe(schedule: seq<nat>, threads: set<nat>)
    requires Distinguished(threads) && Involves(schedule, threads)
    ensures Safe(Execute(Initial(), schedule).results)
  {
    ExecuteKeepsInv(schedule, threads);
    var s := Execute(Initial(), schedule);
    forall i, j | 0 <= i < |s.results| && 0 <= j < |s.results| ensures Agree(s.results[i], s.results[j]) {
      ThreadIdIsLowBits(s.results[i].0, s.results[j].0);
      assert Answered(s.slots, threads, s.results[i]) && Answered(s.slots, threads, s.results[j]);
      assert Once(s.slots, s.results[i].1, s.results[j].1) && Once(s.slots, s.results[j].1, s.results[i].1);
    }
  }

  /** With no more threads than slots, every call that returns gives a slot. */
  lemma EnoughSlots(schedule: seq<nat>, threads: set<nat>, i: nat)
    requires Distinguished(threads) && Involves(schedule, threads) && |threads| <= 32
    requires i < |Execute(Initial(), schedule).results|
    ensures 0 <= Execute(Initial(), schedule).results[i].1 < 32
  {
    ExecuteKeepsInv(schedule, threads);
    var s := Execute(Initial(), schedule);
    assert Answered(s.slots, threads, s.results[i]);
  }

  // ----- One thread at a time -----

  function Repeat(t: nat, n: nat): (r: seq<nat>)
    ensures |r| == n && forall i :: 0 <= i < n ==> r[i] == t
  {
    seq(n, _ => t)
  }

  lemma {:induction false} ExecuteConcat(s: State, a: seq<nat>, b: seq<nat>)
    ensures Execute(s, a + b) == Execute(Execute(s, a), b)
  {
    if b == [] {
      assert a + b == a;
    } else {
      assert (a + b)[..|a + b| - 1] == a + b[..|b| - 1];
      ExecuteConcat(s, a, b[..|b| - 1]);
    }
  }

  /** `t` alone gets from `s` to `s'`. */
  ghost predicate Alone(s: State, t: nat, s': State)
  {
    exists n: nat {:trigger Repeat(t, n)} :: Execute(s, Repeat(t, n)) == s'
  }

  lemma AloneStep(s: State, t: nat, s': State)
    requires Alone(s, t, s')
    ensures Alone(s, t, Next(s', t))
  {
    var n: nat :| Execute(s, Repeat(t, n)) == s';
    assert Repeat(t, n + 1)[..n] == Repeat(t, n);
    assert Execute(s, Repeat(t, n + 1)) == Next(s', t);
  }

  lemma AloneAgain(s: State, t: nat, s1: State, s2: State)
    requires Alone(s, t, s1) && Alone(s1, t, s2)
    ensures Alone(s, t, s2)
  {
    var m: nat :| Execute(s, Repeat(t, m)) == s1;
    var n: nat :| Execute(s1, Repeat(t, n)) == s2;
    ExecuteConcat(s, Repeat(t, m), Repeat(t, n));
    assert Repeat(t, m) + Repeat(t, n) == Repeat(t, m + n);
  }

  /** The first slot from `i` on that is in use under the id, or `MAX_THREADS`. */
  function FindFrom(slots: Slots, id: int, i: nat): (k: nat)
    requires i <= MAX_THREADS
    ensures i <= k <= MAX_THREADS
    ensures k < MAX_THREADS ==> slots[k] == Slot(id, true)
    ensures forall j :: i <= j < k ==> slots[j] != Slot(id, true)
    decreases MAX_THREADS - i
  {
    if i == MAX_THREADS || slots[i] == Slot(id, true) then i else FindFrom(slots, id, i + 1)
  }

  /** The first free slot from `i` on, or -1. */
  function FreeFrom(slots: Slots, i: nat): (k: int)
    requires i <= MAX_THREADS
    ensures k == -1 || (i <= k < MAX_THREADS && !slots[k].used)
    ensures forall j :: i <= j < (if k == -1 then MAX_THREADS else k) ==> slots[j].used
    decreases MAX_THREADS - i
  {
    if i == MAX_THREADS then -1 else if !slots[i].used then i else FreeFrom(slots, i + 1)
  }

  /** The outcome of an uninterrupted call: slots and index. */
  function Outcome(slots: Slots, id: int): (r: (Slots, int)) {
    var k := FindFrom(slots, id, 0);
    if k < MAX_THREADS then (slots, k)
    else
      var free := FreeFrom(slots, 0);
      if free == -1 then (slots, -1) else (slots[free := Slot(id, true)], free)
  }

  lemma {:induction false} ScanAlone(s: State, t: nat, i: nat)
    requires i <= MAX_THREADS && s.PhaseOf(t) == ScanSet(i)
    ensures var k := FindFrom(s.slots, ThreadId(t), i);
            Alone(s, t, if k < MAX_THREADS then s.Return(t, k) else s.Go(t, Lock))
    decreases MAX_THREADS - i
  {
    if i == MAX_THREADS {
      NoStep(s, t);
      AloneStep(s, t, s);
    } else {
      ScanOne(s, t, i);
      if s.slots[i] != Slot(ThreadId(t), true) {
        var s1 := s.Go(t, ScanSet(i + 1));
        ScanAlone(s1, t, i + 1);
        var k := FindFrom(s.slots, ThreadId(t), i);
        MovesOverride(s, t, ScanSet(i + 1), Lock, k);
        AloneAgain(s, t, s1, if k < MAX_THREADS then s.Return(t, k) else s.Go(t, Lock));
      }
    }
  }

  lemma NoStep(s: State, t: nat)
    ensures Alone(s, t, s)
  {
    assert Execute(s, Repeat(t, 0)) == s;
  }

  /** Only the last phase that a thread moves to counts. */
  lemma MovesOverride(s: State, t: nat, p: Phase, q: Phase, k: int)
    ensures s.Go(t, p).Go(t, q) == s.Go(t, q) && s.Go(t, p).Return(t, k) == s.Return(t, k)
  {
    assert s.phases[t := p][t := q] == s.phases[t := q];
    assert s.phases[t := p][t := Idle] == s.phases[t := Idle];
  }

  lemma ScanOne(s: State, t: nat, i: nat)
    requires i < MAX_THREADS && s.PhaseOf(t) == ScanSet(i)
    ensures Alone(s, t, if s.slots[i] == Slot(ThreadId(t), true) then s.Return(t, i) else s.Go(t, ScanSet(i + 1)))
  {
    NoStep(s, t);
    AloneStep(s, t, s);
    if s.slots[i].used {
      AloneStep(s, t, Next(s, t));
      MovesOverride(s, t, ScanId(i), ScanSet(i + 1), i);
    }
  }

  lemma {:induction false} SearchAlone(s: State, t: nat, i: nat, first: int)
    requires i <= MAX_THREADS && s.PhaseOf(t) == Search(i, first) && -1 <= first
    ensures var free := if first == -1 then FreeFrom(s.slots, i) else first;
            Alone(s, t, s.Go(t, Search(MAX_THREADS, free)))
    decreases MAX_THREADS - i
  {
    NoStep(s, t);
    if i == MAX_THREADS {
      assert s.phases[t := s.phases[t]] == s.phases;
    } else {
      AloneStep(s, t, s);
      var s1 := Next(s, t);
      SearchAlone(s1, t, i + 1, s1.PhaseOf(t).first);
      var free := if first == -1 then FreeFrom(s.slots, i) else first;
      MovesOverride(s, t, s1.PhaseOf(t), Search(MAX_THREADS, free), 0);
      AloneAgain(s, t, s1, s.Go(t, Search(MAX_THREADS, free)));
    }
  }

  /** What an uninterrupted call does to the state; one that finds the table full keeps the lock. */
  function AfterCall(s: State, t: nat): State
  {
    var (slots, k) := Outcome(s.slots, ThreadId(t));
    s.(slots := slots, lock := if k == -1 then Some(t) else s.lock).Return(t, k)
  }

  /** The steps of a call that nothing interrupts. */
  lemma CallAlone(s: State, t: nat)
    requires s.PhaseOf(t) == Idle && s.lock == None
    ensures Alone(s, t, AfterCall(s, t))
  {
    NoStep(s, t);
    AloneStep(s, t, s);
    var s1 := s.Go(t, ScanSet(0));
    ScanAlone(s1, t, 0);
    var k := FindFrom(s.slots, ThreadId(t), 0);
    MovesOverride(s, t, ScanSet(0), Lock, k);
    if k < MAX_THREADS {
      AloneAgain(s, t, s1, s.Return(t, k));
    } else {
      AloneAgain(s, t, s1, s.Go(t, Lock));
      InsertAlone(s, t);
      AloneAgain(s, t, s.Go(t, Lock), AfterCall(s, t));
    }
  }

  lemma InsertAlone(s: State, t: nat)
    requires s.lock == None && FindFrom(s.slots, ThreadId(t), 0) == MAX_THREADS
    ensures Alone(s.Go(t, Lock), t, AfterCall(s, t))
  {
    var s0 := s.Go(t, Lock);
    var held := s.(lock := Some(t));
    NoStep(s0, t);
    AloneStep(s0, t, s0);
    MovesOverride(held, t, Lock, Search(0, -1), 0);
    var s1 := held.Go(t, Search(0, -1));
    SearchAlone(s1, t, 0, -1);
    var free := FreeFrom(s.slots, 0);
    MovesOverride(held, t, Search(0, -1), Search(MAX_THREADS, free), 0);
    AloneAgain(s0, t, s1, held.Go(t, Search(MAX_THREADS, free)));
    AloneStep(s0, t, held.Go(t, Search(MAX_THREADS, free)));
    if free == -1 {
      MovesOverride(held, t, Search(MAX_THREADS, -1), Idle, -1);
    } else {
      MovesOverride(held, t, Search(MAX_THREADS, free), WriteId(free), 0);
      WriteAlone(s0, held, t, free);
    }
  }

  lemma WriteAlone(s0: State, held: State, t: nat, k: nat)
    requires k < MAX_THREADS && Alone(s0, t, held.Go(t, WriteId(k)))
    ensures Alone(s0, t, held.(slots := held.slots[k := Slot(ThreadId(t), true)], lock := None).Return(t, k))
  {
    var half := held.slots[k := held.slots[k].(id := ThreadId(t))];
    AloneStep(s0, t, held.Go(t, WriteId(k)));
    MovesOverride(held.(slots := half), t, WriteId(k), WriteSet(k), 0);
    AloneStep(s0, t, held.(slots := half).Go(t, WriteSet(k)));
    var full := held.slots[k := Slot(ThreadId(t), true)];
    assert half[k := half[k].(used := true)] == full;
    MovesOverride(held.(slots := full), t, WriteSet(k), Unlock(k), 0);
    AloneStep(s0, t, held.(slots := full).Go(t, Unlock(k)));
    MovesOverride(held.(slots := full, lock := None), t, Unlock(k), Idle, k);
  }

  // ----- Threads that share an id -----

  /** Two threads whose handles agree in the low 32 bits get the same slot when one calls after the other. */
  lemma SharedIdSharesSlot(t: nat, u: nat) returns (schedule: seq<nat>)
    requires t != u && SameLowBits(t, u)
    ensures Involves(schedule, {t, u}) && Execute(Initial(), schedule).results == [(t, 0), (u, 0)]
  {
    ThreadIdIsLowBits(t, u);
    var s0 := Initial();
    var s1, s2 := AfterCall(s0, t), AfterCall(AfterCall(s0, t), u);
    CallInTurn(t, u);
    CallAlone(s0, t);
    CallAlone(s1, u);
    var m: nat :| Execute(s0, Repeat(t, m)) == s1;
    var n: nat :| Execute(s1, Repeat(u, n)) == s2;
    schedule := Repeat(t, m) + Repeat(u, n);
    ExecuteConcat(s0, Repeat(t, m), Repeat(u, n));
  }

  lemma CallInTurn(t: nat, u: nat)
    requires t != u && ThreadId(t) == ThreadId(u)
    ensures var s1 := AfterCall(Initial(), t);
            && s1.PhaseOf(u) == Idle && s1.lock == None && AfterCall(s1, u).results == [(t, 0), (u, 0)]
  {
    var s1 := AfterCall(Initial(), t);
    assert FindFrom(Initial().slots, ThreadId(t), 0) == MAX_THREADS && FreeFrom(Initial().slots, 0) == 0;
    assert s1.slots[0] == Slot(ThreadId(u), true);
  }

  /** A set of threads is safe under every interleaving exactly when their handles differ in the low 32 bits. */
  lemma SafeExactlyWhenDistinguished(threads: set<nat>)
    ensures Distinguished(threads) <==>
            forall schedule {:trigger Execute(Initial(), schedule)} :: Involves(schedule, threads) ==>
              Safe(Execute(Initial(), schedule).results)
  {
    if Distinguished(threads) {
      forall schedule | Involves(schedule, threads) ensures Safe(Execute(Initial(), schedule).results) {
        SlotsAreSafe(schedule, threads);
      }
    } else {
      var t, u :| t in threads && u in threads && SameLowBits(t, u) && t != u;
      var schedule := SharedIdSharesSlot(t, u);
      var results := Execute(Initial(), schedule).results;
      assert !Agree(results[0], results[1]);
    }
  }

  // ----- The tables themselves -----

  const NUM_MARKER_TYPES := 4
  const MAX_MARKERS_PER_TYPE := 4
  const CLOCKS_PER_SEC: int := 1_000_000

  class MarkerTimers {
    const threadsInfo: array<Slot>
    const startTimes: array<int>
    const timersAccum: array3<real>
    const timersAccumFlag: array3<bool>

    ghost predicate Valid() {
      && threadsInfo.Length == startTimes.Length == MAX_THREADS
      && timersAccum.Length0 == timersAccumFlag.Length0 == NUM_MARKER_TYPES
      && timersAccum.Length1 == timersAccumFlag.Length1 == MAX_MARKERS_PER_TYPE
      && timersAccum.Length2 == timersAccumFlag.Length2 == MAX_THREADS
    }

    ghost function Slots(): Slots
      requires Valid()
      reads threadsInfo
    {
      threadsInfo[..]
    }

    constructor ()
      ensures Valid() && fresh(threadsInfo) && fresh(startTimes) && fresh(timersAccum) && fresh(timersAccumFlag)
      ensures Slots() == Initial().slots
    {
      threadsInfo := new Slot[MAX_THREADS](_ => Slot(0, false));
      startTimes := new int[MAX_THREADS](_ => 0);
      timersAccum := new real[NUM_MARKER_TYPES, MAX_MARKERS_PER_TYPE, MAX_THREADS]((_, _, _) => 0.0);
      timersAccumFlag := new bool[NUM_MARKER_TYPES, MAX_MARKERS_PER_TYPE, MAX_THREADS]((_, _, _) => false);
    }

    /** `find_or_insert_thread`, uninterrupted: what the steps of one thread come to when no other moves. */
    method FindOrInsertThread(handle: nat) returns (k: int)
      requires Valid()
      modifies threadsInfo
      ensures (Slots(), k) == Outcome(old(Slots()), ThreadId(handle))
    {
      var thid := ThreadId(handle);
      for i := 0 to MAX_THREADS
        invariant FindFrom(Slots(), thid, 0) == FindFrom(Slots(), thid, i)
      {
        if threadsInfo[i].used && threadsInfo[i].id == thid {
          return i;
        }
      }
      var firstAvailable := -1;
      for i := 0 to MAX_THREADS
        invariant firstAvailable == -1 ==> FreeFrom(Slots(), 0) == FreeFrom(Slots(), i)
        invariant firstAvailable != -1 ==> firstAvailable == FreeFrom(Slots(), 0)
      {
        if !threadsInfo[i].used && firstAvailable == -1 {
          firstAvailable := i;
        }
      }
      if firstAvailable == -1 {
        return -1;
      }
      threadsInfo[firstAvailable] := threadsInfo[firstAvailable].(id := thid);
      threadsInfo[firstAvailable] := threadsInfo[firstAvailable].(used := true);
      assert threadsInfo[..] == old(threadsInfo[..])[firstAvailable := Slot(thid, true)];
      return firstAvailable;
    }

    /** `perfctr_halide_marker_start` at time `now`.  With all slots taken it stores before the array, at -1. */
    method MarkerStart(handle: nat, now: int) returns (inBounds: bool)
      requires Valid()
      modifies threadsInfo, startTimes
      ensures Slots() == Outcome(old(Slots()), ThreadId(handle)).0
      ensures var k := Outcome(old(Slots()), ThreadId(handle)).1;
              && (inBounds <==> k != -1)
              && startTimes[..] == if inBounds then old(startTimes[..])[k := now] else old(startTimes[..])
    {
      var k := FindOrInsertThread(handle);
      inBounds := k >= 0;
      if inBounds {
        startTimes[k] := now;
      }
    }

    /**
     `perfctr_halide_marker_stop`: the time since the thread's own start goes to its own cell of the marker, or
     before its cells if all slots are taken.
     */
    method MarkerStop(handle: nat, now: int, markerType: nat, id: nat) returns (inBounds: bool)
      requires Valid() && markerType < NUM_MARKER_TYPES && id < MAX_MARKERS_PER_TYPE
      modifies threadsInfo, timersAccum, timersAccumFlag
      ensures Slots() == Outcome(old(Slots()), ThreadId(handle)).0
      ensures inBounds <==> Outcome(old(Slots()), ThreadId(handle)).1 != -1
      ensures forall a, b, c :: 0 <= a < NUM_MARKER_TYPES && 0 <= b < MAX_MARKERS_PER_TYPE && 0 <= c < MAX_THREADS ==>
                var was := old(timersAccum[a, b, c]);
                if a == markerType && b == id && c == Outcome(old(Slots()), ThreadId(handle)).1 then
                  && timersAccum[a, b, c] == was + (now - startTimes[c]) as real / CLOCKS_PER_SEC as real
                  && timersAccumFlag[a, b, c]
                else
                  timersAccum[a, b, c] == was && timersAccumFlag[a, b, c] == old(timersAccumFlag[a, b, c])
    {
      var k := FindOrInsertThread(handle);
      inBounds := k >= 0;
      if inBounds {
        var elapsed := (now - startTimes[k]) as real / CLOCKS_PER_SEC as real;
        timersAccum[markerType, id, k] := timersAccum[markerType, id, k] + elapsed;
        timersAccumFlag[markerType, id, k] := true;
      }
    }
  }

  /** A call finds the slot that an earlier call of the same thread returned. */
  lemma OutcomeStays(slots: Slots, id: int)
    requires Outcome(slots, id).1 != -1
    ensures Outcome(Outcome(slots, id).0, id) == Outcome(slots, id)
  {
    var k := FindFrom(slots, id, 0);
    var (slots', free) := Outcome(slots, id);
    if k == MAX_THREADS {
      forall j | 0 <= j < free ensures slots'[j] != Slot(id, true) {
        assert slots[j] != Slot(id, true);
      }
      assert slots'[free] == Slot(id, true);
      assert FindFrom(slots', id, 0) == free;
    }
  }
}
