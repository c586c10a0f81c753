/** The client's work queue: any number of callers append reads and writes, one worker performs them,
    the adapter moves the bytes, and the completion handler clears the write flag of a region before
    it reports the transfer done. `clears` says whether the handler was compiled to do the former. */
module WorkQueue {
  import opened Sequences

  type Memory = map<int, seq<int>>

  datatype Op = Read(addr: int, len: nat) | Write(addr: int, data: seq<int>)
  datatype Result = Failed | Wrote | Got(data: seq<int>)

  // ---- What an atomic memory does ----

  /** An operation on a registered region must stay inside it; an unknown address is the handler's error path. */
  predicate Legal(mem: Memory, op: Op) {
    op.addr in mem ==> (if op.Read? then op.len else |op.data|) <= |mem[op.addr]|
  }

  function Do(mem: Memory, op: Op): (r: (Memory, Result))
    requires Legal(mem, op)
    ensures r.0.Keys == mem.Keys && forall a :: a in mem ==> |r.0[a]| == |mem[a]|
  {
    if op.addr !in mem then (mem, Failed)
    else
      match op
      case Read(a, len) => (mem, Got(mem[a][..len]))
      case Write(a, data) => (mem[a := data + mem[a][|data|..]], Wrote)
  }

  predicate AllLegal(mem: Memory, ops: seq<Op>) {
    forall i :: 0 <= i < |ops| ==> Legal(mem, ops[i])
  }

  /** Operations one after the other: memory and results. */
  function DoAll(mem: Memory, ops: seq<Op>): (r: (Memory, seq<Result>))
    requires AllLegal(mem, ops)
    ensures r.0.Keys == mem.Keys && (forall a :: a in mem ==> |r.0[a]| == |mem[a]|) && |r.1| == |ops|
  {
    if ops == [] then (mem, [])
    else
      var (m, rs) := DoAll(mem, ops[..|ops| - 1]);
      var (m', r) := Do(m, ops[|ops| - 1]);
      (m', rs + [r])
  }

  // ---- The program ----

  /** How far a posted transfer is: on its way, performed, its flag cleared, reported done. */
  datatype Stage = Posted | Performed(got: Result) | Cleared(got: Result) | Done(got: Result)
  datatype Worker = Idle | AtSpin(op: Op) | Waiting(op: Op, stage: Stage)

  datatype State = State(
    clears: bool, queue: seq<Op>, worker: Worker, flags: map<int, bool>, mem: Memory,
    initial: Memory, submitted: seq<Op>, results: seq<Result>)

  function Start(mem: Memory, clears: bool): State {
    State(clears, [], Idle, map a | a in mem :: false, mem, mem, [], [])
  }

  datatype Step = Submit(op: Op) | Take | Post | Perform | ClearFlag | SetDone | Finish

  predicate Enabled(s: State, t: Step) {
    match t
    case Submit(op) => Legal(s.mem, op)
    case Take => s.worker == Idle && s.queue != []
    case Post => s.worker.AtSpin? && (s.worker.op.addr in s.flags ==> !s.flags[s.worker.op.addr])
    case Perform => s.worker.Waiting? && s.worker.stage.Posted? && Legal(s.mem, s.worker.op)
    case ClearFlag => s.worker.Waiting? && s.worker.stage.Performed?
    case SetDone => s.worker.Waiting? && s.worker.stage.Cleared?
    case Finish => s.worker.Waiting? && s.worker.stage.Done?
  }

  function Next(s: State, t: Step): State
    requires Enabled(s, t)
  {
    match t
    case Submit(op) => s.(queue := s.queue + [op], submitted := s.submitted + [op])
    case Take => s.(worker := AtSpin(s.queue[0]), queue := s.queue[1..])
    case Post =>
      var op := s.worker.op;
      if op.addr !in s.flags then s.(worker := Idle, results := s.results + [Failed])
      else s.(worker := Waiting(op, Posted), flags := if op.Write? then s.flags[op.addr := true] else s.flags)
    case Perform =>
      var (mem, got) := Do(s.mem, s.worker.op);
      s.(mem := mem, worker := Waiting(s.worker.op, Performed(got)))
    case ClearFlag =>
      s.(worker := Waiting(s.worker.op, Cleared(s.worker.stage.got)),
         flags := if s.clears && s.worker.op.Write? then s.flags[s.worker.op.addr := false] else s.flags)
    case SetDone => s.(worker := Waiting(s.worker.op, Done(s.worker.stage.got)))
    case Finish => s.(worker := Idle, results := s.results + [s.worker.stage.got])
  }

  ghost predicate Run(s: State, steps: seq<Step>, s': State)
    decreases |steps|
  {
    if steps == [] then s' == s else Enabled(s, steps[0]) && Run(Next(s, steps[0]), steps[1..], s')
  }

  // ---- Sequential consistency, whatever the completion handler does with the flag ----

  function InHand(w: Worker): seq<Op> { if w == Idle then [] else [w.op] }

  /** Everything submitted is handled, in hand or queued, in the order of submission; results and
      memory are those of the handled operations performed one by one. */
  ghost predicate Inv(s: State) {
    && AllLegal(s.initial, s.submitted) && s.flags.Keys == s.initial.Keys
    && |s.results| <= |s.submitted|
    && s.submitted[|s.results|..] == InHand(s.worker) + s.queue
    && var (m, rs) := DoAll(s.initial, s.submitted[..|s.results|]);
       && s.results == rs
       && (if s.worker.Waiting? && !s.worker.stage.Posted? then
             Legal(m, s.worker.op) && Do(m, s.worker.op) == (s.mem, s.worker.stage.got)
           else s.mem == m)
       && (s.worker.Waiting? ==> s.worker.op.addr in s.initial)
  }

  lemma SameShape(m: Memory, m': Memory, op: Op)
    requires m.Keys == m'.Keys && forall a :: a in m ==> |m'[a]| == |m[a]|
    ensures Legal(m, op) == Legal(m', op)
  {}

  lemma InvShape(s: State)
    requires Inv(s)
    ensures s.mem.Keys == s.initial.Keys && forall a :: a in s.mem ==> |s.mem[a]| == |s.initial[a]|
  {}

  lemma OpInHand(s: State)
    requires Inv(s) && s.worker != Idle
    ensures |s.results| < |s.submitted| && s.submitted[|s.results|] == s.worker.op && Legal(s.mem, s.worker.op)
    ensures s.submitted[|s.results| + 1..] == s.queue
  {
    var rest := s.submitted[|s.results|..];
    assert rest[0] == s.worker.op && rest[1..] == s.queue;
    InvShape(s);
    SameShape(s.initial, s.mem, s.worker.op);
  }

  lemma RegionInHand(s: State)
    requires Inv(s) && s.worker.Waiting?
    ensures s.worker.op.addr in s.mem
  {}

  lemma SubmitKeeps(s: State, op: Op)
    requires Inv(s) && Enabled(s, Submit(op))
    ensures Inv(Next(s, Submit(op)))
  {
    InvShape(s);
    SameShape(s.initial, s.mem, op);
    hide Do, DoAll;
    var s', k := Next(s, Submit(op)), |s.results|;
    assert s'.submitted[..k] == s.submitted[..k];
    assert s'.submitted[k..] == s.submitted[k..] + [op];
  }

  /** One more operation handled. */
  lemma Handled(s: State, got: Result, mem: Memory)
    requires Inv(s) && s.worker != Idle
    requires var m := DoAll(s.initial, s.submitted[..|s.results|]).0;
        Legal(m, s.worker.op) && Do(m, s.worker.op) == (mem, got)
    ensures |s.results| < |s.submitted|
    ensures DoAll(s.initial, s.submitted[..|s.results| + 1]) == (mem, s.results + [got])
    ensures s.submitted[|s.results| + 1..] == s.queue
  {
    OpInHand(s);
    var k := |s.results|;
    assert s.submitted[..k + 1][..k] == s.submitted[..k];
  }

  lemma TakeKeeps(s: State)
    requires Inv(s) && Enabled(s, Take)
    ensures Inv(Next(s, Take))
  {
    assert [s.queue[0]] + s.queue[1..] == s.queue;
  }

  lemma PostKeeps(s: State)
    requires Inv(s) && Enabled(s, Post)
    ensures Inv(Next(s, Post))
  {
    if s.worker.op.addr !in s.flags {
      InvShape(s);
      OpInHand(s);
      Handled(s, Failed, s.mem);
    } else {
      OpInHand(s);
    }
  }

  lemma StagesKeep(s: State, t: Step)
    requires Inv(s) && Enabled(s, t) && (t == Perform || t == ClearFlag || t == SetDone)
    ensures Inv(Next(s, t))
  {
    assert Next(s, t).submitted == s.submitted && Next(s, t).results == s.results;
  }

  lemma FinishKeeps(s: State)
    requires Inv(s) && Enabled(s, Finish)
    ensures Inv(Next(s, Finish))
  {
    Handled(s, s.worker.stage.got, s.mem);
  }

  lemma NextKeepsInv(s: State, t: Step)
    requires Inv(s) && Enabled(s, t)
    ensures Inv(Next(s, t))
  {
    hide Inv, Do, DoAll;
    match t
    case Submit(op) => SubmitKeeps(s, op);
    case Take => TakeKeeps(s);
    case Post => PostKeeps(s);
    case Perform => StagesKeep(s, t);
    case ClearFlag => StagesKeep(s, t);
    case SetDone => StagesKeep(s, t);
    case Finish => FinishKeeps(s);
  }

  lemma {:induction false} RunKeepsInv(s: State, steps: seq<Step>, s': State)
    requires Inv(s) && Run(s, steps, s')
    ensures Inv(s') && s'.initial == s.initial && s'.clears == s.clears
    decreases |steps|
  {
    hide Inv, Do, DoAll;
    if steps != [] {
      NextKeepsInv(s, steps[0]);
      RunKeepsInv(Next(s, steps[0]), steps[1..], s');
    }
  }

  // ---- What the callers get, value by value ----

  /** The operations the submitting steps of a run ask for, in order. */
  function Asked(steps: seq<Step>): seq<Op> {
    if steps == [] then [] else (if steps[0].Submit? then [steps[0].op] else []) + Asked(steps[1..])
  }

  lemma {:induction false} RunSubmitsWhatWasAsked(s: State, steps: seq<Step>, s': State)
    requires Run(s, steps, s')
    ensures s'.submitted == s.submitted + Asked(steps)
    decreases |steps|
  {
    if steps != [] {
      var first := if steps[0].Submit? then [steps[0].op] else [];
      assert Next(s, steps[0]).submitted == s.submitted + first;
      hide Enabled, Next;
      RunSubmitsWhatWasAsked(Next(s, steps[0]), steps[1..], s');
      Assoc(s.submitted, first, Asked(steps[1..]));
    }
  }

  predicate Covers(op: Op, a: int, p: nat) { op.Write? && op.addr == a && p < |op.data| }

  /** The last of the first `k` operations that wrote place `p` of region `a`, or -1. */
  function LastWriter(ops: seq<Op>, k: nat, a: int, p: nat): (i: int)
    requires k <= |ops|
    ensures -1 <= i < k && (i >= 0 ==> Covers(ops[i], a, p)) && forall j :: i < j < k ==> !Covers(ops[j], a, p)
  {
    if k == 0 then -1 else if Covers(ops[k - 1], a, p) then k - 1 else LastWriter(ops, k - 1, a, p)
  }

  /** Place `p` of region `a` after the first `k` operations: as last written, or as it began. */
  function Cell(mem: Memory, ops: seq<Op>, k: nat, a: int, p: nat): int
    requires k <= |ops| && a in mem && p < |mem[a]|
  {
    var i := LastWriter(ops, k, a, p);
    if i < 0 then mem[a][p] else ops[i].data[p]
  }

  /** The result of operation `k`. */
  ghost predicate ResultIs(result: Result, mem: Memory, ops: seq<Op>, k: nat)
    requires k < |ops| && Legal(mem, ops[k])
  {
    if ops[k].addr !in mem then result == Failed
    else
      match ops[k]
      case Write(_, _) => result == Wrote
      case Read(a, len) =>
        result.Got? && |result.data| == len && forall p :: 0 <= p < len ==> result.data[p] == Cell(mem, ops, k, a, p)
  }

  /** Memory after the first `k` operations. */
  ghost predicate MemoryIs(m: Memory, mem: Memory, ops: seq<Op>, k: nat)
    requires k <= |ops|
  {
    m.Keys == mem.Keys && forall a :: a in mem ==> RegionIs(m, mem, ops, k, a)
  }

  ghost predicate RegionIs(m: Memory, mem: Memory, ops: seq<Op>, k: nat, a: int)
    requires k <= |ops| && a in mem && a in m
  {
    |m[a]| == |mem[a]| && forall p :: 0 <= p < |mem[a]| ==> m[a][p] == Cell(mem, ops, k, a, p)
  }

  lemma DoIsCells(m: Memory, mem: Memory, ops: seq<Op>, k: nat)
    requires k < |ops| && Legal(mem, ops[k]) && Legal(m, ops[k]) && MemoryIs(m, mem, ops, k)
    ensures MemoryIs(Do(m, ops[k]).0, mem, ops, k + 1) && ResultIs(Do(m, ops[k]).1, mem, ops, k)
  {
    var m' := Do(m, ops[k]).0;
    forall a | a in mem ensures RegionIs(m', mem, ops, k + 1, a) { assert RegionIs(m, mem, ops, k, a); }
    if ops[k].addr in mem { assert RegionIs(m, mem, ops, k, ops[k].addr); }
  }

  lemma {:induction false} DoAllIsCells(mem: Memory, ops: seq<Op>, k: nat)
    requires AllLegal(mem, ops) && k <= |ops|
    ensures MemoryIs(DoAll(mem, ops[..k]).0, mem, ops, k)
    ensures forall i :: 0 <= i < k ==> ResultIs(DoAll(mem, ops[..k]).1[i], mem, ops, i)
  {
    hide Do, DoAll, ResultIs, MemoryIs, Legal;
    if k == 0 {
      NothingDone(mem, ops);
    } else {
      DoAllIsCells(mem, ops, k - 1);
      var m := DoAll(mem, ops[..k - 1]).0;
      SameShape(mem, m, ops[k - 1]);
      DoIsCells(m, mem, ops, k - 1);
      DoAllStep(mem, ops, k);
    }
  }

  lemma NothingDone(mem: Memory, ops: seq<Op>)
    ensures MemoryIs(DoAll(mem, ops[..0]).0, mem, ops, 0)
  {
    forall a | a in mem ensures RegionIs(mem, mem, ops, 0, a) {}
  }

  lemma DoAllStep(mem: Memory, ops: seq<Op>, k: nat)
    requires AllLegal(mem, ops) && 0 < k <= |ops| && Legal(DoAll(mem, ops[..k - 1]).0, ops[k - 1])
    ensures var (m, rs) := DoAll(mem, ops[..k - 1]);
            DoAll(mem, ops[..k]) == (Do(m, ops[k - 1]).0, rs + [Do(m, ops[k - 1]).1])
  {
    assert ops[..k][..k - 1] == ops[..k - 1];
  }

  /** In every run the operations are handled in the order of submission, each once, with the results of an
      atomic memory: a read brings, place by place, what the operations before it last wrote, and an operation
      fails exactly on an unregistered address; whenever the worker is idle, memory holds what was last written. */
  lemma QueueRefinesMemory(mem: Memory, clears: bool, steps: seq<Step>, s: State)
    requires Run(Start(mem, clears), steps, s)
    ensures s.submitted == Asked(steps)
    ensures |s.results| <= |s.submitted| && AllLegal(mem, s.submitted)
    ensures forall k :: 0 <= k < |s.results| ==> ResultIs(s.results[k], mem, s.submitted, k)
    ensures s.worker == Idle ==> MemoryIs(s.mem, mem, s.submitted, |s.results|)
    ensures s.results == DoAll(mem, s.submitted[..|s.results|]).1
    ensures s.worker == Idle ==>
              s.mem == DoAll(mem, s.submitted[..|s.results|]).0 && s.submitted[|s.results|..] == s.queue
  {
    RunKeepsInv(Start(mem, clears), steps, s);
    RunSubmitsWhatWasAsked(Start(mem, clears), steps, s);
    NothingFirst(Asked(steps));
    hide Do, DoAll, ResultIs, MemoryIs;
    DoAllIsCells(mem, s.submitted, |s.results|);
  }

  // ---- The write flag ----

  /** With a handler that clears it, a flag is up only while its own write is under way. */
  ghost predicate FlagsDown(s: State) {
    forall a :: a in s.flags && s.flags[a] ==>
      s.worker.Waiting? && s.worker.op.Write? && s.worker.op.addr == a
          && (s.worker.stage.Posted? || s.worker.stage.Performed?)
  }

  lemma {:induction false} RunKeepsFlagsDown(s: State, steps: seq<Step>, s': State)
    requires s.clears && FlagsDown(s) && Run(s, steps, s')
    ensures FlagsDown(s')
    decreases |steps|
  {
    if steps != [] {
      assert FlagsDown(Next(s, steps[0]));
      RunKeepsFlagsDown(Next(s, steps[0]), steps[1..], s');
    }
  }

  /** The worker's spin is up against a flag. */
  predicate Blocked(s: State) { s.worker.AtSpin? && s.worker.op.addr in s.flags && s.flags[s.worker.op.addr] }

  /** A worker that is blocked stays blocked on the same operation. */
  lemma {:induction false} BlockedForGood(s: State, steps: seq<Step>, s': State)
    requires Blocked(s) && Run(s, steps, s')
    ensures Blocked(s') && s'.worker == s.worker && s'.results == s.results
    decreases |steps|
  {
    if steps != [] { BlockedForGood(Next(s, steps[0]), steps[1..], s'); }
  }

  lemma Prepend(s: State, t: Step, steps: seq<Step>, s': State)
    requires Enabled(s, t) && Run(Next(s, t), steps, s')
    ensures Run(s, [t] + steps, s')
  {
    assert ([t] + steps)[1..] == steps;
  }

  /** Without the clearing, a flag once up stays up: from then on every operation on its region that the
      worker takes blocks it. */
  lemma {:induction false} FlagStaysUp(s: State, steps: seq<Step>, s': State, a: int)
    requires !s.clears && a in s.flags && s.flags[a] && Run(s, steps, s')
    ensures !s'.clears && a in s'.flags && s'.flags[a]
    ensures s'.worker.AtSpin? && s'.worker.op.addr == a ==> Blocked(s')
    decreases |steps|
  {
    if steps != [] { FlagStaysUp(Next(s, steps[0]), steps[1..], s', a); }
  }

  /** From the post of a write to its end, with a handler that leaves the flag up. */
  lemma WriteEnds(s: State, rest: seq<Step>, s': State) returns (steps: seq<Step>)
    requires s.worker.Waiting? && s.worker.stage == Posted && Legal(s.mem, s.worker.op) && !s.clears
    requires var (mem, got) := Do(s.mem, s.worker.op);
             Run(s.(mem := mem, worker := Idle, results := s.results + [got]), rest, s')
    ensures Run(s, steps, s')
  {
    var s4 := Next(s, Perform);
    var s5 := Next(s4, ClearFlag);
    var s6 := Next(s5, SetDone);
    Prepend(s6, Finish, rest, s');
    Prepend(s5, SetDone, [Finish] + rest, s');
    Prepend(s4, ClearFlag, [SetDone] + ([Finish] + rest), s');
    Prepend(s, Perform, [ClearFlag] + ([SetDone] + ([Finish] + rest)), s');
    steps := [Perform] + ([ClearFlag] + ([SetDone] + ([Finish] + rest)));
  }

  /** An operation submitted to an idle worker with an empty queue reaches its spin. */
  lemma ReachesSpin(s: State, op: Op, rest: seq<Step>, s': State)
    requires s.worker == Idle && s.queue == [] && Legal(s.mem, op)
    requires Run(s.(worker := AtSpin(op), submitted := s.submitted + [op]), rest, s')
    ensures Run(s, [Submit(op)] + ([Take] + rest), s')
  {
    var s1 := Next(s, Submit(op));
    assert Next(s1, Take) == s.(worker := AtSpin(op), submitted := s.submitted + [op]);
    Prepend(s1, Take, rest, s');
    Prepend(s, Submit(op), [Take] + rest, s');
  }

  /** Without the clearing, any write followed by any operation on the same region blocks. */
  lemma SecondOperationBlocks(mem: Memory, w: Op, op: Op) returns (steps: seq<Step>, s: State)
    requires op.addr in mem && Legal(mem, op) && w.Write? && w.addr == op.addr && Legal(mem, w)
    ensures Run(Start(mem, false), steps, s) && s.submitted == [w, op] && Blocked(s) && s.worker.op == op
  {
    var s0 := Start(mem, false);
    var s2 := s0.(worker := AtSpin(w), submitted := s0.submitted + [w]);
    var s3 := Next(s2, Post);
    var (mem', got) := Do(mem, w);
    var s7 := s3.(mem := mem', worker := Idle, results := s0.results + [got]);
    SameShape(mem, mem', op);
    s := s7.(worker := AtSpin(op), submitted := s7.submitted + [op]);
    assert Run(s, [], s);
    ReachesSpin(s7, op, [], s);
    var tail := WriteEnds(s3, [Submit(op)] + ([Take] + []), s);
    Prepend(s2, Post, tail, s);
    ReachesSpin(s0, w, [Post] + tail, s);
    steps := [Submit(w)] + ([Take] + ([Post] + tail));
  }

  ghost predicate Unregistered(mem: Memory) { forall a :: a !in mem }

  ghost predicate Reachable(mem: Memory, clears: bool, s: State) { exists steps :: Run(Start(mem, clears), steps, s) }

  /** The spins never block, in any run, exactly when the handler clears the flag (or nothing is registered). */
  lemma SpinsNeverBlockIff(mem: Memory, clears: bool)
    ensures (forall s :: Reachable(mem, clears, s) ==> !Blocked(s)) <==> clears || Unregistered(mem)
  {
    if clears || Unregistered(mem) {
      forall s | Reachable(mem, clears, s) ensures !Blocked(s) {
        var steps :| Run(Start(mem, clears), steps, s);
        RunKeepsInv(Start(mem, clears), steps, s);
        if clears { RunKeepsFlagsDown(Start(mem, clears), steps, s); }
      }
    } else {
      var a :| a in mem;
      var steps, s := SecondOperationBlocks(mem, Write(a, mem[a]), Read(a, |mem[a]|));
      assert Reachable(mem, clears, s) && Blocked(s);
    }
  }

  /** Steps still owed to the submitted operations. */
  function Owed(s: State): nat {
    7 * |s.queue| + match s.worker
    case Idle => 0
    case AtSpin(_) => 6
    case Waiting(_, Posted) => 5
    case Waiting(_, Performed(_)) => 4
    case Waiting(_, Cleared(_)) => 3
    case Waiting(_, Done(_)) => 2
  }

  lemma StepPays(s: State, t: Step)
    requires Enabled(s, t) && !t.Submit?
    ensures Owed(Next(s, t)) < Owed(s)
  {}

  lemma SomeStep(s: State) returns (t: Step)
    requires Inv(s) && FlagsDown(s) && Owed(s) > 0
    ensures Enabled(s, t) && !t.Submit?
  {
    if s.worker != Idle { OpInHand(s); }
    hide Inv, Do, DoAll, Legal;
    match s.worker
    case Idle => return Take;
    case AtSpin(_) => return Post;
    case Waiting(_, Posted) => return Perform;
    case Waiting(_, Performed(_)) => return ClearFlag;
    case Waiting(_, Cleared(_)) => return SetDone;
    case Waiting(_, Done(_)) => return Finish;
  }

  /** With a handler that clears the flag the queue drains: every step but a submission reduces what is
      owed, and one can be taken as long as anything is. */
  lemma QueueDrains(mem: Memory, steps: seq<Step>, s: State)
    requires Run(Start(mem, true), steps, s)
    ensures forall t :: Enabled(s, t) && !t.Submit? ==> Owed(Next(s, t)) < Owed(s)
    ensures Owed(s) > 0 ==> exists t :: Enabled(s, t) && !t.Submit?
  {
    RunKeepsInv(Start(mem, true), steps, s);
    RunKeepsFlagsDown(Start(mem, true), steps, s);
    forall t | Enabled(s, t) && !t.Submit? ensures Owed(Next(s, t)) < Owed(s) { StepPays(s, t); }
    if Owed(s) > 0 { var t := SomeStep(s); }
  }

  // ---- The client, updating its state in place ----

  class Client {
    const clears: bool
    var queue: seq<Op>
    var worker: Worker
    var flags: map<int, bool>
    var mem: Memory
    ghost const initial: Memory
    ghost var submitted: seq<Op>
    ghost var results: seq<Result>

    ghost function View(): State
      reads this
    {
      State(clears, queue, worker, flags, mem, initial, submitted, results)
    }

    ghost predicate Valid()
      reads this
    {
      Inv(View())
    }

    constructor (mem: Memory, clears: bool)
      ensures Valid() && View() == Start(mem, clears)
    {
      this.clears, this.mem, this.initial := clears, mem, mem;
      queue, worker, flags := [], Idle, map a | a in mem :: false;
      submitted, results := [], [];
    }

    /** dhmp_read and dhmp_write: append under the mutex. */
    method SubmitWork(op: Op)
      requires Valid() && Legal(mem, op)
      modifies this
      ensures Valid() && View() == Next(old(View()), Submit(op))
    {
      hide Inv, Do, DoAll;
      NextKeepsInv(View(), Submit(op));
      queue := queue + [op];
      submitted := submitted + [op];
    }

    ghost function WorkerStep(): Step
      reads this
    {
      if worker.Idle? then Take else if worker.AtSpin? then Post else Finish
    }

    /** dhmp_work_handle_thread between two transfers: take the first work, or get past its handler's
        spin and post it, or see it done. */
    method WorkerTurn() returns (acted: bool)
      requires Valid()
      modifies this
      ensures Valid() && acted == old(Enabled(View(), WorkerStep()))
      ensures View() == if acted then Next(old(View()), old(WorkerStep())) else old(View())
    {
      hide Inv, Do, DoAll;
      match worker {
        case Idle =>
          if queue == [] { return false; }
          NextKeepsInv(View(), Take);
          worker := AtSpin(queue[0]);
          queue := queue[1..];
        case AtSpin(op) =>
          if op.addr in flags && flags[op.addr] { return false; }
          NextKeepsInv(View(), Post);
          if op.addr !in flags {
            worker := Idle;
            results := results + [Failed];
          } else {
            if op.Write? { flags := flags[op.addr := true]; }
            worker := Waiting(op, Posted);
          }
        case Waiting(op, Done(got)) =>
          NextKeepsInv(View(), Finish);
          worker := Idle;
          results := results + [got];
        case _ =>
          return false;
      }
      return true;
    }

    /** The adapter moves the bytes of the posted transfer. */
    method Transfer() returns (acted: bool)
      requires Valid()
      modifies this
      ensures Valid() && acted == old(Enabled(View(), Perform))
      ensures View() == if acted then Next(old(View()), Perform) else old(View())
    {
      hide Inv, DoAll;
      acted := worker.Waiting? && worker.stage.Posted?;
      if acted {
        OpInHand(View());
        RegionInHand(View());
        NextKeepsInv(View(), Perform);
        var op := worker.op;
        match op {
          case Read(a, len) =>
            worker := Waiting(op, Performed(Got(mem[a][..len])));
          case Write(a, data) =>
            mem := mem[a := data + mem[a][|data|..]];
            worker := Waiting(op, Performed(Wrote));
        }
      }
    }

    /** dhmp_wc_success_handler on a transfer: first the region's flag, then the transfer's own. */
    method OnCompletion()
      requires Valid() && worker.Waiting? && worker.stage.Performed?
      modifies this
      ensures Valid() && old(Enabled(View(), ClearFlag)) && Enabled(Next(old(View()), ClearFlag), SetDone)
      ensures View() == Next(Next(old(View()), ClearFlag), SetDone)
    {
      hide Inv, Do, DoAll;
      NextKeepsInv(View(), ClearFlag);
      NextKeepsInv(Next(View(), ClearFlag), SetDone);
      if clears && worker.op.Write? { flags := flags[worker.op.addr := false]; }
      worker := Waiting(worker.op, Done(worker.stage.got));
    }
  }
}
