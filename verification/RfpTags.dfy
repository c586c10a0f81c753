/** RFP: the client writes a request into the server's buffer and polls a reply buffer by RDMA reads;
    an alternating tag behind the reply tells new from old. Setting the tag and clearing the
    request's valid byte are two steps of the server. */
module RfpTags {
  import opened Bytes
  import opened Sequences

  /** A read or a write of the agreed size. */
  datatype Op = Op(write: bool, addr: Word, data: seq<Byte>)

  datatype Client = Idle | Waiting(op: Op)
  datatype Server = Polling | Tagging(write: bool) | Clearing

  datatype State = State(
    len: Word, client: Client, ctag: Byte, valid: bool, request: Op,
    server: Server, stag: Byte, reply: seq<Byte>, mem: seq<Byte>,
    initial: seq<Byte>, issued: seq<Op>, executed: seq<Op>, results: seq<seq<Byte>>)

  predicate Legal(op: Op, len: nat, memSize: nat) {
    op.addr + len <= memSize && (op.write ==> |op.data| == len)
  }

  /** Offset of the tag: behind the size, and for a read behind the data. */
  function TagAt(write: bool, len: nat): nat { 1 + 8 + if write then 0 else len }

  function Start(len: Word, mem: seq<Byte>, reply: seq<Byte>, request: Op): State {
    State(len, Idle, 1, false, request, Polling, 1, reply, mem, mem, [], [], [])
  }

  datatype Step =
    | Issue(op: Op)  // amper_RFP_work_handler writes the request, valid byte last
    | Execute        // amper_RFP_request_handler, up to the tag
    | SetTag
    | ClearValid     // RFP_run
    | Accept         // a poll of the client that finds the expected tag

  predicate Shaped(s: State) {
    && |s.reply| == s.len + 24 && |s.initial| == |s.mem|
    && (s.client.Waiting? ==> Legal(s.client.op, s.len, |s.mem|))
    && (s.valid ==> Legal(s.request, s.len, |s.mem|))
  }

  predicate Enabled(s: State, t: Step)
    requires Shaped(s)
  {
    match t
    case Issue(op) => s.client == Idle && Legal(op, s.len, |s.mem|)
    case Execute => s.server == Polling && s.valid
    case SetTag => s.server.Tagging?
    case ClearValid => s.server == Clearing
    case Accept => s.client.Waiting? && s.reply[TagAt(s.client.op.write, s.len)] == s.ctag
  }

  function Other(tag: Byte): Byte { if tag == 1 then 2 else 1 }

  function After(mem: seq<Byte>, op: Op): (m: seq<Byte>)
    requires op.write ==> op.addr + |op.data| <= |mem|
    ensures |m| == |mem|
  {
    if op.write then Splice(mem, op.addr, op.data) else mem
  }

  function Answer(mem: seq<Byte>, op: Op, len: nat): seq<Byte>
    requires op.addr + len <= |mem|
  {
    if op.write then [] else mem[op.addr..op.addr + len]
  }

  /** The reply buffer up to the tag. */
  function Replied(reply: seq<Byte>, len: Word, answer: seq<Byte>): (r: seq<Byte>)
    requires 9 + |answer| <= |reply|
    ensures |r| == |reply|
  {
    Splice(reply, 1, Enc(len) + answer)
  }

  function Next(s: State, t: Step): State
    requires Shaped(s) && Enabled(s, t)
  {
    match t
    case Issue(op) => s.(client := Waiting(op), request := op, valid := true, issued := s.issued + [op])
    case Execute =>
      var op := s.request;
      s.(mem := After(s.mem, op), reply := Replied(s.reply, s.len, Answer(s.mem, op, s.len)),
         server := Tagging(op.write), executed := s.executed + [op])
    case SetTag => s.(reply := s.reply[TagAt(s.server.write, s.len) := s.stag], stag := Other(s.stag),
        server := Clearing)
    case ClearValid => s.(valid := false, server := Polling)
    case Accept =>
      var op := s.client.op;
      s.(client := Idle, ctag := Other(s.ctag), results := s.results + [if op.write then [] else s.reply[9..9 + s.len]])
  }

  // ---- What the operations should have done ----

  ghost predicate AllLegal(ops: seq<Op>, len: nat, memSize: nat) {
    forall i :: 0 <= i < |ops| ==> Legal(ops[i], len, memSize)
  }

  ghost function AfterAll(mem: seq<Byte>, ops: seq<Op>, len: nat): (m: seq<Byte>)
    requires AllLegal(ops, len, |mem|)
    ensures |m| == |mem|
  {
    if ops == [] then mem else After(AfterAll(mem, ops[..|ops| - 1], len), ops[|ops| - 1])
  }

  ghost function Answers(mem: seq<Byte>, ops: seq<Op>, len: nat): (a: seq<seq<Byte>>)
    requires AllLegal(ops, len, |mem|)
    ensures |a| == |ops|
  {
    if ops == [] then []
    else
      var before := ops[..|ops| - 1];
      Answers(mem, before, len) + [Answer(AfterAll(mem, before, len), ops[|ops| - 1], len)]
  }

  lemma OneMore(mem: seq<Byte>, ops: seq<Op>, op: Op, len: nat)
    requires AllLegal(ops, len, |mem|) && Legal(op, len, |mem|)
    ensures AllLegal(ops + [op], len, |mem|)
    ensures AfterAll(mem, ops + [op], len) == After(AfterAll(mem, ops, len), op)
    ensures Answers(mem, ops + [op], len) == Answers(mem, ops, len) + [Answer(AfterAll(mem, ops, len), op, len)]
  {
    assert (ops + [op])[..|ops|] == ops;
  }

  // ---- The invariant ----

  /** The tag that comes with the k-th reply, from 0. */
  function TagOf(k: nat): Byte { if k % 2 == 0 then 1 else 2 }

  /** Replies tagged so far. */
  function Tagged(s: State): int { |s.executed| - if s.server.Tagging? then 1 else 0 }

  ghost predicate Counts(s: State) {
    && |s.results| <= Tagged(s) <= |s.results| + 1
    && (s.client == Idle ==> |s.issued| == |s.results| == |s.executed|)
    && (s.client.Waiting? ==>
          |s.issued| == |s.results| + 1 && |s.executed| <= |s.issued| && s.issued[|s.results|] == s.client.op)
    && s.executed == s.issued[..|s.executed|]
    && s.ctag == TagOf(|s.results|) && s.stag == TagOf(Tagged(s))
  }

  /** Memory and results are those of the executed operations; a result is accepted only for an executed request. */
  ghost predicate Correct(s: State)
    requires Shaped(s)
  {
    && |s.results| <= |s.executed| && AllLegal(s.executed, s.len, |s.initial|)
    && s.mem == AfterAll(s.initial, s.executed, s.len)
    && s.results == Answers(s.initial, s.executed, s.len)[..|s.results|]
  }

  /** Where the outstanding request is. */
  ghost predicate Progress(s: State)
    requires Shaped(s) && Counts(s) && Correct(s)
  {
    && (s.client == Idle ==> (s.server == Polling && !s.valid) || s.server == Clearing)
    && (s.client.Waiting? ==>
      var op, seen := s.client.op, s.reply[TagAt(s.client.op.write, s.len)] == s.ctag;
      if |s.executed| == |s.results| then
        s.server == Polling && s.valid && s.request == op && !seen
      else
        && (!op.write ==> s.reply[9..9 + s.len] == Answers(s.initial, s.executed, s.len)[|s.results|])
        && (if s.server.Tagging? then s.server.write == op.write && !seen
            else seen && (s.server == Polling ==> !s.valid)))
  }

  ghost predicate Inv(s: State) { Shaped(s) && Counts(s) && Correct(s) && Progress(s) }

  /** What the client could see before it issues: the byte it will poll does not already hold the tag it will expect. */
  predicate Fresh(s: State, op: Op)
    requires Shaped(s)
  {
    s.reply[TagAt(op.write, s.len)] != s.ctag
  }

  /** A request is safe when the server is not between setting the tag and clearing the valid byte,
      and the polled byte is fresh. */
  predicate Safe(s: State, op: Op)
    requires Shaped(s)
  {
    s.server == Polling && Fresh(s, op)
  }

  lemma ExecuteKeeps(s: State)
    requires Inv(s) && Enabled(s, Execute)
    ensures Inv(Next(s, Execute))
  {
    hide Replied, After, AfterAll, Answers;
    var op, answer := s.request, Answer(s.mem, s.request, s.len);
    OneMore(s.initial, s.executed, op, s.len);
    assert s.issued[..|s.executed| + 1] == s.issued[..|s.executed|] + [op];
    ReplyHolds(s.reply, s.len, answer);
    TagUntouched(s.reply, s.len, answer, op.write);
  }

  lemma TagUntouched(reply: seq<Byte>, len: Word, answer: seq<Byte>, write: bool)
    requires |reply| == len + 24 && |answer| == if write then 0 else len
    ensures Replied(reply, len, answer)[TagAt(write, len)] == reply[TagAt(write, len)]
    ensures len == 0 || write ==> Replied(reply, len, answer)[TagAt(true, len)] == reply[TagAt(true, len)]
  {
    SpliceReads(reply, 1, Enc(len) + answer);
  }

  lemma ReplyHolds(reply: seq<Byte>, len: Word, answer: seq<Byte>)
    requires 9 + |answer| <= |reply|
    ensures Replied(reply, len, answer)[9..9 + |answer|] == answer
  {
    assert Splice(reply, 1, Enc(len) + answer)[1..9 + |answer|] == Enc(len) + answer;
    assert Replied(reply, len, answer)[9..9 + |answer|] == (Enc(len) + answer)[8..];
  }

  lemma SizeHolds(reply: seq<Byte>, len: Word, answer: seq<Byte>)
    requires 9 + |answer| <= |reply|
    ensures Replied(reply, len, answer)[1..9] == Enc(len)
  {}

  lemma SetTagKeeps(s: State)
    requires Inv(s) && Enabled(s, SetTag)
    ensures Inv(Next(s, SetTag))
  {
    var s', at := Next(s, SetTag), TagAt(s.server.write, s.len);
    assert s'.reply[9..9 + s.len] == s.reply[9..9 + s.len] || s.server.write;
  }

  lemma AcceptKeeps(s: State)
    requires Inv(s) && Enabled(s, Accept)
    ensures Inv(Next(s, Accept))
  {
    hide AfterAll, Answers;
    var k, all := |s.results|, Answers(s.initial, s.executed, s.len);
    if s.client.op.write { WriteAnswers(s.initial, s.executed, s.len, k); }
    assert Next(s, Accept).results == s.results + [all[k]];
    assert all[..k + 1] == all[..k] + [all[k]];
  }

  lemma {:induction false} WriteAnswers(mem: seq<Byte>, ops: seq<Op>, len: nat, k: nat)
    requires AllLegal(ops, len, |mem|) && k < |ops| && ops[k].write
    ensures Answers(mem, ops, len)[k] == []
  {
    if k < |ops| - 1 { WriteAnswers(mem, ops[..|ops| - 1], len, k); }
  }

  lemma NextKeepsInv(s: State, t: Step)
    requires Inv(s) && Enabled(s, t) && (t.Issue? ==> Safe(s, t.op))
    ensures Inv(Next(s, t))
  {
    match t
    case Issue(op) => assert (s.issued + [op])[..|s.executed|] == s.issued[..|s.executed|];
    case Execute => ExecuteKeeps(s);
    case SetTag => SetTagKeeps(s);
    case ClearValid =>
    case Accept => AcceptKeeps(s);
  }

  // ---- Runs ----

  ghost predicate Run(s: State, steps: seq<Step>, s': State)
    decreases |steps|
  {
    if steps == [] then s' == s else Shaped(s) && Enabled(s, steps[0]) && Run(Next(s, steps[0]), steps[1..], s')
  }

  ghost predicate SafeRun(s: State, steps: seq<Step>, s': State)
    decreases |steps|
  {
    if steps == [] then s' == s
    else
      && Shaped(s) && Enabled(s, steps[0]) && (steps[0].Issue? ==> Safe(s, steps[0].op))
      && SafeRun(Next(s, steps[0]), steps[1..], s')
  }

  lemma StartInv(len: Word, mem: seq<Byte>, reply: seq<Byte>, request: Op)
    requires |reply| == len + 24
    ensures Inv(Start(len, mem, reply, request))
  {}

  lemma {:induction false} SafeRunKeepsInv(s: State, steps: seq<Step>, s': State)
    requires Inv(s) && SafeRun(s, steps, s')
    ensures Inv(s') && s'.len == s.len && s'.initial == s.initial
    decreases |steps|
  {
    if steps != [] {
      NextKeepsInv(s, steps[0]);
      SafeRunKeepsInv(Next(s, steps[0]), steps[1..], s');
    }
  }

  // ---- What the callers get, byte by byte ----

  /** The requests the issuing steps of a run make, in order. */
  function Asked(steps: seq<Step>): seq<Op> {
    if steps == [] then [] else (if steps[0].Issue? then [steps[0].op] else []) + Asked(steps[1..])
  }

  lemma {:induction false} RunIssuesWhatWasAsked(s: State, steps: seq<Step>, s': State)
    requires Run(s, steps, s')
    ensures s'.issued == s.issued + Asked(steps)
    decreases |steps|
  {
    if steps != [] {
      var first := if steps[0].Issue? then [steps[0].op] else [];
      assert Next(s, steps[0]).issued == s.issued + first;
      hide Enabled, Next;
      RunIssuesWhatWasAsked(Next(s, steps[0]), steps[1..], s');
      Assoc(s.issued, first, Asked(steps[1..]));
    }
  }

  predicate Covers(op: Op, q: nat) { op.write && op.addr <= q < op.addr + |op.data| }

  /** The last of the first `k` operations that wrote byte `q`, or -1. */
  function LastWriter(ops: seq<Op>, k: nat, q: nat): (i: int)
    requires k <= |ops|
    ensures -1 <= i < k && (i >= 0 ==> Covers(ops[i], q)) && forall j :: i < j < k ==> !Covers(ops[j], q)
  {
    if k == 0 then -1 else if Covers(ops[k - 1], q) then k - 1 else LastWriter(ops, k - 1, q)
  }

  /** Byte `q` after the first `k` operations: as last written, or as it began. */
  function Cell(mem: seq<Byte>, ops: seq<Op>, k: nat, q: nat): Byte
    requires k <= |ops| && q < |mem|
  {
    var i := LastWriter(ops, k, q);
    if i < 0 then mem[q] else ops[i].data[q - ops[i].addr]
  }

  lemma {:induction false} AfterAllCells(mem: seq<Byte>, ops: seq<Op>, len: nat, k: nat, q: nat)
    requires AllLegal(ops, len, |mem|) && k <= |ops| && q < |mem|
    ensures AfterAll(mem, ops[..k], len)[q] == Cell(mem, ops, k, q)
  {
    if k > 0 {
      var before, op := ops[..k - 1], ops[k - 1];
      assert ops[..k][..k - 1] == before && ops[..k][k - 1] == op;
      AfterAllCells(mem, ops, len, k - 1, q);
      if op.write { SpliceReads(AfterAll(mem, before, len), op.addr, op.data); }
    }
  }

  lemma {:induction false} AnswersAt(mem: seq<Byte>, ops: seq<Op>, len: nat, k: nat)
    requires AllLegal(ops, len, |mem|) && k < |ops|
    ensures Answers(mem, ops, len)[k] == Answer(AfterAll(mem, ops[..k], len), ops[k], len)
  {
    if k < |ops| - 1 {
      AnswersAt(mem, ops[..|ops| - 1], len, k);
      assert ops[..|ops| - 1][..k] == ops[..k];
    }
  }

  /** The result of request `k`: a read brings, byte by byte, what was last written before it. */
  ghost predicate ResultIs(result: seq<Byte>, mem: seq<Byte>, ops: seq<Op>, k: nat, len: nat)
    requires k < |ops| && Legal(ops[k], len, |mem|)
  {
    if ops[k].write then result == []
    else |result| == len && forall p :: 0 <= p < len ==> result[p] == Cell(mem, ops, k, ops[k].addr + p)
  }

  lemma AnswersAreResults(mem: seq<Byte>, ops: seq<Op>, len: nat, k: nat)
    requires AllLegal(ops, len, |mem|) && k < |ops|
    ensures ResultIs(Answers(mem, ops, len)[k], mem, ops, k, len)
  {
    AnswersAt(mem, ops, len, k);
    if !ops[k].write {
      forall p | 0 <= p < len ensures Answers(mem, ops, len)[k][p] == Cell(mem, ops, k, ops[k].addr + p) {
        AfterAllCells(mem, ops, len, k, ops[k].addr + p);
      }
    }
  }

  /** What was asked was done: memory and results are those of the requests `ops`, in order. */
  ghost predicate DoneAsAsked(s: State, mem: seq<Byte>, ops: seq<Op>, len: nat) {
    && |s.results| <= |s.executed| <= |ops| && s.executed == ops[..|s.executed|] && AllLegal(s.executed, len, |mem|)
    && |s.mem| == |mem| && (forall q :: 0 <= q < |mem| ==> s.mem[q] == Cell(mem, ops, |s.executed|, q))
    && forall k :: 0 <= k < |s.results| ==>
         Legal(s.executed[k], len, |mem|) && ResultIs(s.results[k], mem, s.executed, k, len)
  }

  lemma {:induction false} CellOfPrefix(mem: seq<Byte>, ops: seq<Op>, n: nat, k: nat, q: nat)
    requires k <= n <= |ops| && q < |mem|
    ensures Cell(mem, ops[..n], k, q) == Cell(mem, ops, k, q)
  {
    if k > 0 { CellOfPrefix(mem, ops, n, k - 1, q); }
  }

  lemma CorrectIsDone(s: State, mem: seq<Byte>, ops: seq<Op>)
    requires Shaped(s) && Correct(s) && s.initial == mem && |s.executed| <= |ops| && s.executed == ops[..|s.executed|]
    ensures DoneAsAsked(s, mem, ops, s.len)
  {
    hide AfterAll, Answers, Cell, ResultIs;
    var n := |s.executed|;
    assert s.executed[..n] == s.executed;
    forall q | 0 <= q < |mem| ensures s.mem[q] == Cell(mem, ops, n, q) {
      AfterAllCells(mem, s.executed, s.len, n, q);
      CellOfPrefix(mem, ops, n, n, q);
    }
    forall k | 0 <= k < |s.results| ensures ResultIs(s.results[k], mem, s.executed, k, s.len) {
      AnswersAreResults(mem, s.executed, s.len, k);
    }
  }

  lemma {:induction false} SafeRunIsRun(s: State, steps: seq<Step>, s': State)
    requires SafeRun(s, steps, s')
    ensures Run(s, steps, s')
    decreases |steps|
  {
    if steps != [] { SafeRunIsRun(Next(s, steps[0]), steps[1..], s'); }
  }

  lemma InvSays(s: State)
    requires Inv(s)
    ensures |s.results| <= |s.executed| <= |s.issued| <= |s.results| + 1 && s.executed == s.issued[..|s.executed|]
    ensures AllLegal(s.executed, s.len, |s.initial|) && s.mem == AfterAll(s.initial, s.executed, s.len)
    ensures s.results == Answers(s.initial, s.executed, s.len)[..|s.results|]
    ensures s.client == Idle && s.server == Polling ==> s.ctag == s.stag
  {
    hide AfterAll, Answers, Replied;
  }

  lemma SafeRunIsDone(len: Word, mem: seq<Byte>, reply: seq<Byte>, request: Op, steps: seq<Step>, s: State)
    requires |reply| == len + 24 && SafeRun(Start(len, mem, reply, request), steps, s)
    requires Inv(s) && s.len == len && s.initial == mem
    ensures s.issued == Asked(steps) && DoneAsAsked(s, mem, Asked(steps), len)
  {
    hide AfterAll, Answers, DoneAsAsked, Asked, SafeRun, Run, Progress;
    SafeRunIsRun(Start(len, mem, reply, request), steps, s);
    RunIssuesWhatWasAsked(Start(len, mem, reply, request), steps, s);
    NothingFirst(Asked(steps));
    CorrectIsDone(s, mem, s.issued);
  }

  /** If every request is safe when issued, the requests the callers make are executed in order, each once;
      reply n is accepted only after request n was executed, and brings a read, byte by byte, what the
      requests before it last wrote; and the tags stay in phase. */
  lemma SafeRunsAreCorrect(len: Word, mem: seq<Byte>, reply: seq<Byte>, request: Op, steps: seq<Step>, s: State)
    requires |reply| == len + 24 && SafeRun(Start(len, mem, reply, request), steps, s)
    ensures |s.results| <= |s.executed| <= |s.issued| <= |s.results| + 1 && s.executed == s.issued[..|s.executed|]
    ensures AllLegal(s.executed, len, |mem|) && s.mem == AfterAll(mem, s.executed, len)
    ensures s.results == Answers(mem, s.executed, len)[..|s.results|]
    ensures s.issued == Asked(steps) && DoneAsAsked(s, mem, Asked(steps), len)
    ensures s.client == Idle && s.server == Polling ==> s.ctag == s.stag
  {
    StartInv(len, mem, reply, request);
    hide Inv, AfterAll, Answers, DoneAsAsked, Asked, SafeRun;
    SafeRunKeepsInv(Start(len, mem, reply, request), steps, s);
    SafeRunIsDone(len, mem, reply, request, steps, s);
    InvSays(s);
  }

  /** In a safe run the outstanding request is always answered: some step other than an issue can be taken. */
  lemma NeverStuck(s: State)
    requires Inv(s) && s.client.Waiting?
    ensures Enabled(s, Execute) || Enabled(s, SetTag) || Enabled(s, ClearValid) || Enabled(s, Accept)
  {}

  // ---- One kind of operation ----

  /** The byte polled by operations of one kind never holds the next tag to be set. */
  ghost predicate Alternates(s: State, write: bool)
    requires Shaped(s)
  {
    0 <= Tagged(s) && s.reply[TagAt(write, s.len)] != TagOf(Tagged(s)) && s.stag == TagOf(Tagged(s))
  }

  /** A run in which every request is of one kind (or carries no data) and none is issued before the
      server has cleared the valid byte of the one before. */
  ghost predicate OneKindRun(s: State, steps: seq<Step>, s': State, write: bool)
    decreases |steps|
  {
    if steps == [] then s' == s
    else
      && Shaped(s) && Enabled(s, steps[0])
      && (steps[0].Issue? ==> s.server == Polling && (steps[0].op.write == write || s.len == 0))
      && OneKindRun(Next(s, steps[0]), steps[1..], s', write)
  }

  ghost predicate OfKind(s: State, write: bool) {
    forall i :: 0 <= i < |s.issued| ==> s.issued[i].write == write || s.len == 0
  }

  lemma KindStep(s: State, t: Step, write: bool)
    requires Inv(s) && Alternates(s, write) && OfKind(s, write) && Enabled(s, t)
    requires t.Issue? ==> s.server == Polling && (t.op.write == write || s.len == 0)
    ensures t.Issue? ==> Safe(s, t.op)
    ensures Shaped(Next(s, t)) ==> Alternates(Next(s, t), write) && OfKind(Next(s, t), write)
  {
    hide Replied, After, AfterAll, Answers;
    if t.Execute? {
      TagUntouched(s.reply, s.len, Answer(s.mem, s.request, s.len), s.request.write);
      assert s.request == s.issued[|s.results|];
    }
  }

  lemma {:induction false} OneKindIsSafe(s: State, steps: seq<Step>, s': State, write: bool)
    requires Inv(s) && Alternates(s, write) && OfKind(s, write) && OneKindRun(s, steps, s', write)
    ensures SafeRun(s, steps, s')
    decreases |steps|
  {
    if steps != [] {
      KindStep(s, steps[0], write);
      NextKeepsInv(s, steps[0]);
      OneKindIsSafe(Next(s, steps[0]), steps[1..], s', write);
    }
  }

  /** Runs of one kind of operation are safe from the start, whatever else the reply buffer held. */
  lemma OneKindRunsAreCorrect(len: Word, mem: seq<Byte>, reply: seq<Byte>, request: Op, steps: seq<Step>, s: State,
      write: bool)
    requires |reply| == len + 24 && reply[TagAt(write, len)] != 1
    requires OneKindRun(Start(len, mem, reply, request), steps, s, write)
    ensures |s.executed| <= |s.issued| && s.executed == s.issued[..|s.executed|]
    ensures AllLegal(s.executed, len, |mem|) && s.mem == AfterAll(mem, s.executed, len)
    ensures |s.results| <= |s.executed| && s.results == Answers(mem, s.executed, len)[..|s.results|]
    ensures s.issued == Asked(steps) && DoneAsAsked(s, mem, Asked(steps), len)
  {
    StartInv(len, mem, reply, request);
    OneKindIsSafe(Start(len, mem, reply, request), steps, s, write);
    SafeRunsAreCorrect(len, mem, reply, request, steps, s);
  }

  // ---- The exact condition for one more request ----

  /** What a client is promised: results are those of executed requests, in order, and while it waits
      something can happen. */
  ghost predicate WellServed(s: State) {
    Shaped(s) && Correct(s) && (s.client.Waiting? ==> exists t :: Enabled(s, t))
  }

  ghost predicate NoIssue(steps: seq<Step>) { forall i :: 0 <= i < |steps| ==> !steps[i].Issue? }

  ghost predicate Follows(s: State, s': State) { exists steps :: NoIssue(steps) && Run(s, steps, s') }

  /** Every state that follows without a further request keeps the promise. */
  ghost predicate Serves(s: State) { forall s' :: Follows(s, s') ==> WellServed(s') }

  lemma {:induction false} QuietRunKeepsInv(s: State, steps: seq<Step>, s': State)
    requires Inv(s) && NoIssue(steps) && Run(s, steps, s')
    ensures Inv(s')
    decreases |steps|
  {
    if steps != [] {
      assert !steps[0].Issue?;
      forall i | 0 <= i < |steps[1..]| ensures !steps[1..][i].Issue? { assert !steps[i + 1].Issue?; }
      NextKeepsInv(s, steps[0]);
      QuietRunKeepsInv(Next(s, steps[0]), steps[1..], s');
    }
  }

  lemma SafeServes(s: State, op: Op)
    requires Inv(s) && Enabled(s, Issue(op)) && Safe(s, op)
    ensures Serves(Next(s, Issue(op)))
  {
    var s1 := Next(s, Issue(op));
    NextKeepsInv(s, Issue(op));
    forall s' | Follows(s1, s') ensures WellServed(s') {
      var steps :| NoIssue(steps) && Run(s1, steps, s');
      QuietRunKeepsInv(s1, steps, s');
      if s'.client.Waiting? { NeverStuck(s'); }
    }
  }

  lemma OneStepFollows(s: State, t: Step)
    requires Shaped(s) && Enabled(s, t) && !t.Issue?
    ensures Follows(s, Next(s, t))
  {
    var steps := [t];
    assert steps[1..] == [] && NoIssue(steps);
    assert Run(Next(s, t), steps[1..], Next(s, t));
    assert Run(s, steps, Next(s, t));
  }

  /** A request the client takes an old tag for: its poll succeeds before the server has seen it. */
  lemma StaleTagIsTaken(s: State, op: Op)
    requires Inv(s) && Enabled(s, Issue(op)) && !Fresh(s, op)
    ensures !Serves(Next(s, Issue(op)))
  {
    var s1 := Next(s, Issue(op));
    OneStepFollows(s1, Accept);
    assert |Next(s1, Accept).results| > |Next(s1, Accept).executed|;
  }

  /** A request lost: the client waits for a tag that is not there, the server sees no valid byte. */
  predicate Lost(s: State) {
    Shaped(s) && s.client.Waiting? && s.server == Polling && !s.valid
        && s.reply[TagAt(s.client.op.write, s.len)] != s.ctag
  }

  /** A request written between the tag and the clearing of the valid byte, however fresh, is lost: the
      server clears its valid byte, and no step can ever be taken again. */
  lemma IssuedInWindowIsLost(s: State, op: Op)
    requires Inv(s) && Enabled(s, Issue(op)) && s.server == Clearing && Fresh(s, op)
    ensures Shaped(Next(s, Issue(op))) && Enabled(Next(s, Issue(op)), ClearValid)
    ensures var s' := Next(Next(s, Issue(op)), ClearValid); Lost(s') && forall t :: !Enabled(s', t)
    ensures !Serves(Next(s, Issue(op)))
  {
    OneStepFollows(Next(s, Issue(op)), ClearValid);
  }

  /** Nothing is accepted any more, before the server clears the valid byte and after. */
  ghost predicate Doomed(s: State) {
    && Shaped(s) && s.client.Waiting? && s.reply[TagAt(s.client.op.write, s.len)] != s.ctag
    && |s.results| <= |s.executed| && (s.server == Clearing || (s.server == Polling && !s.valid))
  }

  lemma {:induction false} DoomedStays(s: State, steps: seq<Step>, s': State)
    requires Doomed(s) && Run(s, steps, s')
    ensures Doomed(s')
    decreases |steps|
  {
    if steps != [] { DoomedStays(Next(s, steps[0]), steps[1..], s'); }
  }

  ghost predicate AcceptsEarly(s: State) { exists s' :: Follows(s, s') && |s'.results| > |s'.executed| }

  /** Some run without a further request accepts a reply before its request was executed exactly when the
      polled byte was not fresh at the issue. */
  lemma AcceptsEarlyIff(s: State, op: Op)
    requires Inv(s) && Enabled(s, Issue(op))
    ensures AcceptsEarly(Next(s, Issue(op))) <==> !Fresh(s, op)
  {
    var s1 := Next(s, Issue(op));
    if !Fresh(s, op) {
      OneStepFollows(s1, Accept);
      assert |Next(s1, Accept).results| > |Next(s1, Accept).executed|;
    } else if s.server == Polling {
      SafeServes(s, op);
    } else {
      forall s' | Follows(s1, s') ensures |s'.results| <= |s'.executed| {
        var steps :| NoIssue(steps) && Run(s1, steps, s');
        DoomedStays(s1, steps, s');
      }
    }
  }

  /** For every state of a run so far safe and every request: all that follows is right, and never stuck,
      exactly when the request is safe. */
  lemma ServesIffSafe(s: State, op: Op)
    requires Inv(s) && Enabled(s, Issue(op))
    ensures Serves(Next(s, Issue(op))) <==> Safe(s, op)
  {
    if Safe(s, op) {
      SafeServes(s, op);
    } else if !Fresh(s, op) {
      StaleTagIsTaken(s, op);
    } else {
      IssuedInWindowIsLost(s, op);
    }
  }

  // ---- ... and the same condition read off the requests and results so far ----

  /** The last read among the operations, or -1. */
  function LastRead(ops: seq<Op>): (i: int)
    ensures -1 <= i < |ops| && (i >= 0 ==> !ops[i].write) && forall j :: i < j < |ops| ==> ops[j].write
  {
    if ops == [] then -1 else if !ops[|ops| - 1].write then |ops| - 1 else LastRead(ops[..|ops| - 1])
  }

  function First(block: seq<Byte>): Byte { if block == [] then 0 else block[0] }

  /** The byte behind the size, after `k` operations: the tag of a write, or the first byte a read brought. */
  function BehindSize(initial: Byte, ops: seq<Op>, answers: seq<seq<Byte>>, k: nat, len: nat): Byte
    requires k <= |ops| == |answers|
  {
    if k == 0 then initial
    else if ops[k - 1].write || len == 0 then TagOf(k - 1)
    else First(answers[k - 1])
  }

  /** The byte behind the data: the tag of the last read. */
  function BehindData(initial: Byte, ops: seq<Op>): Byte {
    if LastRead(ops) < 0 then initial else TagOf(LastRead(ops))
  }

  /** The two bytes the client polls, told from the operations alone. */
  ghost predicate Told(s: State, reply0: seq<Byte>)
    requires Inv(s) && |reply0| == s.len + 24
  {
    var all := Answers(s.initial, s.executed, s.len);
    && s.reply[9] == (if s.server == Tagging(false) && s.len > 0 then First(all[|s.executed| - 1])
                      else BehindSize(reply0[9], s.executed, all, Tagged(s), s.len))
    && (s.len > 0 ==> s.reply[9 + s.len] == BehindData(reply0[9 + s.len], s.executed[..Tagged(s)]))
  }

  lemma ExecuteTells(s: State, reply0: seq<Byte>)
    requires Inv(s) && |reply0| == s.len + 24 && Told(s, reply0) && Enabled(s, Execute)
    ensures Inv(Next(s, Execute)) && Told(Next(s, Execute), reply0)
  {
    hide Inv, Replied, After, AfterAll, Answers;
    InvShaped(s);
    NextKeepsInv(s, Execute);
    var op, answer := s.request, Answer(s.mem, s.request, s.len);
    ExecuteAppends(s);
    RepliedAt(s.reply, s.len, answer, 9);
    RepliedAt(s.reply, s.len, answer, 9 + s.len);
    assert (s.executed + [op])[..|s.executed|] == s.executed[..|s.executed|];
  }

  lemma ExecuteAppends(s: State)
    requires Inv(s) && Enabled(s, Execute)
    ensures s.server == Polling && |Answers(s.initial, s.executed, s.len)| == |s.executed|
    ensures AllLegal(s.executed + [s.request], s.len, |s.initial|)
    ensures Answers(s.initial, s.executed + [s.request], s.len)
            == Answers(s.initial, s.executed, s.len) + [Answer(s.mem, s.request, s.len)]
  {
    OneMore(s.initial, s.executed, s.request, s.len);
  }

  lemma RepliedAt(reply: seq<Byte>, len: Word, answer: seq<Byte>, at: nat)
    requires 9 + |answer| <= |reply| && 9 <= at < |reply|
    ensures Replied(reply, len, answer)[at] == if at < 9 + |answer| then answer[at - 9] else reply[at]
  {
    SpliceReads(reply, 1, Enc(len) + answer);
  }

  /** The tag owed is that of the last operation executed. */
  lemma TagOwed(s: State)
    requires Inv(s) && Enabled(s, SetTag)
    ensures |s.executed| > 0 && s.executed[|s.executed| - 1].write == s.server.write
    ensures s.stag == TagOf(|s.executed| - 1)
    ensures |s.reply| == s.len + 24 && AllLegal(s.executed, s.len, |s.initial|)
  {
    hide AfterAll, Answers;
  }

  lemma LastOfOneMore(ops: seq<Op>, op: Op)
    ensures LastRead(ops + [op]) == if op.write then LastRead(ops) else |ops|
  {
    assert (ops + [op])[..|ops|] == ops;
  }

  lemma SetTagTells(s: State, reply0: seq<Byte>)
    requires Inv(s) && |reply0| == s.len + 24 && Told(s, reply0) && Enabled(s, SetTag)
    ensures Inv(Next(s, SetTag)) && Told(Next(s, SetTag), reply0)
  {
    hide Inv, AfterAll, Answers, LastRead;
    TagOwed(s);
    NextKeepsInv(s, SetTag);
    var e := |s.executed|;
    LastOfOneMore(s.executed[..e - 1], s.executed[e - 1]);
    assert s.executed[..e] == s.executed && s.executed[..e - 1] == s.executed[..e][..e - 1];
  }

  /** Told is about the reply buffer, the executed operations and whether a tag is owed. */
  lemma SameTells(s: State, s': State, reply0: seq<Byte>)
    requires Inv(s) && Inv(s') && |reply0| == s.len + 24 && Told(s, reply0)
    requires s'.len == s.len && s'.initial == s.initial && s'.executed == s.executed && s'.reply == s.reply
    requires s'.server == s.server || (!s'.server.Tagging? && !s.server.Tagging?)
    ensures Told(s', reply0)
  {
    hide Inv, AfterAll, Answers, BehindSize, BehindData;
  }

  lemma NextTells(s: State, t: Step, reply0: seq<Byte>)
    requires Inv(s) && |reply0| == s.len + 24 && Told(s, reply0) && Enabled(s, t) && (t.Issue? ==> Safe(s, t.op))
    ensures Inv(Next(s, t)) && Told(Next(s, t), reply0)
  {
    InvShaped(s);
    hide Inv, Told;
    match t
    case Execute => ExecuteTells(s, reply0);
    case SetTag => SetTagTells(s, reply0);
    case _ => {
      NextKeepsInv(s, t);
      SameTells(s, Next(s, t), reply0);
    }
  }

  lemma {:induction false} SafeRunTells(s: State, steps: seq<Step>, s': State, reply0: seq<Byte>)
    requires Inv(s) && |reply0| == s.len + 24 && Told(s, reply0) && SafeRun(s, steps, s')
    ensures Inv(s') && s'.len == s.len && s'.initial == s.initial && Told(s', reply0)
    decreases |steps|
  {
    if steps != [] {
      NextTells(s, steps[0], reply0);
      SafeRunTells(Next(s, steps[0]), steps[1..], s', reply0);
    }
  }

  /** What the caller can check before it issues, from its own requests and results. A write is fresh
      unless it follows a read whose first byte is the tag expected next; a read is fresh exactly when an
      even number of writes lies between it and the read before. Before the first operation, and before
      the first read, the byte the buffer began with decides. */
  predicate FreshAfter(write: bool, ops: seq<Op>, results: seq<seq<Byte>>, reply0: seq<Byte>, len: nat)
    requires |results| == |ops| && |reply0| == len + 24
  {
    var n, last := |ops|, LastRead(ops);
    if write || len == 0 then
      if n == 0 then reply0[9] != 1 else ops[n - 1].write || len == 0 || First(results[n - 1]) != TagOf(n)
    else
      if last < 0 then reply0[9 + len] != TagOf(n) else (n - 1 - last) % 2 == 0
  }

  lemma IdleTells(s: State, reply0: seq<Byte>)
    requires Inv(s) && |reply0| == s.len + 24 && Told(s, reply0) && s.client == Idle
    ensures |s.results| == |s.issued| && s.ctag == TagOf(|s.issued|) && |s.reply| == s.len + 24
    ensures s.reply[9] == BehindSize(reply0[9], s.issued, s.results, |s.issued|, s.len)
    ensures s.len > 0 ==> s.reply[9 + s.len] == BehindData(reply0[9 + s.len], s.issued)
  {
    hide AfterAll, Answers, LastRead;
    var n, all := |s.issued|, Answers(s.initial, s.executed, s.len);
    assert s.executed[..n] == s.executed == s.issued && s.results == all[..n] == all;
  }

  lemma FreshIsFreshAfter(s: State, op: Op, reply0: seq<Byte>)
    requires Inv(s) && |reply0| == s.len + 24 && Told(s, reply0) && s.client == Idle
    ensures |s.results| == |s.issued| && (Fresh(s, op) <==> FreshAfter(op.write, s.issued, s.results, reply0, s.len))
  {
    hide Inv, Told, LastRead;
    IdleTells(s, reply0);
  }

  /** The exact condition, from the start: after any run of safe requests, for any size, the next request
      is served rightly in all that follows exactly when the server has cleared the valid byte of the one
      before and the caller's own history says so. */
  lemma ServesIffHistoryAllows(len: Word, mem: seq<Byte>, reply: seq<Byte>, request: Op, steps: seq<Step>, s: State,
                               op: Op)
    requires |reply| == len + 24 && SafeRun(Start(len, mem, reply, request), steps, s)
    requires Shaped(s) && Enabled(s, Issue(op))
    ensures s.len == len && |s.results| == |s.issued|
    ensures Serves(Next(s, Issue(op)))
            <==> s.server == Polling && FreshAfter(op.write, s.issued, s.results, reply, len)
  {
    StartInv(len, mem, reply, request);
    SafeRunTells(Start(len, mem, reply, request), steps, s, reply);
    ServesIffSafe(s, op);
    FreshIsFreshAfter(s, op, reply);
  }

  // ---- Both failures happen ----

  lemma Prepend(s: State, t: Step, steps: seq<Step>, s': State)
    requires Shaped(s) && Enabled(s, t) && Run(Next(s, t), steps, s')
    ensures Run(s, [t] + steps, s')
  {
    assert ([t] + steps)[1..] == steps;
  }

  lemma Issuing(s: State, op: Op)
    requires Inv(s) && s.server == Polling && Enabled(s, Issue(op)) && Fresh(s, op)
    ensures var s1 := Next(s, Issue(op));
            && Inv(s1) && Enabled(s1, Execute) && s.stag == s.ctag
            && Legal(op, s.len, |s.mem|) && 9 + s.len <= |s.reply|
            && s1 == s.(client := Waiting(op), request := op, valid := true, issued := s.issued + [op])
  {
    NextKeepsInv(s, Issue(op));
  }

  lemma Executing(s: State, op: Op)
    requires Inv(s) && Enabled(s, Execute) && s.client == Waiting(op) && s.request == op
    ensures var s1 := Next(s, Execute);
            && Inv(s1) && Enabled(s1, SetTag) && 9 + s.len <= |s.reply| && Legal(op, s.len, |s.mem|)
            && s1 == s.(mem := s1.mem, reply := Replied(s.reply, s.len, Answer(s.mem, op, s.len)),
                        server := Tagging(op.write), executed := s.executed + [op])
            && |s1.mem| == |s.mem|
  {
    NextKeepsInv(s, Execute);
  }

  lemma Setting(s: State, op: Op)
    requires Inv(s) && s.client == Waiting(op) && s.server == Tagging(op.write) && s.stag == s.ctag
    ensures Shaped(s) && Enabled(s, SetTag)
    ensures var s1 := Next(s, SetTag);
            && Inv(s1) && Enabled(s1, Accept)
            && s1 == s.(reply := s.reply[TagAt(op.write, s.len) := s.stag], stag := Other(s.stag), server := Clearing)
  {
    NextKeepsInv(s, SetTag);
  }

  lemma Accepting(s: State)
    requires Inv(s) && Enabled(s, Accept)
    ensures var s1 := Next(s, Accept);
            && Inv(s1) && |s1.results| == |s.results| + 1
            && s1 == s.(client := Idle, ctag := Other(s.ctag), results := s1.results)
  {
    NextKeepsInv(s, Accept);
  }

  lemma InvEnabled(s: State, op: Op)
    requires Inv(s) && s.server == Polling && Enabled(s, Issue(op)) && Fresh(s, op)
    ensures Shaped(s) && |s.reply| == s.len + 24
  {}

  /** A request executed, tagged and accepted, the server not having cleared its valid byte yet. */
  function Accepted(s: State, op: Op): (r: State)
    requires Inv(s) && s.server == Polling && Enabled(s, Issue(op)) && Fresh(s, op)
    ensures Inv(r) && r.client == Idle && r.server == Clearing && r.ctag == Other(s.ctag) && r.len == s.len
    ensures |r.mem| == |s.mem| && r.issued == s.issued + [op] && |r.results| == |s.results| + 1 && s.stag == s.ctag
    ensures r.reply == Replied(s.reply, s.len, Answer(s.mem, op, s.len))[TagAt(op.write, s.len) := s.stag]
  {
    AcceptedSteps(s, op);
    Next(Next(Next(Next(s, Issue(op)), Execute), SetTag), Accept)
  }

  lemma AcceptedSteps(s: State, op: Op)
    requires Inv(s) && s.server == Polling && Enabled(s, Issue(op)) && Fresh(s, op)
    ensures var s1 := Next(s, Issue(op));
            && Inv(s1) && Enabled(s1, Execute) && |s.reply| == s.len + 24
            && var s2 := Next(s1, Execute);
               && Inv(s2) && Enabled(s2, SetTag)
               && var s3 := Next(s2, SetTag);
                  && Inv(s3) && Enabled(s3, Accept)
                  && var r := Next(s3, Accept);
                     && Inv(r) && r.client == Idle && r.server == Clearing && r.ctag == Other(s.ctag) && r.len == s.len
                     && |r.mem| == |s.mem| && r.issued == s.issued + [op] && |r.results| == |s.results| + 1
                     && s.stag == s.ctag
                     && r.reply == Replied(s.reply, s.len, Answer(s.mem, op, s.len))[TagAt(op.write, s.len) := s.stag]
  {
    InvEnabled(s, op);
    hide Inv, Next, Enabled, Replied, Answer, Fresh;
    Issuing(s, op);
    var s1 := Next(s, Issue(op));
    Executing(s1, op);
    var s2 := Next(s1, Execute);
    Setting(s2, op);
    Accepting(Next(s2, SetTag));
  }

  lemma AcceptedRuns(s: State, op: Op, rest: seq<Step>, s': State) returns (steps: seq<Step>)
    requires Inv(s) && s.server == Polling && Enabled(s, Issue(op)) && Fresh(s, op) && Run(Accepted(s, op), rest, s')
    ensures Run(s, steps, s')
  {
    var s1 := Next(s, Issue(op));
    NextKeepsInv(s, Issue(op));
    var s2 := Next(s1, Execute);
    NextKeepsInv(s1, Execute);
    var s3 := Next(s2, SetTag);
    NextKeepsInv(s2, SetTag);
    hide Inv, Next, Run, Accepted;
    assert Accepted(s, op) == Next(s3, Accept) by { AcceptedIs(s, op); }
    Prepend(s3, Accept, rest, s');
    Prepend(s2, SetTag, [Accept] + rest, s');
    Prepend(s1, Execute, [SetTag] + ([Accept] + rest), s');
    Prepend(s, Issue(op), [Execute] + ([SetTag] + ([Accept] + rest)), s');
    steps := [Issue(op)] + ([Execute] + ([SetTag] + ([Accept] + rest)));
  }

  lemma AcceptedIs(s: State, op: Op)
    requires Inv(s) && s.server == Polling && Enabled(s, Issue(op)) && Fresh(s, op)
    ensures Inv(Next(s, Issue(op))) && Inv(Next(Next(s, Issue(op)), Execute))
    ensures Inv(Next(Next(Next(s, Issue(op)), Execute), SetTag))
    ensures Accepted(s, op) == Next(Next(Next(Next(s, Issue(op)), Execute), SetTag), Accept)
  {
    NextKeepsInv(s, Issue(op));
    NextKeepsInv(Next(s, Issue(op)), Execute);
    NextKeepsInv(Next(Next(s, Issue(op)), Execute), SetTag);
  }

  /** The window is reached from the start: the client accepts the first reply and issues its second
      request before the server clears the valid byte, for any two requests of one kind. */
  lemma WindowIsReachable(len: Word, mem: seq<Byte>, reply: seq<Byte>, request: Op, op: Op, second: Op)
    returns (steps: seq<Step>, s: State)
    requires |reply| == len + 24 && Legal(op, len, |mem|) && Legal(second, len, |mem|) && op.write == second.write
    requires reply[TagAt(op.write, len)] != 1
    ensures Run(Start(len, mem, reply, request), steps, s) && s.issued == [op, second]
    ensures |s.results| == 1 && Lost(s) && forall t :: !Enabled(s, t)
  {
    var s0 := Start(len, mem, reply, request);
    StartInv(len, mem, reply, request);
    hide Inv, Replied, Accepted;
    var s4 := Accepted(s0, op);
    assert Shaped(s4) by { InvShaped(s4); }
    IssuedInWindowIsLost(s4, second);
    var s5 := Next(s4, Issue(second));
    s := Next(s5, ClearValid);
    assert Run(s, [], s);
    Prepend(s5, ClearValid, [], s);
    Prepend(s4, Issue(second), [ClearValid] + [], s);
    steps := AcceptedRuns(s0, op, [Issue(second)] + ([ClearValid] + []), s);
  }

  lemma InvShaped(s: State)
    requires Inv(s)
    ensures Shaped(s)
  {}

  /** The state after one whole exchange. */
  function Served(s: State, op: Op): (r: State)
    requires Inv(s) && s.server == Polling && Enabled(s, Issue(op)) && Fresh(s, op)
    ensures Inv(r) && r.client == Idle && r.server == Polling && r.ctag == Other(s.ctag) && r.len == s.len
    ensures |r.mem| == |s.mem| && s.stag == s.ctag
    ensures r.reply == Replied(s.reply, s.len, Answer(s.mem, op, s.len))[TagAt(op.write, s.len) := s.stag]
  {
    assert Inv(Next(Accepted(s, op), ClearValid)) by { NextKeepsInv(Accepted(s, op), ClearValid); }
    Next(Accepted(s, op), ClearValid)
  }

  /** Mixing the kinds breaks the alternation: after a read and a write, the next read is accepted before
      it was executed, for every size but zero. */
  lemma ReadWriteReadAcceptsEarly(s: State, read: Op, write: Op, again: Op)
    requires Inv(s) && s.client == Idle && s.server == Polling && s.len > 0
    requires Legal(read, s.len, |s.mem|) && Legal(write, s.len, |s.mem|) && Legal(again, s.len, |s.mem|)
    requires !read.write && write.write && !again.write && Fresh(s, read) && Fresh(Served(s, read), write)
    ensures var s' := Served(Served(s, read), write); !Fresh(s', again) && Enabled(Next(s', Issue(again)), Accept)
  {
    var s1 := Served(s, read);
    var s2 := Served(s1, write);
    SpliceReads(s1.reply, 1, Enc(s1.len) + []);
    assert s.stag == s.ctag;
    assert s2.reply[TagAt(false, s.len)] == s1.reply[TagAt(false, s.len)] == s.stag;
  }

  lemma HandlerSteps(s: State)
    requires Inv(s) && s.server == Polling && s.valid
    ensures Shaped(s) && Enabled(s, Execute)
    ensures var s' := Next(s, Execute); Shaped(s') && Enabled(s', SetTag) && Inv(Next(s', SetTag))
  {
    NextKeepsInv(s, Execute);
    NextKeepsInv(Next(s, Execute), SetTag);
  }

  lemma AcceptStep(s: State)
    requires Inv(s) && s.client.Waiting?
    ensures Shaped(s) && (Enabled(s, Accept) ==> Inv(Next(s, Accept)))
  {
    if Enabled(s, Accept) { NextKeepsInv(s, Accept); }
  }

  // ---- Client and server, updating their state in place ----

  class Channel {
    const len: Word
    const reply: array<Byte>
    const mem: array<Byte>
    var client: Client
    var ctag: Byte
    var valid: bool
    var request: Op
    var server: Server
    var stag: Byte
    ghost const initial: seq<Byte>
    ghost var issued: seq<Op>
    ghost var executed: seq<Op>
    ghost var results: seq<seq<Byte>>

    ghost function View(): State
      reads this, reply, mem
    {
      State(len, client, ctag, valid, request, server, stag, reply[..], mem[..], initial, issued, executed, results)
    }

    ghost predicate Valid()
      reads this, reply, mem
    {
      reply != mem && Inv(View())
    }

    constructor (len: Word, mem: array<Byte>, reply: array<Byte>, request: Op)
      requires reply != mem && reply.Length == len + 24
      ensures Valid() && this.mem == mem && this.reply == reply && View() == Start(len, mem[..], reply[..], request)
    {
      this.len, this.mem, this.reply, this.request := len, mem, reply, request;
      client, ctag, valid, server, stag := Idle, 1, false, Polling, 1;
      initial, issued, executed, results := mem[..], [], [], [];
    }

    /** amper_RFP_work_handler: the request and its valid byte arrive in one RDMA write. */
    method IssueRequest(op: Op)
      requires Valid() && client == Idle && Legal(op, len, mem.Length) && Safe(View(), op)
      modifies this
      ensures Valid() && old(Enabled(View(), Issue(op))) && View() == Next(old(View()), Issue(op))
    {
      NextKeepsInv(View(), Issue(op));
      hide Inv;
      request, valid, client := op, true, Waiting(op);
      issued := issued + [op];
    }

    /** The part of the handler before the tag. */
    method Perform(op: Op) returns (at: nat)
      requires reply != mem && reply.Length == len + 24 && Legal(op, len, mem.Length)
      modifies reply, mem
      ensures at == TagAt(op.write, len) && mem[..] == After(old(mem[..]), op)
      ensures reply[..] == Replied(old(reply[..]), len, Answer(old(mem[..]), op, len))
      ensures reply[..][1..9] == Enc(len)
    {
      hide Enc, Splice;
      ghost var was := reply[..];
      Copy(reply, 1, Enc(len));
      at := 9;
      if op.write {
        assert Enc(len) + [] == Enc(len);
        Copy(mem, op.addr, op.data);
      } else {
        var data := mem[op.addr..op.addr + len];
        assert data == mem[..][op.addr..op.addr + len];
        Copy(reply, at, data);
        SpliceJoin(was, 1, Enc(len), data);
        at := at + len;
      }
      SizeHolds(was, len, Answer(old(mem[..]), op, len));
    }

    /** amper_RFP_request_handler: the operation, the reply's size and data, then the tag. */
    method HandleRequest()
      requires Valid() && server == Polling && valid
      modifies this, reply, mem
      ensures Valid() && old(Enabled(View(), Execute))
      ensures var s := Next(old(View()), Execute); Shaped(s) && Enabled(s, SetTag) && View() == Next(s, SetTag)
      ensures reply.Length >= 9 && Number(reply[1..9]) == len
    {
      ghost var was := View();
      hide Inv, Replied, After, Answer;
      HandlerSteps(was);
      var op := request;
      var at := Perform(op);
      executed := executed + [op];
      reply[at] := stag;
      stag := if stag == 1 then 2 else 1;
      assert reply[1..9] == Enc(len);
      server := Clearing;
    }

    /** RFP_run after the handler. */
    method Clear()
      requires Valid() && server == Clearing
      modifies this
      ensures Valid() && old(Enabled(View(), ClearValid)) && View() == Next(old(View()), ClearValid)
    {
      NextKeepsInv(View(), ClearValid);
      hide Inv;
      valid, server := false, Polling;
    }

    /** One poll of the client. */
    method TryAccept() returns (got: bool, data: seq<Byte>)
      requires Valid() && client.Waiting?
      modifies this
      ensures Valid() && got == old(Enabled(View(), Accept))
      ensures View() == if got then Next(old(View()), Accept) else old(View())
      ensures got && !old(client).op.write ==> results != [] && data == results[|results| - 1]
    {
      hide Inv;
      ghost var was := View();
      AcceptStep(was);
      var op := client.op;
      var at := 1 + 8 + if op.write then 0 else len;
      data := [];
      got := reply[at] == ctag;
      if got {
        ctag := if ctag == 1 then 2 else 1;
        if !op.write { data := reply[9..9 + len]; }
        assert !op.write ==> data == was.reply[9..9 + len];
        client := Idle;
        results := results + [data];
      }
    }
  }
}
