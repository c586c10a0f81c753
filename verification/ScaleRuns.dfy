/** scaleRPC over whole runs: exchange after exchange, of both kinds and in both forms, through the same
    buffers. The server clears the valid byte of a request before it handles it, the client that of a
    reply after it has delivered it. */
module ScaleRuns {
  import opened Bytes
  import opened Copies
  import opened ScaleExchange
  import opened Sequences
  import ScaleRpc

  datatype Form = Direct | Switch(record: seq<Byte>)

  /** One batch, with the client's memory as it is when the call is made. */
  datatype Call = Call(write: bool, form: Form, reqs: seq<Req>, cmem: seq<Byte>)

  datatype Client = Idle | Waiting(call: Call)
  datatype Server = Polling | Taken(kind: Byte, write: bool) | Replying(write: bool) | Returning

  /** `m` is the size of a region's record; `regions` is what the client has registered. */
  datatype Chan = Chan(
    n: Byte, len: Word, m: nat,
    creq: seq<Byte>, sreq: seq<Byte>, slocal: seq<Byte>, sdata: seq<Byte>, cdata: seq<Byte>,
    regions: map<seq<Byte>, seq<Byte>>, cmem: seq<Byte>, smem: seq<Byte>,
    client: Client, server: Server,
    initial: seq<Byte>, issued: seq<Call>, served: nat, results: seq<seq<Byte>>)  // history

  datatype Step =
    | Issue(call: Call)  // model_7_scalable encodes and writes, valid byte last
    | Take               // scalable_run finds the valid byte and clears it
    | Serve              // amper_scalable_request_handler, up to its RDMA write
    | Reply              // ... the RDMA write of the reply
    | Return             // ... and the way back to the poll
    | Accept             // amper_scalable_work_handler finds the valid byte, delivers, clears it

  predicate Sized(s: Chan) {
    && 1 <= s.n < 128 && Head(s.n, s.len) < WORD && |s.initial| == |s.smem|
    && ServerSized(s.sreq, s.sdata, s.n, s.len) && |s.slocal| == |s.sreq| && ClientSized(s.creq, s.cdata, s.n, s.len)
  }

  ghost predicate Legal(s: Chan, c: Call) {
    && |c.reqs| == s.n && InRange(c.reqs, s.len, |s.smem|, |c.cmem|) && |c.cmem| == |s.cmem|
    && (c.form.Switch? ==> |c.form.record| == s.m && 8 + s.m <= Head(s.n, s.len))
  }

  /** The byte the server polls. */
  function RequestFlag(s: Chan): Byte
    requires Sized(s)
  {
    s.sreq[Head(s.n, s.len) + 3]
  }

  /** The byte the client polls. */
  function ReplyFlag(s: Chan): Byte
    requires Sized(s)
  {
    Sizes(s.n, s.len);
    s.cdata[ReplyFlagAt(s.n, s.len)]
  }

  function KindOf(form: Form): Byte { if form.Switch? then 1 else 2 }

  ghost function BodyOf(c: Call, len: Word): seq<Byte>
    requires ClientFits(c.reqs, len, |c.cmem|)
  {
    ScaleRpc.Body(c.reqs, len, c.write, c.cmem)
  }

  ghost function RequestOf(s: Chan, c: Call): (r: seq<Byte>)
    requires Sized(s) && Legal(s, c)
  {
    BodyFits(c.reqs, s.len, c.write, c.cmem);
    match c.form
    case Direct => DirectRequest(c.reqs, s.len, c.write, c.cmem)
    case Switch(record) => SwitchRequest(|BodyOf(c, s.len)|, record, s.n, c.write)
  }

  function StartOf(s: Chan, c: Call): nat
    requires c.form.Switch? ==> 8 + s.m <= Head(s.n, s.len)
  {
    if c.form.Switch? then Head(s.n, s.len) - 8 - s.m else RequestAt(c.write, s.n, s.len)
  }

  lemma RequestEnds(s: Chan, c: Call)
    requires Sized(s) && Legal(s, c)
    ensures StartOf(s, c) + |RequestOf(s, c)| == 4 + Head(s.n, s.len) <= |s.creq|
  {
    Sizes(s.n, s.len);
    ScaleRpc.BodyLength(c.reqs, s.len, c.write, c.cmem);
  }

  // ---- The handler ----

  ghost predicate CanParse(s: Chan)
    requires Sized(s)
  {
    s.server.Taken? && (s.server.kind == 1 ==> Fetchable(s.sreq, Head(s.n, s.len), s.m, s.regions, s.slocal))
  }

  /** The server's local buffer, after the fetch if there is one. */
  ghost function Local(s: Chan): (r: seq<Byte>)
    requires Sized(s) && CanParse(s)
    ensures |r| == |s.slocal|
  {
    if s.server.kind == 1 then Fetched(s.sreq, Head(s.n, s.len), s.m, s.regions, s.slocal) else s.slocal
  }

  /** The bytes the handler parses. */
  ghost function Parsed(s: Chan): seq<Byte>
    requires Sized(s) && CanParse(s)
  {
    Sizes(s.n, s.len);
    if s.server.kind == 1 then Local(s) else s.sreq[RequestAt(s.server.write, s.n, s.len)..]
  }

  /** The handler stays inside its buffers and memory. */
  ghost predicate CanServe(s: Chan)
    requires Sized(s)
  {
    && CanParse(s) && ScaleRpc.Servable(Parsed(s), s.n, s.server.write, s.len, |s.smem|)
    && |ScaleRpc.Serve(Parsed(s), s.n, s.server.write, s.len, s.smem).1| + 1 == WriteSize(s.server.write, s.n, s.len)
  }

  lemma ReplyRoom(s: Chan, write: bool)
    requires Sized(s)
    ensures ReplyAt(write, s.n, s.len) + WriteSize(write, s.n, s.len) == ReplyFlagAt(s.n, s.len) + 1
    ensures ReplyFlagAt(s.n, s.len) < |s.sdata| <= |s.cdata|
  {
    Sizes(s.n, s.len);
  }

  /** The client's buffer once the reply is written. */
  ghost function Carried(s: Chan, write: bool): (r: seq<Byte>)
    requires Sized(s)
    ensures |r| == |s.cdata|
  {
    ReplyRoom(s, write);
    Rdma(s.cdata, s.sdata, ReplyAt(write, s.n, s.len), WriteSize(write, s.n, s.len))
  }

  // ---- Steps ----

  ghost predicate Enabled(s: Chan, t: Step)
    requires Sized(s)
  {
    match t
    case Issue(c) => s.client == Idle && Legal(s, c)
    case Take => s.server == Polling && RequestFlag(s) != 0
    case Serve => CanServe(s)
    case Reply => s.server.Replying?
    case Return => s.server == Returning
    case Accept =>
      s.client.Waiting? && ReplyFlag(s) != 0 && (!s.client.call.write ==> ScaleRpc.Scatterable(s.cdata, s.n, |s.cmem|))
  }

  ghost function Issued(s: Chan, c: Call): Chan
    requires Sized(s) && Legal(s, c)
  {
    RequestEnds(s, c);
    var at, req := StartOf(s, c), RequestOf(s, c);
    var creq := Splice(s.creq, at, req);
    s.(creq := creq, sreq := Rdma(s.sreq, creq, at, |req|), cmem := c.cmem, client := Waiting(c),
       issued := s.issued + [c],
       regions := if c.form.Switch? then s.regions[c.form.record := BodyOf(c, s.len)] else s.regions)
  }

  ghost function Handled(s: Chan): Chan
    requires Sized(s) && CanServe(s)
  {
    ReplyRoom(s, s.server.write);
    var (smem', reply) := ScaleRpc.Serve(Parsed(s), s.n, s.server.write, s.len, s.smem);
    s.(smem := smem', slocal := Local(s), sdata := Answered(s.sdata, reply, s.server.write, s.n, s.len),
       server := Replying(s.server.write), served := s.served + 1)
  }

  /** The client's memory once the reply in `cdata` is delivered. */
  ghost function Delivered(s: Chan, write: bool, cdata: seq<Byte>): seq<Byte>
    requires !write ==> ScaleRpc.Scatterable(cdata, s.n, |s.cmem|)
  {
    if write then s.cmem else ScaleRpc.Scatter(cdata, s.n, s.cmem)
  }

  ghost function Next(s: Chan, t: Step): Chan
    requires Sized(s) && Enabled(s, t)
  {
    var h := Head(s.n, s.len);
    match t
    case Issue(c) => Issued(s, c)
    case Take => s.(sreq := s.sreq[h + 3 := 0], server := Taken(s.sreq[h], s.sreq[h + 2] == 1))
    case Serve => Handled(s)
    case Reply => s.(cdata := Carried(s, s.server.write), server := Returning)
    case Return => s.(server := Polling)
    case Accept =>
      ReplyRoom(s, true);
      var cmem' := Delivered(s, s.client.call.write, s.cdata);
      s.(cmem := cmem', cdata := s.cdata[ReplyFlagAt(s.n, s.len) := 0], client := Idle, results := s.results + [cmem'])
  }

  // ---- What the calls should have done ----

  ghost predicate Fits(c: Call, len: nat, memSize: nat) { InRange(c.reqs, len, memSize, |c.cmem|) }

  ghost predicate AllFit(calls: seq<Call>, len: nat, memSize: nat) {
    forall i :: 0 <= i < |calls| ==> Fits(calls[i], len, memSize)
  }

  ghost function Applied(c: Call, len: Word, mem: seq<Byte>): (m: seq<Byte>)
    requires Fits(c, len, |mem|)
    ensures |m| == |mem|
  {
    if c.write then CopyAll(mem, c.cmem, ToServer(c.reqs), len) else mem
  }

  /** The client's memory after its call, the server's having been `mem`. */
  ghost function ResultOf(c: Call, len: Word, mem: seq<Byte>): seq<Byte>
    requires Fits(c, len, |mem|)
  {
    if c.write then c.cmem else CopyAll(c.cmem, mem, ToClient(c.reqs), len)
  }

  ghost function MemAfter(mem: seq<Byte>, calls: seq<Call>, len: Word): (m: seq<Byte>)
    requires AllFit(calls, len, |mem|)
    ensures |m| == |mem|
  {
    if calls == [] then mem else Applied(calls[|calls| - 1], len, MemAfter(mem, calls[..|calls| - 1], len))
  }

  lemma OneMore(mem: seq<Byte>, calls: seq<Call>, k: nat, len: Word)
    requires AllFit(calls, len, |mem|) && k < |calls|
    ensures MemAfter(mem, calls[..k + 1], len) == Applied(calls[k], len, MemAfter(mem, calls[..k], len))
  {
    assert calls[..k + 1][..k] == calls[..k];
  }

  /** Each accepted call left the client the bytes of its own batch, served after the calls before it. */
  ghost predicate Right(results: seq<seq<Byte>>, mem: seq<Byte>, calls: seq<Call>, len: Word)
    requires |results| <= |calls| && AllFit(calls, len, |mem|)
  {
    forall k :: 0 <= k < |results| ==> results[k] == ResultOf(calls[k], len, MemAfter(mem, calls[..k], len))
  }

  // ---- The invariant ----

  ghost predicate Counts(s: Chan) {
    && |s.results| <= s.served <= |s.issued| <= |s.results| + 1
    && (s.client == Idle ==> |s.issued| == |s.results|)
    && (s.client == Idle && s.results != [] ==> s.cmem == s.results[|s.results| - 1])
    && (s.client.Waiting? ==>
          && |s.issued| == |s.results| + 1 && s.issued[|s.results|] == s.client.call
          && s.cmem == s.client.call.cmem && Legal(s, s.client.call))
  }

  ghost predicate Correct(s: Chan)
    requires Counts(s)
  {
    && AllFit(s.issued, s.len, |s.initial|) && s.smem == MemAfter(s.initial, s.issued[..s.served], s.len)
    && Right(s.results, s.initial, s.issued, s.len)
  }

  /** The request in the server's buffers, as long as the handler needs it: its batch, or its record. */
  ghost predicate Loaded(s: Chan, c: Call)
    requires Sized(s) && Legal(s, c)
  {
    var h, body := Head(s.n, s.len), BodyOf(c, s.len);
    match c.form
    case Direct => RequestAt(c.write, s.n, s.len) <= h && s.sreq[RequestAt(c.write, s.n, s.len)..h] == body
    case Switch(record) =>
      && FoundRecord(s.sreq, h, s.m) == record && FoundSize(s.sreq, h, s.m) == |body| <= |s.slocal|
      && record in s.regions && s.regions[record] == body
  }

  /** A reply that gives the call its bytes, the server's memory having been `mem` before the call. */
  ghost predicate Gives(s: Chan, c: Call, mem: seq<Byte>, cdata: seq<Byte>)
    requires Sized(s) && Fits(c, s.len, |mem|) && |cdata| == |s.cdata|
  {
    Sizes(s.n, s.len);
    && cdata[ReplyFlagAt(s.n, s.len)] != 0 && (!c.write ==> ScaleRpc.Scatterable(cdata, s.n, |s.cmem|))
    && Delivered(s, c.write, cdata) == ResultOf(c, s.len, mem)
  }

  ghost predicate Answers(s: Chan, c: Call, cdata: seq<Byte>)
    requires Sized(s) && Counts(s) && Correct(s) && s.client == Waiting(c) && |cdata| == |s.cdata|
  {
    Gives(s, c, MemAfter(s.initial, s.issued[..|s.results|], s.len), cdata)
  }

  /** Where the outstanding call is. */
  ghost predicate Progress(s: Chan)
    requires Sized(s) && Counts(s) && Correct(s)
  {
    match s.client
    case Idle => RequestFlag(s) == 0 && ReplyFlag(s) == 0 && (s.server == Polling || s.server == Returning)
    case Waiting(c) =>
      if s.served == |s.results| then
        && ReplyFlag(s) == 0 && Loaded(s, c)
        && match s.server
           case Taken(kind, write) => RequestFlag(s) == 0 && kind == KindOf(c.form) && write == c.write
           case Replying(_) => false
           case _ => Arrived(s.sreq, KindOf(c.form), s.n, c.write, s.len)
      else
        && RequestFlag(s) == 0
        && match s.server
           case Taken(_, _) => false
           case Replying(write) => write == c.write && ReplyFlag(s) == 0 && Answers(s, c, Carried(s, write))
           case _ => Answers(s, c, s.cdata)
  }

  ghost predicate Inv(s: Chan) { Sized(s) && Counts(s) && Correct(s) && Progress(s) }

  // ---- Every step keeps it ----

  lemma DirectLoads(s: Chan, c: Call)
    requires Sized(s) && Legal(s, c) && c.form == Direct
    ensures var s' := Issued(s, c);
            Sized(s') && Legal(s', c) && Loaded(s', c) && Arrived(s'.sreq, 2, s.n, c.write, s.len)
  {
    var s', at, h := Issued(s, c), RequestAt(c.write, s.n, s.len), Head(s.n, s.len);
    RequestEnds(s, c);
    DirectArrives(c.reqs, s.len, c.write, c.cmem, s.creq, s.sreq);
    assert s'.sreq[at..] == BodyOf(c, s.len) + Trailer(2, s.n, c.write);
    assert s'.sreq[at..h] == s'.sreq[at..][..h - at];
  }

  lemma SwitchLoads(s: Chan, c: Call)
    requires Sized(s) && Legal(s, c) && c.form.Switch?
    ensures var s' := Issued(s, c);
            Sized(s') && Legal(s', c) && Loaded(s', c) && Arrived(s'.sreq, 1, s.n, c.write, s.len)
  {
    hide ScaleRpc.Body, Splice, Rdma, SwitchRequest, Number;
    RequestEnds(s, c);
    BodyFits(c.reqs, s.len, c.write, c.cmem);
    SwitchArrives(|BodyOf(c, s.len)|, c.form.record, s.n, c.write, s.len, s.creq, s.sreq);
  }

  /** One call more leaves what was done as it is. */
  lemma MoreIssued(s: Chan, s': Chan, c: Call)
    requires Counts(s) && Correct(s) && Counts(s') && Fits(c, s.len, |s.initial|) && s'.issued == s.issued + [c]
    requires s'.initial == s.initial && s'.len == s.len && s'.smem == s.smem
    requires s'.served == s.served && s'.results == s.results
    ensures Correct(s')
  {
    hide MemAfter, ResultOf;
    assert s'.issued[..s.served] == s.issued[..s.served];
    forall k | 0 <= k < |s.results|
      ensures s'.results[k] == ResultOf(s'.issued[k], s.len, MemAfter(s.initial, s'.issued[..k], s.len))
    {
      assert s'.issued[k] == s.issued[k] && s'.issued[..k] == s.issued[..k];
    }
  }

  lemma IssuedParts(s: Chan, c: Call)
    requires Sized(s) && Legal(s, c)
    ensures var s' := Issued(s, c);
            && s' == s.(creq := s'.creq, sreq := s'.sreq, cmem := c.cmem, client := Waiting(c),
                        issued := s.issued + [c], regions := s'.regions)
  {
    hide RequestOf, Splice, Rdma, BodyOf;
  }

  lemma IssueKeeps(s: Chan, c: Call)
    requires Inv(s) && Enabled(s, Issue(c))
    ensures Inv(Next(s, Issue(c)))
  {
    hide Issued, Loaded, Arrived, Correct, Answers;
    var s' := Issued(s, c);
    IssuedParts(s, c);
    if c.form.Switch? { SwitchLoads(s, c); } else { DirectLoads(s, c); }
    MoreIssued(s, s', c);
  }

  /** Clearing the valid byte disturbs neither the batch nor the record. */
  lemma LoadedStays(s: Chan, s': Chan, c: Call)
    requires Sized(s) && Legal(s, c) && Loaded(s, c) && s'.sreq == s.sreq[Head(s.n, s.len) + 3 := 0]
    requires Sized(s') && s'.n == s.n && s'.len == s.len && s'.m == s.m && s'.regions == s.regions
    requires Legal(s', c) && |s'.slocal| == |s.slocal|
    ensures Loaded(s', c)
  {
    var h := Head(s.n, s.len);
    if c.form.Switch? {
      assert s'.sreq[h - s.m..h] == s.sreq[h - s.m..h] && s'.sreq[h - s.m - 8..h - s.m] == s.sreq[h - s.m - 8..h - s.m];
    } else {
      assert s'.sreq[RequestAt(c.write, s.n, s.len)..h] == s.sreq[RequestAt(c.write, s.n, s.len)..h];
    }
  }

  lemma TakeKeeps(s: Chan)
    requires Inv(s) && Enabled(s, Take)
    ensures Inv(Next(s, Take))
  {
    hide MemAfter, ResultOf, Answers;
    var c, s' := s.client.call, Next(s, Take);
    TrailerReads(s.sreq, KindOf(c.form), s.n, c.write, s.len);
    LoadedStays(s, s', c);
  }

  /** What the handler parses begins with the batch of the call. */
  lemma ParsesTheBatch(s: Chan, c: Call) returns (rest: seq<Byte>)
    requires Sized(s) && Legal(s, c) && Loaded(s, c) && s.server == Taken(KindOf(c.form), c.write)
    ensures CanParse(s) && Parsed(s) == BodyOf(c, s.len) + rest
  {
    var h := Head(s.n, s.len);
    if c.form.Switch? {
      var body := BodyOf(c, s.len);
      assert body[..|body|] == body;
      rest := s.slocal[|body|..];
      assert Splice(s.slocal, 0, body) == body + rest;
    } else {
      rest := s.sreq[h..];
      assert s.sreq[RequestAt(c.write, s.n, s.len)..] == s.sreq[RequestAt(c.write, s.n, s.len)..h] + rest;
    }
  }

  /** The handler on the waiting call: memory and the client's bytes are those of its batch. */
  lemma ServesTheCall(s: Chan, c: Call)
    requires Sized(s) && Legal(s, c) && Loaded(s, c) && s.server == Taken(KindOf(c.form), c.write) && s.cmem == c.cmem
    ensures CanServe(s) && Handled(s).smem == Applied(c, s.len, s.smem)
    ensures Gives(s, c, s.smem, Carried(Handled(s), c.write))
  {
    var rest := ParsesTheBatch(s, c);
    ExchangeFromBody(c.reqs, s.len, c.write, s.cmem, s.smem, rest, s.sdata, s.cdata);
    hide ScaleRpc.Serve, ScaleRpc.Servable, ScaleRpc.Scatterable, ScaleRpc.Scatter, CopyAll;
    hide Loaded, Rdma, Answered, CanParse;
  }

  /** The call being served is the next one in order of issue. */
  lemma MoreServed(s: Chan, s': Chan)
    requires Counts(s) && Correct(s) && Counts(s') && s.served < |s.issued|
    requires s'.issued == s.issued && s'.initial == s.initial && s'.len == s.len && s'.results == s.results
    requires s'.served == s.served + 1 && s'.smem == Applied(s.issued[s.served], s.len, s.smem)
    ensures Correct(s')
  {
    OneMore(s.initial, s.issued, s.served, s.len);
  }

  lemma HandledParts(s: Chan)
    requires Sized(s) && CanServe(s)
    ensures Sized(Handled(s))
    ensures var s' := Handled(s);
            && s' == s.(smem := s'.smem, slocal := s'.slocal, sdata := s'.sdata, server := Replying(s.server.write),
                        served := s.served + 1)
            && |s'.smem| == |s.smem|
  {
    hide CanParse, Parsed, Local, Answered;
  }

  lemma SameGives(s: Chan, s': Chan, c: Call, mem: seq<Byte>, cdata: seq<Byte>)
    requires Sized(s) && Sized(s') && Fits(c, s.len, |mem|) && |cdata| == |s.cdata| && Gives(s, c, mem, cdata)
    requires s'.n == s.n && s'.len == s.len && s'.cmem == s.cmem && s'.cdata == s.cdata
    ensures Gives(s', c, mem, cdata)
  {
    hide ResultOf;
  }

  lemma AnswersIs(s: Chan, c: Call, cdata: seq<Byte>)
    requires Sized(s) && Counts(s) && Correct(s) && s.client == Waiting(c) && |cdata| == |s.cdata|
    requires Gives(s, c, MemAfter(s.initial, s.issued[..|s.results|], s.len), cdata)
    ensures Answers(s, c, cdata)
  {}

  lemma InvParts(s: Chan)
    requires Inv(s)
    ensures Sized(s) && Counts(s) && Correct(s)
  {}

  lemma ServerIsTaken(s: Chan)
    requires Sized(s) && CanServe(s)
    ensures s.server.Taken?
  {}

  /** The handler is at work on the waiting call. */
  lemma ServerHasCall(s: Chan)
    requires Inv(s) && s.server.Taken?
    ensures s.client.Waiting? && s.served == |s.results|
    ensures s.server == Taken(KindOf(s.client.call.form), s.client.call.write)
    ensures s.cmem == s.client.call.cmem && Legal(s, s.client.call) && Loaded(s, s.client.call)
    ensures RequestFlag(s) == 0 && ReplyFlag(s) == 0
  {}

  lemma HandledIsCorrect(s: Chan)
    requires Inv(s) && CanServe(s)
    ensures Sized(Handled(s)) && Counts(Handled(s)) && Correct(Handled(s)) && s.served == |s.results|
    ensures RequestFlag(Handled(s)) == 0 && ReplyFlag(Handled(s)) == 0 && s.client.Waiting?
    ensures Handled(s).server == Replying(s.client.call.write) && Handled(s).served > |s.results|
    ensures Handled(s).client == s.client && Handled(s).results == s.results
  {
    hide Inv, CanServe, Loaded, Handled, Gives, Applied, Correct;
    InvParts(s);
    ServerIsTaken(s);
    ServerHasCall(s);
    HandledParts(s);
    ServesTheCall(s, s.client.call);
    MoreServed(s, Handled(s));
  }

  lemma HandledAnswers(s: Chan)
    requires Inv(s) && CanServe(s)
    ensures s.client.Waiting? && Sized(Handled(s)) && Counts(Handled(s)) && Correct(Handled(s))
    ensures Handled(s).client == s.client
    ensures Answers(Handled(s), s.client.call, Carried(Handled(s), s.client.call.write))
  {
    var c, s' := s.client.call, Handled(s);
    ServerHasCall(s);
    HandledIsCorrect(s);
    hide Progress, Loaded, CanServe, Carried, Handled, Gives, Answers, Applied;
    HandledParts(s);
    ServesTheCall(s, c);
    SameGives(s, s', c, s.smem, Carried(s', c.write));
    AnswersIs(s', c, Carried(s', c.write));
  }

  lemma ServeKeeps(s: Chan)
    requires Inv(s) && Enabled(s, Serve)
    ensures Inv(Next(s, Serve))
  {
    hide Sized, CanServe, Counts, Correct, Loaded, Answers, Handled, Carried;
    HandledIsCorrect(s);
    HandledAnswers(s);
  }

  lemma AcceptKeeps(s: Chan)
    requires Inv(s) && Enabled(s, Accept)
    ensures Inv(Next(s, Accept))
  {
    hide MemAfter, ResultOf, Loaded;
    ReplyRoom(s, true);
  }

  lemma ReplyKeeps(s: Chan)
    requires Inv(s) && Enabled(s, Reply)
    ensures Inv(Next(s, Reply))
  {
    hide MemAfter, ResultOf, Loaded, Carried;
  }

  lemma ReturnKeeps(s: Chan)
    requires Inv(s) && Enabled(s, Return)
    ensures Inv(Next(s, Return))
  {
    hide MemAfter, ResultOf;
  }

  lemma NextKeepsInv(s: Chan, t: Step)
    requires Inv(s) && Enabled(s, t)
    ensures Inv(Next(s, t))
  {
    hide Inv, Enabled, Next;
    match t
    case Issue(c) => IssueKeeps(s, c);
    case Take => TakeKeeps(s);
    case Serve => ServeKeeps(s);
    case Reply => ReplyKeeps(s);
    case Return => ReturnKeeps(s);
    case Accept => AcceptKeeps(s);
  }

  // ---- Runs ----

  ghost predicate Run(s: Chan, steps: seq<Step>, s': Chan)
    decreases |steps|
  {
    if steps == [] then s' == s else Sized(s) && Enabled(s, steps[0]) && Run(Next(s, steps[0]), steps[1..], s')
  }

  /** Nothing sent yet; the two valid bytes, and all else, are as the buffers hold them. */
  ghost predicate Start(s: Chan) {
    && Sized(s) && s.client == Idle && s.server == Polling && s.initial == s.smem
    && s.issued == [] && s.served == 0 && s.results == []
  }

  lemma StartInv(s: Chan)
    requires Start(s) && RequestFlag(s) == 0 && ReplyFlag(s) == 0
    ensures Inv(s)
  {}

  lemma NextKeepsSizes(s: Chan, t: Step)
    requires Sized(s) && Enabled(s, t)
    ensures var s' := Next(s, t); s'.n == s.n && s'.len == s.len && s'.initial == s.initial
  {
    hide CanServe, CanParse, Local, Parsed, Fetchable;
  }

  lemma {:induction false} RunKeepsInv(s: Chan, steps: seq<Step>, s': Chan)
    requires Inv(s) && Run(s, steps, s')
    ensures Inv(s') && s'.n == s.n && s'.len == s.len && s'.initial == s.initial
    decreases |steps|
  {
    if steps != [] {
      NextKeepsInv(s, steps[0]);
      NextKeepsSizes(s, steps[0]);
      hide Inv, Enabled, Next;
      RunKeepsInv(Next(s, steps[0]), steps[1..], s');
    }
  }

  /** The calls the issuing steps of a run make, in order. */
  function Made(steps: seq<Step>): seq<Call> {
    if steps == [] then [] else (if steps[0].Issue? then [steps[0].call] else []) + Made(steps[1..])
  }

  lemma StepIssues(s: Chan, t: Step)
    requires Sized(s) && Enabled(s, t)
    ensures Next(s, t).issued == s.issued + if t.Issue? then [t.call] else []
  {
    hide CanServe, CanParse, Local, Parsed, Fetchable, Splice, Rdma, RequestOf, BodyOf;
  }

  /** What is under way in a run is what its callers asked for. */
  lemma {:induction false} RunIssuesWhatWasMade(s: Chan, steps: seq<Step>, s': Chan)
    requires Run(s, steps, s')
    ensures s'.issued == s.issued + Made(steps)
    decreases |steps|
  {
    if steps != [] {
      StepIssues(s, steps[0]);
      hide Enabled, Next;
      RunIssuesWhatWasMade(Next(s, steps[0]), steps[1..], s');
      Assoc(s.issued, if steps[0].Issue? then [steps[0].call] else [], Made(steps[1..]));
    }
  }

  /** In every run of calls of either kind and form: the calls its callers make are served in order, each
      once; a call is done only after it was served, and leaves the client the bytes of its own batch,
      applied after the calls before it; and when the client's poll succeeds its call has been served. */
  lemma RunsAreCorrect(s0: Chan, steps: seq<Step>, s: Chan)
    requires Start(s0) && RequestFlag(s0) == 0 && ReplyFlag(s0) == 0 && Run(s0, steps, s)
    ensures var calls := Made(steps);
            && |s.results| <= s.served <= |calls| <= |s.results| + 1 && AllFit(calls, s0.len, |s0.smem|)
            && s.smem == MemAfter(s0.smem, calls[..s.served], s0.len) && Right(s.results, s0.smem, calls, s0.len)
            && (s.client.Waiting? ==> |calls| == |s.results| + 1 && s.client.call == calls[|s.results|])
            && (s.client == Idle && s.results != [] ==> s.cmem == s.results[|s.results| - 1])
    ensures Sized(s) && (s.client.Waiting? && ReplyFlag(s) != 0 ==> s.served == |s.results| + 1)
  {
    StartInv(s0);
    RunKeepsInv(s0, steps, s);
    RunIssuesWhatWasMade(s0, steps, s);
    hide MemAfter, Right, Loaded, Answers, AllFit, Made;
    NothingFirst(Made(steps));
  }

  // ---- Nothing is lost ----

  /** Steps still owed: the handler's to come back to its poll, and those of the call the client waits for. */
  function Owed(s: Chan): nat {
    (match s.server case Taken(_, _) => 3 case Replying(_) => 2 case Returning => 1 case Polling => 0)
    + (if s.client.Waiting? then 1 else 0)
    + if s.client.Waiting? && s.served == |s.results| && !s.server.Taken? then 4 else 0
  }

  lemma TakePays(s: Chan)
    requires Inv(s) && Enabled(s, Take)
    ensures Owed(Next(s, Take)) == Owed(s) - 1
  {
    hide Loaded, Correct, Answers, Arrived;
  }

  lemma ServePays(s: Chan)
    requires Inv(s) && Enabled(s, Serve)
    ensures Owed(Next(s, Serve)) == Owed(s) - 1
  {
    hide Inv, Sized, CanServe, Handled, Counts, Correct, Loaded;
    InvParts(s);
    HandledIsCorrect(s);
    ServerIsTaken(s);
  }

  lemma ReturnPays(s: Chan, t: Step)
    requires Inv(s) && Enabled(s, t) && (t == Reply || t == Return)
    ensures Owed(Next(s, t)) == Owed(s) - 1
  {
    hide Loaded, Correct, Answers, Arrived, Carried;
  }

  lemma AcceptPays(s: Chan)
    requires Inv(s) && Enabled(s, Accept)
    ensures Owed(Next(s, Accept)) == Owed(s) - 1
  {
    hide Loaded, Correct, Answers, Arrived;
  }

  lemma StepPays(s: Chan, t: Step)
    requires Inv(s) && Enabled(s, t) && !t.Issue?
    ensures Owed(Next(s, t)) == Owed(s) - 1
  {
    hide Inv, Enabled, Next, Owed;
    match t
    case Take => TakePays(s);
    case Serve => ServePays(s);
    case Accept => AcceptPays(s);
    case _ => ReturnPays(s, t);
  }

  lemma SomeStep(s: Chan) returns (t: Step)
    requires Inv(s) && Owed(s) > 0
    ensures Enabled(s, t) && !t.Issue?
  {
    match s.server
    case Taken(_, _) =>
      ServerHasCall(s);
      ServesTheCall(s, s.client.call);
      t := Serve;
    case Replying(_) => t := Reply;
    case Returning => t := Return;
    case Polling =>
      if s.served == |s.results| {
        TrailerReads(s.sreq, KindOf(s.client.call.form), s.n, s.client.call.write, s.len);
        t := Take;
      } else {
        t := Accept;
      }
  }

  /** Every request is answered whatever the interleaving, also one issued while the handler is on its
      way back: each step but an issue pays one of the steps owed, and while some are owed one can be taken. */
  lemma ExchangesDrain(s: Chan)
    requires Inv(s)
    ensures Owed(s) > 0 ==> exists t: Step :: !t.Issue? && Enabled(s, t)
    ensures forall t: Step :: !t.Issue? && Enabled(s, t) ==> Owed(Next(s, t)) == Owed(s) - 1
    ensures s.client.Waiting? ==> Owed(s) > 0
  {
    if Owed(s) > 0 { var t := SomeStep(s); }
    forall t: Step | !t.Issue? && Enabled(s, t) ensures Owed(Next(s, t)) == Owed(s) - 1 { StepPays(s, t); }
  }

  lemma Prepend(s: Chan, t: Step, steps: seq<Step>, s': Chan)
    requires Sized(s) && Enabled(s, t) && Run(Next(s, t), steps, s')
    ensures Run(s, [t] + steps, s') && Made([t] + steps) == (if t.Issue? then [t.call] else []) + Made(steps)
  {
    assert ([t] + steps)[1..] == steps;
  }

  /** Left alone, both sides come to rest. */
  lemma {:induction false} ComesToRest(s: Chan) returns (steps: seq<Step>, s': Chan)
    requires Inv(s)
    ensures Run(s, steps, s') && Made(steps) == [] && Inv(s') && Owed(s') == 0
    decreases Owed(s)
  {
    if Owed(s) == 0 {
      steps, s' := [], s;
    } else {
      var t := SomeStep(s);
      InvParts(s);
      StepPays(s, t);
      NextKeepsInv(s, t);
      hide Inv, Enabled, Next, Owed;
      steps, s' := ComesToRest(Next(s, t));
      Prepend(s, t, steps, s');
      steps := [t] + steps;
    }
  }

  lemma IdleIsServed(s: Chan)
    requires Inv(s) && s.client == Idle
    ensures s.served == |s.issued| == |s.results| && s.smem == MemAfter(s.initial, s.issued, s.len)
  {
    hide MemAfter, Right;
    assert s.issued[..s.served] == s.issued;
  }

  lemma LastOutcome(s: Chan, c: Call, s': Chan)
    requires Inv(s) && s.client == Idle && Inv(s') && Owed(s') == 0 && s'.issued == s.issued + [c]
    requires s'.initial == s.initial && s'.len == s.len && InRange(c.reqs, s.len, |s.smem|, |c.cmem|)
    requires AllFit(s.issued, s.len, |s.initial|) && s.smem == MemAfter(s.initial, s.issued, s.len)
    ensures s'.client == Idle && Outcome(c.reqs, s.len, c.write, c.cmem, s.smem, s'.cmem, s'.smem)
  {
    hide MemAfter, Loaded, Arrived, Answers, CopyAll;
    AtRest(s');
    IdleIsServed(s');
    var k := |s.issued|;
    OneMore(s.initial, s'.issued, k, s.len);
    assert s'.issued[..k] == s.issued && s'.issued[..k + 1] == s'.issued;
  }

  lemma AtRest(s: Chan)
    requires Owed(s) == 0
    ensures s.client == Idle && s.server == Polling
  {}

  lemma MayCall(s: Chan, c: Call)
    requires Inv(s) && s.client == Idle
    requires |c.reqs| == s.n && InRange(c.reqs, s.len, |s.smem|, |c.cmem|) && |c.cmem| == |s.cmem|
    requires c.form.Switch? ==> |c.form.record| == s.m && 8 + s.m <= Head(s.n, s.len)
    ensures Sized(s) && Enabled(s, Issue(c)) && AllFit(s.issued, s.len, |s.initial|)
  {}

  lemma CallRuns(s: Chan, c: Call) returns (steps: seq<Step>, s': Chan)
    requires Inv(s) && Sized(s) && Enabled(s, Issue(c))
    ensures Run(s, [Issue(c)] + steps, s') && Made(steps) == [] && Inv(s') && Owed(s') == 0
    ensures s'.issued == s.issued + [c] && s'.initial == s.initial && s'.len == s.len
  {
    hide Inv, Enabled, Next, Run, Owed;
    NextKeepsInv(s, Issue(c));
    steps, s' := ComesToRest(Next(s, Issue(c)));
    Prepend(s, Issue(c), steps, s');
    RunIssuesWhatWasMade(s, [Issue(c)] + steps, s');
    RunKeepsInv(s, [Issue(c)] + steps, s');
  }

  /** Whatever ran before, a client at rest can make any call on addresses in range, in either form (a switch
      needs room for the record), and it completes: server and client memory are then the outcome of that call. */
  lemma EveryCallCompletes(s: Chan, c: Call) returns (steps: seq<Step>, s': Chan)
    requires Inv(s) && s.client == Idle
    requires |c.reqs| == s.n && InRange(c.reqs, s.len, |s.smem|, |c.cmem|) && |c.cmem| == |s.cmem|
    requires c.form.Switch? ==> |c.form.record| == s.m && 8 + s.m <= Head(s.n, s.len)
    ensures Run(s, [Issue(c)] + steps, s') && Made(steps) == [] && s'.client == Idle
    ensures Outcome(c.reqs, s.len, c.write, c.cmem, s.smem, s'.cmem, s'.smem)
  {
    MayCall(s, c);
    hide Inv, Enabled, Run, Made, Legal, MemAfter, Right;
    steps, s' := CallRuns(s, c);
    IdleIsServed(s);
    LastOutcome(s, c, s');
  }

  // ---- The reply buffer as it was allocated ----

  /** The client takes the valid byte it finds for the reply to a call the server has not served. */
  ghost predicate PollsEarly(s: Chan) {
    Sized(s) && s.client.Waiting? && ReplyFlag(s) != 0 && s.served <= |s.results|
  }

  ghost predicate Reaches(s: Chan, s': Chan) { exists steps :: Run(s, steps, s') }

  ghost predicate CanPollEarly(s: Chan) { exists s' :: Reaches(s, s') && PollsEarly(s') }

  lemma StaleFlagIsTaken(s: Chan, c: Call)
    requires Start(s) && Legal(s, c) && ReplyFlag(s) != 0
    ensures CanPollEarly(s)
  {
    var s' := Next(s, Issue(c));
    RequestEnds(s, c);
    assert PollsEarly(s');
    var steps := [Issue(c)];
    assert steps[1..] == [] && Run(s', [], s');
    assert Run(s, steps, s');
    assert Reaches(s, s');
  }

  /** The client's reply buffer is not cleared when it is allocated: some run takes a stale byte for a
      reply exactly when its valid byte begins set. */
  lemma PollsEarlyIff(s: Chan, c: Call)
    requires Start(s) && RequestFlag(s) == 0 && Legal(s, c)
    ensures CanPollEarly(s) <==> ReplyFlag(s) != 0
  {
    if ReplyFlag(s) != 0 {
      StaleFlagIsTaken(s, c);
    } else {
      forall s' | Reaches(s, s') ensures !PollsEarly(s') {
        var steps :| Run(s, steps, s');
        RunsAreCorrect(s, steps, s');
      }
    }
  }
}
