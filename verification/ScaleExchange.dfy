/** scaleRPC end to end: request buffer, RDMA write, the server's poll and handler, reply buffer, RDMA write,
    the client's poll and delivery; in the direct form and after a context switch. */
module ScaleExchange {
  import opened Bytes
  import opened Copies
  import opened ScaleRpc

  /** Where the four trailer bytes start in a request buffer, whatever the kind of the batch. */
  function Head(n: nat, len: nat): nat { n * (24 + len) }

  function RequestAt(write: bool, n: nat, len: nat): nat { if write then 0 else n * len }

  function ReplyAt(write: bool, n: nat, len: nat): nat { if write then n * len else 0 }

  /** Where the client polls the valid byte of the reply. */
  function ReplyFlagAt(n: nat, len: nat): nat { 24 * n + n * len }

  function Flag(write: bool): Byte { if write then 1 else 0 }

  function Trailer(kind: Byte, n: Byte, write: bool): seq<Byte> { [kind, n, Flag(write), 1] }

  /** An RDMA write of `k` bytes between buffers of the two sides, at the same offset in both. */
  function Rdma(dst: seq<Byte>, src: seq<Byte>, off: nat, k: nat): (r: seq<Byte>)
    requires off + k <= |dst| && off + k <= |src|
    ensures |r| == |dst|
  {
    Splice(dst, off, src[off..off + k])
  }

  lemma RdmaCarries(dst: seq<Byte>, src: seq<Byte>, off: nat, d: seq<Byte>)
    requires off + |d| <= |dst| && off + |d| <= |src|
    ensures Rdma(dst, Splice(src, off, d), off, |d|) == Splice(dst, off, d)
  {}

  lemma Sizes(n: nat, len: nat)
    ensures Head(n, len) == 24 * n + n * len
    ensures n * Stride(true, len) == Head(n, len) && n * Stride(false, len) == 24 * n
    ensures n >= 1 ==> 4 + Head(n, len) <= (30 + len) * n
  {
    assert n * (24 + len) == n * 24 + n * len;
    assert (30 + len) * n == 30 * n + n * len;
  }

  /** The server's buffers, as it allocates them for its own batch and size. */
  predicate ServerSized(sreq: seq<Byte>, sdata: seq<Byte>, n: nat, len: nat) {
    |sreq| == |sdata| == 4 + Head(n, len)
  }

  /** The client's buffers. */
  predicate ClientSized(creq: seq<Byte>, cdata: seq<Byte>, n: nat, len: nat) {
    |creq| == |cdata| == (30 + len) * n
  }

  // ---- Request ----

  /** What the handler is called with: the bytes it will parse, and whether they are a write. */
  ghost predicate Arrived(sreq: seq<Byte>, kind: Byte, n: Byte, write: bool, len: nat) {
    && Head(n, len) + 4 <= |sreq| && sreq[Head(n, len)..Head(n, len) + 4] == Trailer(kind, n, write)
  }

  ghost function DirectRequest(reqs: seq<Req>, len: Word, write: bool, cmem: seq<Byte>): seq<Byte>
    requires |reqs| < 128 && ClientFits(reqs, len, |cmem|)
  {
    Body(reqs, len, write, cmem) + Trailer(2, |reqs|, write)
  }

  /** The valid byte lands where the server polls, and the batch where it parses, for reads and writes. */
  lemma DirectArrives(reqs: seq<Req>, len: Word, write: bool, cmem: seq<Byte>, creq: seq<Byte>, sreq: seq<Byte>)
    requires 1 <= |reqs| < 128 && ClientFits(reqs, len, |cmem|)
    requires |creq| == (30 + len) * |reqs| && |sreq| == 4 + Head(|reqs|, len)
    ensures var n, req, at := |reqs|, DirectRequest(reqs, len, write, cmem), RequestAt(write, |reqs|, len);
            && at + |req| == 4 + Head(n, len) <= |creq|
            && var sreq' := Rdma(sreq, Splice(creq, at, req), at, |req|);
               Arrived(sreq', 2, n, write, len) && sreq'[at..] == req
  {
    Sizes(|reqs|, len);
    BodyLength(reqs, len, write, cmem);
    var req, at := DirectRequest(reqs, len, write, cmem), RequestAt(write, |reqs|, len);
    RdmaCarries(sreq, creq, at, req);
    SpliceReads(sreq, at, req);
  }

  /** A switch sends the size of the encoded batch and the record of the region that holds it. */
  function SwitchRequest(bodySize: Word, record: seq<Byte>, n: Byte, write: bool): seq<Byte> {
    Enc(bodySize) + record + Trailer(1, n, write)
  }

  lemma SwitchArrives(bodySize: Word, record: seq<Byte>, n: Byte, write: bool, len: nat, creq: seq<Byte>,
      sreq: seq<Byte>)
    requires 1 <= n < 128 && 8 + |record| <= Head(n, len)
    requires |creq| == (30 + len) * n && |sreq| == 4 + Head(n, len)
    ensures var req, at := SwitchRequest(bodySize, record, n, write), Head(n, len) - 8 - |record|;
            && at + |req| == 4 + Head(n, len) <= |creq|
            && var sreq' := Rdma(sreq, Splice(creq, at, req), at, |req|);
               && Arrived(sreq', 1, n, write, len)
               && Number(sreq'[Head(n, len) - 8 - |record|..Head(n, len) - |record|]) == bodySize
               && sreq'[Head(n, len) - |record|..Head(n, len)] == record
  {
    Sizes(n, len);
    var req, at := SwitchRequest(bodySize, record, n, write), Head(n, len) - 8 - |record|;
    RdmaCarries(sreq, creq, at, req);
    var sreq' := Rdma(sreq, Splice(creq, at, req), at, |req|);
    SpliceReads(sreq, at, req);
    assert sreq'[at..at + 8] == Enc(bodySize);
    assert sreq'[at + 8..Head(n, len)] == record;
  }

  // ---- Reply ----

  /** The reply buffer the handler fills: the entries, then the valid byte. */
  ghost function Answered(sdata: seq<Byte>, reply: seq<Byte>, write: bool, n: nat, len: nat): (r: seq<Byte>)
    requires ReplyAt(write, n, len) + |reply| + 1 <= |sdata|
    ensures |r| == |sdata|
  {
    Splice(sdata, ReplyAt(write, n, len), reply + [1])
  }

  /** The size the handler computes for its RDMA write of the reply. */
  function WriteSize(write: bool, n: nat, len: nat): nat { 1 + n * 24 + if write then 0 else n * len }

  /** The reply's valid byte lands where the client polls, for reads and writes. */
  lemma ReplyArrives(reqs: seq<Req>, len: Word, write: bool, smem: seq<Byte>, sdata: seq<Byte>, cdata: seq<Byte>)
    requires 1 <= |reqs| < 128 && forall i :: 0 <= i < |reqs| ==> reqs[i].server + len <= |smem|
    requires |sdata| == 4 + Head(|reqs|, len) && |cdata| == (30 + len) * |reqs|
    ensures var n, reply, at := |reqs|, ReplyOf(reqs, len, write, smem), ReplyAt(write, |reqs|, len);
            && |reply| + 1 == WriteSize(write, n, len)
            && at + |reply| + 1 <= |sdata| && at + |reply| + 1 <= |cdata| && at + |reply| == ReplyFlagAt(n, len)
            && Rdma(cdata, Answered(sdata, reply, write, n, len), at, |reply| + 1) == Splice(cdata, at, reply + [1])
            && Splice(cdata, at, reply + [1])[ReplyFlagAt(n, len)] == 1
  {
    var n, reply, at := |reqs|, ReplyOf(reqs, len, write, smem), ReplyAt(write, |reqs|, len);
    Sizes(n, len);
    ReplyLength(reqs, len, write, smem);
    RdmaCarries(cdata, sdata, at, reply + [1]);
    SpliceReads(cdata, at, reply + [1]);
  }

  /** Delivering a read's reply fills the client's buffers with the server's bytes, in order. */
  lemma ReplyDelivers(reqs: seq<Req>, len: Word, cmem: seq<Byte>, smem: seq<Byte>, cdata: seq<Byte>)
    requires InRange(reqs, len, |smem|, |cmem|) && |ReplyOf(reqs, len, false, smem)| + 1 <= |cdata|
    ensures var cdata' := Splice(cdata, 0, ReplyOf(reqs, len, false, smem) + [1]);
            && Scatterable(cdata', |reqs|, |cmem|)
            && Scatter(cdata', |reqs|, cmem) == CopyAll(cmem, smem, ToClient(reqs), len)
  {
    var reply := ReplyOf(reqs, len, false, smem);
    var rest := [1] + cdata[|reply| + 1..];
    assert Splice(cdata, 0, reply + [1]) == reply + rest;
    ScatterReply(reqs, len, cmem, smem, rest);
    DeliveredIsCopyAll(reqs, len, cmem, smem);
  }

  // ---- End to end ----

  /** The outcome of one exchange: server memory and client memory. */
  ghost predicate Outcome(reqs: seq<Req>, len: Word, write: bool, cmem: seq<Byte>, smem: seq<Byte>,
      cmem': seq<Byte>, smem': seq<Byte>)
    requires InRange(reqs, len, |smem|, |cmem|)
  {
    && smem' == (if write then CopyAll(smem, cmem, ToServer(reqs), len) else smem)
    && cmem' == (if write then cmem else CopyAll(cmem, smem, ToClient(reqs), len))
  }

  /** The handler's part: from the bytes it parses to the reply in the client's buffer. */
  ghost function Served(body: seq<Byte>, n: nat, write: bool, len: Word, smem: seq<Byte>, sdata: seq<Byte>,
      cdata: seq<Byte>): (seq<Byte>, seq<Byte>)
    requires Servable(body, n, write, len, |smem|)
    requires ReplyAt(write, n, len) + WriteSize(write, n, len) <= |sdata| && |sdata| <= |cdata|
    requires |Serve(body, n, write, len, smem).1| + 1 == WriteSize(write, n, len)
  {
    var (smem', reply) := Serve(body, n, write, len, smem);
    (smem', Rdma(cdata, Answered(sdata, reply, write, n, len), ReplyAt(write, n, len), WriteSize(write, n, len)))
  }

  /** Parsing `body`, the handler answers a reply whose valid byte the client sees, and the outcome is
      that of the batch. */
  ghost predicate Exchanged(reqs: seq<Req>, len: Word, write: bool, cmem: seq<Byte>, smem: seq<Byte>,
                            body: seq<Byte>, sdata: seq<Byte>, cdata: seq<Byte>)
    requires InRange(reqs, len, |smem|, |cmem|)
  {
    var n := |reqs|;
    && Servable(body, n, write, len, |smem|)
    && |Serve(body, n, write, len, smem).1| + 1 == WriteSize(write, n, len)
    && ReplyAt(write, n, len) + WriteSize(write, n, len) <= |sdata| <= |cdata|
    && var (smem', cdata') := Served(body, n, write, len, smem, sdata, cdata);
       && ReplyFlagAt(n, len) < |cdata'| && cdata'[ReplyFlagAt(n, len)] == 1
       && (!write ==> Scatterable(cdata', n, |cmem|))
       && Outcome(reqs, len, write, cmem, smem, if write then cmem else Scatter(cdata', n, cmem), smem')
  }

  /** Either form of the request leads to the same outcome: the bytes the handler parses begin with
      the client's encoding, and what follows them, and what the buffers held before, does not matter. */
  lemma ExchangeFromBody(reqs: seq<Req>, len: Word, write: bool, cmem: seq<Byte>, smem: seq<Byte>,
                         rest: seq<Byte>, sdata: seq<Byte>, cdata: seq<Byte>)
    requires 1 <= |reqs| < 128 && InRange(reqs, len, |smem|, |cmem|)
    requires |sdata| == 4 + Head(|reqs|, len) && |cdata| == (30 + len) * |reqs|
    ensures Exchanged(reqs, len, write, cmem, smem, Body(reqs, len, write, cmem) + rest, sdata, cdata)
  {
    Sizes(|reqs|, len);
    ServeBody(reqs, len, write, cmem, smem, rest);
    ServedAllIsCopyAll(reqs, len, write, cmem, smem);
    ReplyArrives(reqs, len, write, smem, sdata, cdata);
    if !write { ReplyDelivers(reqs, len, cmem, smem, cdata); }
  }

  /** The direct form, end to end. The handler takes kind and direction from the trailer it polls. */
  lemma DirectExchange(reqs: seq<Req>, len: Word, write: bool, cmem: seq<Byte>, smem: seq<Byte>,
                       creq: seq<Byte>, sreq: seq<Byte>, sdata: seq<Byte>, cdata: seq<Byte>)
    requires 1 <= |reqs| < 128 && InRange(reqs, len, |smem|, |cmem|)
    requires ServerSized(sreq, sdata, |reqs|, len) && ClientSized(creq, cdata, |reqs|, len)
    ensures var n, req, at, h := |reqs|, DirectRequest(reqs, len, write, cmem), RequestAt(write, |reqs|, len),
        Head(|reqs|, len);
            && at + |req| <= |sreq| <= |creq|
            && var sreq' := Rdma(sreq, Splice(creq, at, req), at, |req|);
               && sreq'[h + 3] != 0 && sreq'[h] != 1 && write == (sreq'[h + 2] == 1)
               && Exchanged(reqs, len, write, cmem, smem, sreq'[at..], sdata, cdata)
  {
    DirectArrives(reqs, len, write, cmem, creq, sreq);
    var h, req, at := Head(|reqs|, len), DirectRequest(reqs, len, write, cmem), RequestAt(write, |reqs|, len);
    TrailerReads(Rdma(sreq, Splice(creq, at, req), at, |req|), 2, |reqs|, write, len);
    ExchangeFromBody(reqs, len, write, cmem, smem, Trailer(2, |reqs|, write), sdata, cdata);
  }

  /** The request buffer of the server after a switch request. */
  ghost function SwitchSent(bodySize: Word, record: seq<Byte>, n: Byte, write: bool, len: nat, creq: seq<Byte>,
      sreq: seq<Byte>): (r: seq<Byte>)
    requires 8 + |record| <= Head(n, len) && 4 + Head(n, len) <= |creq| && 4 + Head(n, len) <= |sreq|
    ensures |r| == |sreq|
  {
    var req, at := SwitchRequest(bodySize, record, n, write), Head(n, len) - 8 - |record|;
    Rdma(sreq, Splice(creq, at, req), at, |req|)
  }

  /** The size and the record the handler finds, `m` being the size of a record. */
  function FoundSize(sreq: seq<Byte>, h: nat, m: nat): nat
    requires m + 8 <= h <= |sreq|
  {
    Number(sreq[h - m - 8..h - m])
  }

  function FoundRecord(sreq: seq<Byte>, h: nat, m: nat): seq<Byte>
    requires m + 8 <= h <= |sreq|
  {
    sreq[h - m..h]
  }

  ghost predicate Fetchable(sreq: seq<Byte>, h: nat, m: nat, regions: map<seq<Byte>, seq<Byte>>, slocal: seq<Byte>) {
    && m + 8 <= h <= |sreq| && FoundRecord(sreq, h, m) in regions
    && FoundSize(sreq, h, m) <= |regions[FoundRecord(sreq, h, m)]| && FoundSize(sreq, h, m) <= |slocal|
  }

  /** The handler's RDMA read of the batch into its local buffer. */
  ghost function Fetched(sreq: seq<Byte>, h: nat, m: nat, regions: map<seq<Byte>, seq<Byte>>,
      slocal: seq<Byte>): seq<Byte>
    requires Fetchable(sreq, h, m, regions, slocal)
  {
    Splice(slocal, 0, regions[FoundRecord(sreq, h, m)][..FoundSize(sreq, h, m)])
  }

  lemma FetchGets(body: seq<Byte>, record: seq<Byte>, n: Byte, write: bool, len: nat, creq: seq<Byte>, sreq: seq<Byte>,
                  regions: map<seq<Byte>, seq<Byte>>, slocal: seq<Byte>)
    requires 1 <= n < 128 && 8 + |record| <= Head(n, len) && |body| <= Head(n, len) < WORD
    requires |creq| == (30 + len) * n && |sreq| == |slocal| == 4 + Head(n, len)
    requires record in regions && regions[record] == body
    ensures 4 + Head(n, len) <= |creq|
    ensures var sreq' := SwitchSent(|body|, record, n, write, len, creq, sreq);
            && Arrived(sreq', 1, n, write, len)
            && Fetchable(sreq', Head(n, len), |record|, regions, slocal)
            && Fetched(sreq', Head(n, len), |record|, regions, slocal) == body + slocal[|body|..]
  {
    Sizes(n, len);
    SwitchArrives(|body|, record, n, write, len, creq, sreq);
    assert body[..|body|] == body;
    assert Splice(slocal, 0, body) == body + slocal[|body|..];
  }

  lemma BodyFits(reqs: seq<Req>, len: Word, write: bool, cmem: seq<Byte>)
    requires ClientFits(reqs, len, |cmem|)
    ensures |Body(reqs, len, write, cmem)| <= Head(|reqs|, len)
  {
    Sizes(|reqs|, len);
    BodyLength(reqs, len, write, cmem);
  }

  /** The context-switch form, end to end: the server fetches the batch from the registered region
      named by the record it finds in the request. It needs room for the size and the record. */
  lemma SwitchExchange(reqs: seq<Req>, len: Word, write: bool, cmem: seq<Byte>, smem: seq<Byte>, creq: seq<Byte>,
      sreq: seq<Byte>,
                       slocal: seq<Byte>, sdata: seq<Byte>, cdata: seq<Byte>, record: seq<Byte>,
                           regions: map<seq<Byte>, seq<Byte>>)
    requires 1 <= |reqs| < 128 && InRange(reqs, len, |smem|, |cmem|) && 8 + |record| <= Head(|reqs|, len) < WORD
    requires ServerSized(sreq, sdata, |reqs|, len) && ClientSized(creq, cdata, |reqs|, len) && |slocal| == |sreq|
    requires record in regions && regions[record] == Body(reqs, len, write, cmem)
    ensures var n, h, bodySize := |reqs|, Head(|reqs|, len), |Body(reqs, len, write, cmem)|;
            && bodySize < WORD && h + 4 <= |creq|
            && var sreq' := SwitchSent(bodySize, record, n, write, len, creq, sreq);
               && sreq'[h + 3] != 0 && sreq'[h] == 1 && write == (sreq'[h + 2] == 1)
               && Fetchable(sreq', h, |record|, regions, slocal)
               && Exchanged(reqs, len, write, cmem, smem, Fetched(sreq', h, |record|, regions, slocal), sdata, cdata)
  {
    BodyFits(reqs, len, write, cmem);
    var body := Body(reqs, len, write, cmem);
    FetchGets(body, record, |reqs|, write, len, creq, sreq, regions, slocal);
    TrailerReads(SwitchSent(|body|, record, |reqs|, write, len, creq, sreq), 1, |reqs|, write, len);
    ExchangeFromBody(reqs, len, write, cmem, smem, slocal[|body|..], sdata, cdata);
  }

  lemma TrailerReads(sreq: seq<Byte>, kind: Byte, n: Byte, write: bool, len: nat)
    requires Arrived(sreq, kind, n, write, len)
    ensures var h := Head(n, len);
            sreq[h] == kind && sreq[h + 1] == n && sreq[h + 2] == Flag(write) && sreq[h + 3] == 1
  {
    var t := sreq[Head(n, len)..Head(n, len) + 4];
    assert t[0] == kind && t[1] == n && t[2] == Flag(write) && t[3] == 1;
  }
}
