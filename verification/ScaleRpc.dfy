/** scaleRPC: a batch of reads or writes encoded into a request buffer, moved by RDMA, served from
    the server's copy, and answered through a reply buffer. A context switch sends only a
    descriptor, and the server fetches the batch by an RDMA read. */
module ScaleRpc {
  import opened Bytes
  import opened Copies
  import opened Modular

  // ---- The client's encoding ----

  /** One entry: server address, client address, size, and the data of a write. */
  function Entry(r: Req, len: Word, write: bool, cmem: seq<Byte>): (d: seq<Byte>)
    requires r.client + len <= |cmem|
    ensures |d| == 24 + if write then len else 0
  {
    Header(r, len) + if write then cmem[r.client..r.client + len] else []
  }

  ghost function Body(reqs: seq<Req>, len: Word, write: bool, cmem: seq<Byte>): seq<Byte>
    requires ClientFits(reqs, len, |cmem|)
  {
    if reqs == [] then [] else Entry(reqs[0], len, write, cmem) + Body(reqs[1..], len, write, cmem)
  }

  lemma {:induction false} BodyLength(reqs: seq<Req>, len: Word, write: bool, cmem: seq<Byte>)
    requires ClientFits(reqs, len, |cmem|)
    ensures |Body(reqs, len, write, cmem)| == |reqs| * Stride(write, len)
  {
    if reqs != [] {
      BodyLength(reqs[1..], len, write, cmem);
      MulStep(|reqs|, Stride(write, len));
    }
  }

  // ---- The server's loop, on whatever bytes it finds ----

  /** The bytes begin with one entry whose server address is in memory. */
  ghost predicate EntryFits(body: seq<Byte>, write: bool, size: Word, memSize: nat) {
    && Stride(write, size) <= |body| && Number(body[..8]) < WORD && Number(body[8..16]) < WORD
    && Number(body[..8]) + size <= memSize
  }

  /** How many such entries the bytes begin with. */
  ghost function Entries(body: seq<Byte>, write: bool, size: Word, memSize: nat): nat
    decreases |body|
  {
    if EntryFits(body, write, size, memSize) then 1 + Entries(body[Stride(write, size)..], write, size, memSize) else 0
  }

  ghost predicate Servable(body: seq<Byte>, n: nat, write: bool, size: Word, memSize: nat) {
    n <= Entries(body, write, size, memSize)
  }

  /** One entry of the reply: the header again, with the data of a read. */
  function ReplyEntry(r: Req, len: Word, write: bool, smem: seq<Byte>): (d: seq<Byte>)
    requires r.server + len <= |smem|
    ensures |d| == Stride(!write, len)
  {
    Header(r, len) + if write then [] else smem[r.server..r.server + len]
  }

  ghost function FirstReq(body: seq<Byte>, write: bool, size: Word, memSize: nat): (r: Req)
    requires EntryFits(body, write, size, memSize)
    ensures r.server + size <= memSize
  {
    Req(Number(body[..8]), Number(body[8..16]))
  }

  ghost function AfterEntry(body: seq<Byte>, write: bool, size: Word, smem: seq<Byte>): (m: seq<Byte>)
    requires EntryFits(body, write, size, |smem|)
    ensures |m| == |smem|
  {
    if write then Splice(smem, Number(body[..8]), body[24..24 + size]) else smem
  }

  ghost function FirstReply(body: seq<Byte>, write: bool, size: Word, smem: seq<Byte>): (d: seq<Byte>)
    requires EntryFits(body, write, size, |smem|)
    ensures |d| == Stride(!write, size)
  {
    ReplyEntry(FirstReq(body, write, size, |smem|), size, write, AfterEntry(body, write, size, smem))
  }

  /** Server memory and reply after `n` entries. */
  ghost function Serve(body: seq<Byte>, n: nat, write: bool, size: Word, smem: seq<Byte>): (r: (seq<Byte>, seq<Byte>))
    requires Servable(body, n, write, size, |smem|)
    ensures |r.0| == |smem|
    decreases n
  {
    if n == 0 then (smem, [])
    else
      var (smem', reply) := Serve(body[Stride(write, size)..], n - 1, write, size, AfterEntry(body, write, size, smem));
      (smem', FirstReply(body, write, size, smem) + reply)
  }

  lemma HeaderReads(r: Req, len: Word, rest: seq<Byte>)
    ensures var body := Header(r, len) + rest;
            && body[..8] == Enc(r.server) && body[8..16] == Enc(r.client) && body[16..24] == Enc(len)
            && body[24..] == rest
  {}

  /** Decoding one header with its data, whatever follows it in the buffer. */
  lemma BlockDecodes(r: Req, len: Word, data: seq<Byte>, rest: seq<Byte>, body: seq<Byte>)
    requires body == Header(r, len) + data + rest
    ensures |body| == 24 + |data| + |rest|
    ensures Number(body[..8]) == r.server && Number(body[8..16]) == r.client && Number(body[16..24]) == len
    ensures body[24..24 + |data|] == data && body[24 + |data|..] == rest
  {
    Regroup(Header(r, len), data, rest);
    HeaderReads(r, len, data + rest);
    Slices(body, 24, |data|);
    TakeDrop(data, rest);
  }

  /** The reply to a batch: every header again, and for a read the server's bytes. */
  ghost function ReplyOf(reqs: seq<Req>, len: Word, write: bool, smem: seq<Byte>): seq<Byte>
    requires forall i :: 0 <= i < |reqs| ==> reqs[i].server + len <= |smem|
  {
    if reqs == [] then []
    else ReplyEntry(reqs[0], len, write, smem) + ReplyOf(reqs[1..], len, write, smem)
  }

  lemma {:induction false} ReplyLength(reqs: seq<Req>, len: Word, write: bool, smem: seq<Byte>)
    requires forall i :: 0 <= i < |reqs| ==> reqs[i].server + len <= |smem|
    ensures |ReplyOf(reqs, len, write, smem)| == |reqs| * Stride(!write, len)
  {
    if reqs != [] {
      ReplyLength(reqs[1..], len, write, smem);
      MulStep(|reqs|, Stride(!write, len));
    }
  }

  /** Server memory after one entry. */
  function Served(r: Req, len: Word, write: bool, cmem: seq<Byte>, smem: seq<Byte>): (m: seq<Byte>)
    requires r.server + len <= |smem| && r.client + len <= |cmem|
    ensures |m| == |smem|
  {
    if write then Splice(smem, r.server, cmem[r.client..r.client + len]) else smem
  }

  lemma EntryParses(r: Req, len: Word, write: bool, cmem: seq<Byte>, smem: seq<Byte>, tail: seq<Byte>, body: seq<Byte>)
    requires r.server + len <= |smem| && r.client + len <= |cmem| && body == Entry(r, len, write, cmem) + tail
    ensures EntryFits(body, write, len, |smem|) && body[Stride(write, len)..] == tail
    ensures AfterEntry(body, write, len, smem) == Served(r, len, write, cmem, smem)
    ensures FirstReply(body, write, len, smem) == ReplyEntry(r, len, write, Served(r, len, write, cmem, smem))
  {
    hide Header, Number, Splice;
    BlockDecodes(r, len, if write then cmem[r.client..r.client + len] else [], tail, body);
  }

  lemma ServeEntry(r: Req, n: nat, len: Word, write: bool, cmem: seq<Byte>, smem: seq<Byte>, tail: seq<Byte>,
      body: seq<Byte>)
    requires r.server + len <= |smem| && r.client + len <= |cmem| && body == Entry(r, len, write, cmem) + tail
    requires n >= 1 && Servable(tail, n - 1, write, len, |smem|)
    ensures Servable(body, n, write, len, |smem|)
    ensures var smem', rest := Served(r, len, write, cmem, smem),
        Serve(tail, n - 1, write, len, Served(r, len, write, cmem, smem));
            Serve(body, n, write, len, smem) == (rest.0, ReplyEntry(r, len, write, smem') + rest.1)
  {
    EntryParses(r, len, write, cmem, smem, tail, body);
  }

  /** Server memory after the whole batch: each request on what the ones before it left. */
  ghost function ServedAll(reqs: seq<Req>, len: Word, write: bool, cmem: seq<Byte>, smem: seq<Byte>): (m: seq<Byte>)
    requires InRange(reqs, len, |smem|, |cmem|)
    ensures |m| == |smem|
    decreases |reqs|
  {
    if reqs == [] then smem else ServedAll(reqs[1..], len, write, cmem, Served(reqs[0], len, write, cmem, smem))
  }

  lemma {:induction false} ServedAllIsCopyAll(reqs: seq<Req>, len: Word, write: bool, cmem: seq<Byte>, smem: seq<Byte>)
    requires InRange(reqs, len, |smem|, |cmem|)
    ensures ServedAll(reqs, len, write, cmem, smem) == if write then CopyAll(smem, cmem, ToServer(reqs), len) else smem
    decreases |reqs|
  {
    if reqs != [] {
      ServerMoves(reqs);
      ServedAllIsCopyAll(reqs[1..], len, write, cmem, Served(reqs[0], len, write, cmem, smem));
    }
  }

  /** The server's loop over the client's encoding applies the writes in order, and answers with
      every header and, for a read, the server's bytes. */
  lemma {:induction false} ServeBody(reqs: seq<Req>, len: Word, write: bool, cmem: seq<Byte>, smem: seq<Byte>,
      rest: seq<Byte>)
    requires InRange(reqs, len, |smem|, |cmem|)
    ensures var body := Body(reqs, len, write, cmem) + rest;
            && Servable(body, |reqs|, write, len, |smem|)
            && Serve(body, |reqs|, write, len, smem).0 == ServedAll(reqs, len, write, cmem, smem)
            && Serve(body, |reqs|, write, len, smem).1 == ReplyOf(reqs, len, write, smem)
    decreases |reqs|
  {
    if reqs != [] {
      var r := reqs[0];
      var tail, smem' := Body(reqs[1..], len, write, cmem) + rest, Served(r, len, write, cmem, smem);
      Regroup(Entry(r, len, write, cmem), Body(reqs[1..], len, write, cmem), rest);
      ServeBody(reqs[1..], len, write, cmem, smem', rest);
      ServeEntry(r, |reqs|, len, write, cmem, smem, tail, Entry(r, len, write, cmem) + tail);
      if write { ReplyIgnoresMemory(reqs, len, smem, smem'); }
      assert ReplyOf(reqs, len, write, smem') == ReplyOf(reqs, len, write, smem);
    }
  }

  lemma {:induction false} ReplyIgnoresMemory(reqs: seq<Req>, len: Word, m: seq<Byte>, m': seq<Byte>)
    requires |m| == |m'| && forall i :: 0 <= i < |reqs| ==> reqs[i].server + len <= |m|
    ensures ReplyOf(reqs, len, true, m) == ReplyOf(reqs, len, true, m')
  {
    if reqs != [] { ReplyIgnoresMemory(reqs[1..], len, m, m'); }
  }

  // ---- The client's loop over a read reply ----

  ghost predicate ReplyFits(body: seq<Byte>, memSize: nat) {
    && 24 <= |body| && 24 + Number(body[16..24]) <= |body|
    && Number(body[8..16]) + Number(body[16..24]) <= memSize
  }

  ghost function Replies(body: seq<Byte>, memSize: nat): nat
    decreases |body|
  {
    if ReplyFits(body, memSize) then 1 + Replies(body[24 + Number(body[16..24])..], memSize) else 0
  }

  ghost predicate Scatterable(body: seq<Byte>, n: nat, memSize: nat) {
    n <= Replies(body, memSize)
  }

  ghost function AfterReply(body: seq<Byte>, cmem: seq<Byte>): (m: seq<Byte>)
    requires ReplyFits(body, |cmem|)
    ensures |m| == |cmem|
  {
    Splice(cmem, Number(body[8..16]), body[24..24 + Number(body[16..24])])
  }

  ghost function Scatter(body: seq<Byte>, n: nat, cmem: seq<Byte>): (r: seq<Byte>)
    requires Scatterable(body, n, |cmem|)
    ensures |r| == |cmem|
    decreases n
  {
    if n == 0 then cmem else Scatter(body[24 + Number(body[16..24])..], n - 1, AfterReply(body, cmem))
  }

  /** Client memory after one buffer has been filled. */
  function Received(r: Req, len: Word, cmem: seq<Byte>, smem: seq<Byte>): (m: seq<Byte>)
    requires r.server + len <= |smem| && r.client + len <= |cmem|
    ensures |m| == |cmem|
  {
    Splice(cmem, r.client, smem[r.server..r.server + len])
  }

  lemma ReplyParses(r: Req, len: Word, cmem: seq<Byte>, smem: seq<Byte>, tail: seq<Byte>, body: seq<Byte>)
    requires r.server + len <= |smem| && r.client + len <= |cmem| && body == ReplyEntry(r, len, false, smem) + tail
    ensures ReplyFits(body, |cmem|) && AfterReply(body, cmem) == Received(r, len, cmem, smem)
    ensures body[24 + Number(body[16..24])..] == tail
  {
    hide Header, Number, Splice;
    BlockDecodes(r, len, smem[r.server..r.server + len], tail, body);
  }

  lemma ScatterEntry(r: Req, n: nat, len: Word, cmem: seq<Byte>, smem: seq<Byte>, tail: seq<Byte>, body: seq<Byte>)
    requires r.server + len <= |smem| && r.client + len <= |cmem| && body == ReplyEntry(r, len, false, smem) + tail
    requires n >= 1 && Scatterable(tail, n - 1, |cmem|)
    ensures Scatterable(body, n, |cmem|)
    ensures Scatter(body, n, cmem) == Scatter(tail, n - 1, Received(r, len, cmem, smem))
  {
    ReplyParses(r, len, cmem, smem, tail, body);
  }

  /** Client memory once every buffer of the batch has been filled, in order. */
  ghost function Delivered(reqs: seq<Req>, len: Word, cmem: seq<Byte>, smem: seq<Byte>): (m: seq<Byte>)
    requires InRange(reqs, len, |smem|, |cmem|)
    ensures |m| == |cmem|
    decreases |reqs|
  {
    if reqs == [] then cmem else Delivered(reqs[1..], len, Received(reqs[0], len, cmem, smem), smem)
  }

  lemma {:induction false} DeliveredIsCopyAll(reqs: seq<Req>, len: Word, cmem: seq<Byte>, smem: seq<Byte>)
    requires InRange(reqs, len, |smem|, |cmem|)
    ensures Delivered(reqs, len, cmem, smem) == CopyAll(cmem, smem, ToClient(reqs), len)
    decreases |reqs|
  {
    if reqs != [] {
      var r := reqs[0];
      ServerMoves(reqs);
      DeliveredIsCopyAll(reqs[1..], len, Received(r, len, cmem, smem), smem);
    }
  }

  /** Delivering the reply copies the server's bytes into the client's buffers, in order. */
  lemma {:induction false} ScatterReply(reqs: seq<Req>, len: Word, cmem: seq<Byte>, smem: seq<Byte>, rest: seq<Byte>)
    requires InRange(reqs, len, |smem|, |cmem|)
    ensures var body := ReplyOf(reqs, len, false, smem) + rest;
            && Scatterable(body, |reqs|, |cmem|)
            && Scatter(body, |reqs|, cmem) == Delivered(reqs, len, cmem, smem)
    decreases |reqs|
  {
    if reqs != [] {
      hide Scatter, Replies, ReplyEntry, Header;
      var r := reqs[0];
      var tail := ReplyOf(reqs[1..], len, false, smem) + rest;
      Regroup(ReplyEntry(r, len, false, smem), ReplyOf(reqs[1..], len, false, smem), rest);
      ScatterReply(reqs[1..], len, Received(r, len, cmem, smem), smem, rest);
      ScatterEntry(r, |reqs|, len, cmem, smem, tail, ReplyEntry(r, len, false, smem) + tail);
    }
  }
}
