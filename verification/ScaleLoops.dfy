/** The loops of scaleRPC, over the buffers they fill. */
module ScaleLoops {
  import opened Bytes
  import opened Copies
  import opened ScaleRpc
  import opened ScaleExchange

  method PutEntry(buf: array<Byte>, at: nat, r: Req, len: Word, write: bool, cmem: array<Byte>) returns (end: nat)
    requires buf != cmem && r.client + len <= cmem.Length && at + Stride(write, len) <= buf.Length
    modifies buf
    ensures end == at + Stride(write, len) && buf[..] == Splice(old(buf[..]), at, Entry(r, len, write, cmem[..]))
  {
    hide Header, Splice;
    ghost var was := buf[..];
    Copy(buf, at, Header(r, len));
    end := CopyIf(buf, at + 24, write, cmem, r.client, len);
    SpliceJoin(was, at, Header(r, len), if write then cmem[..][r.client..r.client + len] else []);
  }

  lemma BodyFrom(reqs: seq<Req>, i: nat, len: Word, write: bool, cmem: seq<Byte>)
    requires i < |reqs| && ClientFits(reqs, len, |cmem|)
    ensures Body(reqs[i..], len, write, cmem)
        == Entry(reqs[i], len, write, cmem) + Body(reqs[i + 1..], len, write, cmem)
  {
    assert reqs[i..][0] == reqs[i] && reqs[i..][1..] == reqs[i + 1..];
  }

  lemma NoBody(reqs: seq<Req>, len: Word, write: bool, cmem: seq<Byte>)
    requires reqs == []
    ensures Body(reqs, len, write, cmem) == []
  {}

  /** model_7_scalable's encoding loop, at `at` in a buffer. */
  method EncodeBatch(buf: array<Byte>, at: nat, reqs: seq<Req>, len: Word, write: bool, cmem: array<Byte>)
    requires buf != cmem && ClientFits(reqs, len, cmem.Length)
    requires at + |Body(reqs, len, write, cmem[..])| <= buf.Length
    modifies buf
    ensures buf[..] == Splice(old(buf[..]), at, Body(reqs, len, write, cmem[..]))
  {
    hide Body, Entry, Header, Splice;
    ghost var was, m := buf[..], cmem[..];
    ghost var all, done, left := Body(reqs, len, write, m), [], Body(reqs, len, write, m);
    assert reqs[0..] == reqs && [] + all == all;
    SpliceNothing(was, at);
    var i, p := 0, at;
    while i < |reqs|
      invariant 0 <= i <= |reqs| && cmem[..] == m && p == at + |done|
      invariant left == Body(reqs[i..], len, write, m) && done + left == all
      invariant buf[..] == Splice(was, at, done)
    {
      ghost var entry, tail := Entry(reqs[i], len, write, m), Body(reqs[i + 1..], len, write, m);
      BodyFrom(reqs, i, len, write, m);
      Regroup(done, entry, tail);
      p := PutEntry(buf, p, reqs[i], len, write, cmem);
      SpliceJoin(was, at, done, entry);
      done, left := done + entry, tail;
      i := i + 1;
    }
    NoBody(reqs[i..], len, write, m);
    assert done + [] == done;
  }

  /** model_7_scalable, direct form: the batch and its trailer, and what to send. */
  method PostDirect(creq: array<Byte>, reqs: seq<Req>, len: Word, write: bool, cmem: array<Byte>)
    returns (offset: nat, count: nat)
    requires creq != cmem && 1 <= |reqs| < 128 && ClientFits(reqs, len, cmem.Length)
    requires creq.Length == (30 + len) * |reqs|
    modifies creq
    ensures offset == RequestAt(write, |reqs|, len) && count == |DirectRequest(reqs, len, write, cmem[..])|
    ensures offset + count <= creq.Length
    ensures creq[..] == Splice(old(creq[..]), offset, DirectRequest(reqs, len, write, cmem[..]))
  {
    var n := |reqs|;
    Sizes(n, len);
    BodyLength(reqs, len, write, cmem[..]);
    ghost var was := creq[..];
    offset := RequestAt(write, n, len);
    var bodySize := if write then n * (len + 24) else n * 24;
    EncodeBatch(creq, offset, reqs, len, write, cmem);
    Copy(creq, offset + bodySize, Trailer(2, n, write));
    SpliceJoin(was, offset, Body(reqs, len, write, cmem[..]), Trailer(2, n, write));
    count := bodySize + 4;
  }

  method ServeOne(body: array<Byte>, p: nat, write: bool, size: Word, mem: array<Byte>, sdata: array<Byte>, q: nat)
    returns (p': nat, q': nat)
    requires body != mem && body != sdata && mem != sdata && p <= body.Length
    requires EntryFits(body[p..], write, size, mem.Length) && q + Stride(!write, size) <= sdata.Length
    modifies mem, sdata
    ensures p' == p + Stride(write, size) && q' == q + Stride(!write, size)
    ensures mem[..] == AfterEntry(old(body[p..]), write, size, old(mem[..]))
    ensures sdata[..] == Splice(old(sdata[..]), q, FirstReply(old(body[p..]), write, size, old(mem[..])))
  {
    hide Header, Splice, Number;
    ghost var rest, was := body[p..], sdata[..];
    assert rest[..8] == body[p..p + 8] && rest[8..16] == body[p + 8..p + 16];
    var server, client := Number(body[p..p + 8]), Number(body[p + 8..p + 16]);
    p' := p + 24;
    if write {
      assert rest[24..24 + size] == body[p'..p' + size];
      Copy(mem, server, body[p'..p' + size]);
      p' := p' + size;
    }
    var header := Header(Req(server, client), size);
    Copy(sdata, q, header);
    q' := CopyIf(sdata, q + 24, !write, mem, server, size);
    SpliceJoin(was, q, header, if write then [] else mem[..][server..server + size]);
  }

  /** The server's loop on the bytes `rest`, `out` being the reply so far. */
  ghost function ServeOn(rest: seq<Byte>, k: nat, write: bool, size: Word, mem: seq<Byte>, out: seq<Byte>)
    : (r: (seq<Byte>, seq<Byte>))
    requires Servable(rest, k, write, size, |mem|)
    ensures |out| <= |r.1|
    decreases k
  {
    if k == 0 then (mem, out)
    else
      ServeOn(rest[Stride(write, size)..], k - 1, write, size, AfterEntry(rest, write, size, mem),
              out + FirstReply(rest, write, size, mem))
  }

  lemma {:induction false} ServeOnIsServe(rest: seq<Byte>, k: nat, write: bool, size: Word, mem: seq<Byte>,
      out: seq<Byte>)
    requires Servable(rest, k, write, size, |mem|)
    ensures ServeOn(rest, k, write, size, mem, out).0 == Serve(rest, k, write, size, mem).0
    ensures ServeOn(rest, k, write, size, mem, out).1 == out + Serve(rest, k, write, size, mem).1
    decreases k
  {
    if k == 0 {
      assert out + [] == out;
    } else {
      var rest', mem', entry := rest[Stride(write, size)..], AfterEntry(rest, write, size, mem),
          FirstReply(rest, write, size, mem);
      ServeOnIsServe(rest', k - 1, write, size, mem', out + entry);
      Regroup(out, entry, Serve(rest', k - 1, write, size, mem').1);
    }
  }

  lemma ServeNone(rest: seq<Byte>, write: bool, size: Word, mem: seq<Byte>, out: seq<Byte>)
    ensures ServeOn(rest, 0, write, size, mem, out) == (mem, out)
  {}

  lemma ServeOnce(rest: seq<Byte>, k: nat, write: bool, size: Word, mem: seq<Byte>, out: seq<Byte>)
    returns (mem': seq<Byte>, entry: seq<Byte>, rest': seq<Byte>)
    requires k > 0 && Servable(rest, k, write, size, |mem|)
    ensures EntryFits(rest, write, size, |mem|) && rest' == rest[Stride(write, size)..]
        && Servable(rest', k - 1, write, size, |mem|)
    ensures mem' == AfterEntry(rest, write, size, mem) && entry == FirstReply(rest, write, size, mem)
    ensures ServeOn(rest', k - 1, write, size, mem', out + entry) == ServeOn(rest, k, write, size, mem, out)
  {
    mem', entry, rest' := AfterEntry(rest, write, size, mem), FirstReply(rest, write, size, mem),
        rest[Stride(write, size)..];
  }

  /** amper_scalable_request_handler's loop, parsing `body` from `from` on and filling the reply at `at`. */
  method ServeEntries(body: array<Byte>, from: nat, n: nat, write: bool, size: Word, mem: array<Byte>,
      sdata: array<Byte>, at: nat)
    returns (end: nat)
    requires body != mem && body != sdata && mem != sdata && from <= body.Length
    requires Servable(body[from..], n, write, size, mem.Length)
    requires at + |ServeOn(body[from..], n, write, size, mem[..], []).1| <= sdata.Length
    modifies mem, sdata
    ensures end == at + |ServeOn(old(body[from..]), n, write, size, old(mem[..]), []).1|
    ensures mem[..] == ServeOn(old(body[from..]), n, write, size, old(mem[..]), []).0
    ensures sdata[..] == Splice(old(sdata[..]), at, ServeOn(old(body[from..]), n, write, size, old(mem[..]), []).1)
  {
    hide Serve, ServeOn, FirstReply, AfterEntry, Splice, Servable;
    ghost var rest, was, m := body[from..], sdata[..], mem[..];
    ghost var reply: seq<Byte> := [];
    ghost var all := ServeOn(rest, n, write, size, m, reply);
    SpliceNothing(was, at);
    var i, p := 0, from;
    end := at;
    while i < n
      invariant 0 <= i <= n && from <= p <= body.Length && body[p..] == rest && end == at + |reply|
      invariant m == mem[..] && Servable(rest, n - i, write, size, |m|)
      invariant ServeOn(rest, n - i, write, size, m, reply) == all
      invariant sdata[..] == Splice(was, at, reply)
    {
      ghost var m', entry, rest' := ServeOnce(rest, n - i, write, size, m, reply);
      Slices(body[..], p, Stride(write, size));
      p, end := ServeOne(body, p, write, size, mem, sdata, end);
      SpliceJoin(was, at, reply, entry);
      m, rest, reply := m', rest', reply + entry;
      i := i + 1;
    }
    ServeNone(rest, write, size, m, reply);
  }

  /** The handler: the entries in order, then the valid byte behind the reply. */
  method ServeBatch(body: array<Byte>, from: nat, n: nat, write: bool, size: Word, mem: array<Byte>,
      sdata: array<Byte>, at: nat)
    requires body != mem && body != sdata && mem != sdata && from <= body.Length
    requires Servable(body[from..], n, write, size, mem.Length)
    requires at + |Serve(body[from..], n, write, size, mem[..]).1| + 1 <= sdata.Length
    modifies mem, sdata
    ensures mem[..] == Serve(old(body[from..]), n, write, size, old(mem[..])).0
    ensures sdata[..] == Splice(old(sdata[..]), at, Serve(old(body[from..]), n, write, size, old(mem[..])).1 + [1])
  {
    ghost var was, answer := sdata[..], Serve(body[from..], n, write, size, mem[..]).1;
    ServeOnIsServe(body[from..], n, write, size, mem[..], []);
    assert [] + answer == answer;
    var end := ServeEntries(body, from, n, write, size, mem, sdata, at);
    Copy(sdata, end, [1]);
    SpliceJoin(was, at, answer, [1]);
  }

  method DeliverOne(cdata: array<Byte>, p: nat, cmem: array<Byte>) returns (p': nat)
    requires cdata != cmem && p <= cdata.Length && ReplyFits(cdata[p..], cmem.Length)
    modifies cmem
    ensures p' == p + 24 + Number(cdata[p..][16..24]) && cmem[..] == AfterReply(cdata[p..], old(cmem[..]))
  {
    hide Splice, Number;
    ghost var rest := cdata[p..];
    assert rest[8..16] == cdata[p + 8..p + 16] && rest[16..24] == cdata[p + 16..p + 24];
    var client, size := Number(cdata[p + 8..p + 16]), Number(cdata[p + 16..p + 24]);
    p' := p + 24;
    assert rest[24..24 + size] == cdata[p'..p' + size];
    Copy(cmem, client, cdata[p'..p' + size]);
    p' := p' + size;
  }

  /** amper_scalable_work_handler's loop over the reply of a read. */
  method Deliver(cdata: array<Byte>, n: nat, cmem: array<Byte>)
    requires cdata != cmem && Scatterable(cdata[..], n, cmem.Length)
    modifies cmem
    ensures cmem[..] == Scatter(old(cdata[..]), n, old(cmem[..]))
  {
    hide AfterReply, Number;
    ghost var bytes, final := cdata[..], Scatter(cdata[..], n, cmem[..]);
    assert cdata[0..] == bytes;
    var i, p := 0, 0;
    while i < n
      invariant 0 <= i <= n && 0 <= p <= cdata.Length && cdata[..] == bytes
      invariant Scatterable(cdata[p..], n - i, cmem.Length)
      invariant Scatter(cdata[p..], n - i, cmem[..]) == final
    {
      ghost var next := p + 24 + Number(cdata[p..][16..24]);
      assert cdata[p..][24 + Number(cdata[p..][16..24])..] == cdata[next..];
      p := DeliverOne(cdata, p, cmem);
      i := i + 1;
    }
  }
}
