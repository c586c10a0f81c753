/** The loops of the two-sided batch protocols, over the buffers they fill. */
module BatchLoops {
  import opened Bytes
  import opened Copies
  import opened Modular
  import opened BatchCodec

  // ---- The client's encoding loop ----

  method PutEntry(buf: array<Byte>, at: nat, r: Req, len: Word, write: bool, cmem: array<Byte>) returns (end: nat)
    requires buf != cmem && r.client + len <= cmem.Length && at + 16 + DataSize(write, len) <= buf.Length
    modifies buf
    ensures end == at + 16 + DataSize(write, len) && buf[..] == Splice(old(buf[..]), at, Entry(r, len, write, cmem[..]))
  {
    hide Enc, Splice;
    ghost var was := buf[..];
    Copy(buf, at, Enc(r.server));
    Copy(buf, at + 8, Enc(len));
    SpliceJoin(was, at, Enc(r.server), Enc(len));
    end := CopyIf(buf, at + 16, write, cmem, r.client, len);
    SpliceJoin(was, at, Enc(r.server) + Enc(len), Data(r, len, write, cmem[..]));
  }

  lemma BodyFrom(reqs: seq<Req>, i: nat, len: Word, write: bool, cmem: seq<Byte>)
    requires i <= |reqs| && ClientFits(reqs, len, |cmem|)
    ensures i == |reqs| ==> Body(reqs[i..], len, write, cmem) == []
    ensures i < |reqs| ==>
              Body(reqs[i..], len, write, cmem)
                  == Entry(reqs[i], len, write, cmem) + Body(reqs[i + 1..], len, write, cmem)
  {
    if i < |reqs| { assert reqs[i..][0] == reqs[i] && reqs[i..][1..] == reqs[i + 1..]; }
  }

  method PutBody(buf: array<Byte>, at: nat, reqs: seq<Req>, len: Word, write: bool, cmem: array<Byte>)
    requires buf != cmem && ClientFits(reqs, len, cmem.Length) && at + |Body(reqs, len, write, cmem[..])| <= buf.Length
    modifies buf
    ensures buf[..] == Splice(old(buf[..]), at, Body(reqs, len, write, cmem[..]))
  {
    hide Body, Entry, Splice;
    ghost var was, m := buf[..], cmem[..];
    ghost var all, done, left := Body(reqs, len, write, m), [], Body(reqs, len, write, m);
    assert reqs[0..] == reqs && [] + all == all;
    SpliceNothing(was, at);
    var i, p := 0, at;
    while i < |reqs|
      invariant 0 <= i <= |reqs| && cmem[..] == m && p == at + |done|
      invariant left == Body(reqs[i..], len, write, m) && done + left == all
      invariant buf[..] == Splice(was, at, done)
    {
      ghost var entry, tail := Entry(reqs[i], len, write, m), Body(reqs[i + 1..], len, write, m);
      BodyFrom(reqs, i, len, write, m);
      Regroup(done, entry, tail);
      p := PutEntry(buf, p, reqs[i], len, write, cmem);
      SpliceJoin(was, at, done, entry);
      done, left := done + entry, tail;
      i := i + 1;
    }
    BodyFrom(reqs, i, len, write, m);
    assert done + [] == done;
  }

  /** amper_DaRPC_work_handler and amper_FaSST_work_handler: the message data, in a buffer of exactly its size. */
  method BuildRequest(buf: array<Byte>, c: Call, cmem: array<Byte>)
    requires buf != cmem && 1 <= |c.reqs| < 128 && ClientFits(c.reqs, c.len, cmem.Length)
    requires buf.Length == 24 + 2 + |c.reqs| * (16 + DataSize(c.write, c.len))
    modifies buf
    ensures buf[..] == Request(c, cmem[..])
  {
    RequestLength(c, cmem[..]);
    hide Info, Body, Splice;
    ghost var was, body := buf[..], Body(c.reqs, c.len, c.write, cmem[..]);
    var flags: seq<Byte> := [|c.reqs|, if c.write then 1 else 0];
    Copy(buf, 0, Info(c));
    Copy(buf, 24, flags);
    SpliceJoin(was, 0, Info(c), flags);
    PutBody(buf, 26, c.reqs, c.len, c.write, cmem);
    SpliceJoin(was, 0, Info(c) + flags, body);
    SpliceAll(was, Info(c) + flags + body);
  }

  lemma SpliceAll(m: seq<Byte>, d: seq<Byte>)
    requires |m| == |d|
    ensures Splice(m, 0, d) == d
  {}

  // ---- The server's loop ----

  /** The items performed in order, `out` being what was fetched before. */
  ghost function PerformOn(items: seq<Item>, write: bool, mem: seq<Byte>, out: seq<Byte>): (r: (seq<Byte>, seq<Byte>))
    requires InMemory(items, write, |mem|)
    ensures |out| <= |r.1|
    decreases |items|
  {
    if items == [] then (mem, out)
    else
      var mem' := Stored(items[0], write, mem);
      PerformOn(items[1..], write, mem', out + Fetched(items[0], write, mem'))
  }

  lemma {:induction false} PerformOnIsPerform(items: seq<Item>, write: bool, mem: seq<Byte>, out: seq<Byte>)
    requires InMemory(items, write, |mem|)
    ensures PerformOn(items, write, mem, out).0 == Perform(items, write, mem).0
    ensures PerformOn(items, write, mem, out).1 == out + Perform(items, write, mem).1
    decreases |items|
  {
    if items == [] {
      assert out + [] == out;
    } else {
      var mem' := Stored(items[0], write, mem);
      var block := Fetched(items[0], write, mem');
      PerformOnIsPerform(items[1..], write, mem', out + block);
      Regroup(out, block, Perform(items[1..], write, mem').1);
    }
  }

  method ServeOne(data: array<Byte>, p: nat, write: bool, mem: array<Byte>, resp: array<Byte>,
      q: nat) returns (p': nat, q': nat)
    requires data != mem && data != resp && mem != resp && p <= data.Length && Whole(data[p..], write)
    requires First(data[p..], write).server + First(data[p..], write).size <= mem.Length
    requires q + DataSize(!write, First(data[p..], write).size) <= resp.Length
    modifies mem, resp
    ensures p' <= data.Length && data[p'..] == After(old(data[p..]), write)
    ensures mem[..] == Stored(First(old(data[p..]), write), write, old(mem[..]))
    ensures resp[..] == Splice(old(resp[..]), q, Fetched(First(old(data[p..]), write), write, mem[..]))
    ensures q' == q + |Fetched(First(old(data[p..]), write), write, mem[..])|
  {
    hide Number, Splice;
    ghost var rest := data[p..];
    assert rest[..8] == data[p..p + 8] && rest[8..16] == data[p + 8..p + 16];
    var server, size := Number(data[p..p + 8]), Number(data[p + 8..p + 16]);
    p' := p + 16;
    q' := q;
    if write {
      assert rest[16..16 + size] == data[p'..p' + size];
      Copy(mem, server, data[p'..p' + size]);
      p' := p' + size;
      SpliceNothing(resp[..], q);
    } else {
      assert mem[server..server + size] == mem[..][server..server + size];
      Copy(resp, q, mem[server..server + size]);
      q' := q + size;
    }
  }

  lemma ServeOnce(rest: seq<Byte>, k: nat, write: bool, items: seq<Item>, mem: seq<Byte>, out: seq<Byte>)
    returns (mem': seq<Byte>, block: seq<Byte>)
    requires k > 0 && items == Decode(rest, k, write) && |items| == k && InMemory(items, write, |mem|)
    ensures Whole(rest, write) && items[0] == First(rest, write)
        && items[1..] == Decode(After(rest, write), k - 1, write)
    ensures items[0].server + items[0].size <= |mem| && mem' == Stored(items[0], write, mem)
        && block == Fetched(items[0], write, mem')
    ensures InMemory(items[1..], write, |mem'|) && |block| == DataSize(!write, items[0].size)
    ensures PerformOn(items[1..], write, mem', out + block) == PerformOn(items, write, mem, out)
  {
    mem' := Stored(items[0], write, mem);
    block := Fetched(items[0], write, mem');
  }

  lemma ServeNone(write: bool, mem: seq<Byte>, out: seq<Byte>)
    ensures PerformOn([], write, mem, out) == (mem, out)
  {}

  /** The handlers' loop: items from `from` on, blocks of a read into the response from `at` on. */
  method ServeItems(data: array<Byte>, from: nat, n: nat, write: bool, mem: array<Byte>, resp: array<Byte>, at: nat)
    requires data != mem && data != resp && mem != resp && from <= data.Length
    requires |Decode(data[from..], n, write)| == n && InMemory(Decode(data[from..], n, write), write, mem.Length)
    requires at + |PerformOn(Decode(data[from..], n, write), write, mem[..], []).1| <= resp.Length
    modifies mem, resp
    ensures mem[..] == PerformOn(Decode(old(data[from..]), n, write), write, old(mem[..]), []).0
    ensures resp[..] == Splice(old(resp[..]), at,
        PerformOn(Decode(old(data[from..]), n, write), write, old(mem[..]), []).1)
  {
    hide Decode, PerformOn, First, After, Stored, Fetched, Whole, Splice;
    ghost var rest, was, m := data[from..], resp[..], mem[..];
    ghost var items, out: seq<Byte> := Decode(rest, n, write), [];
    ghost var all := PerformOn(items, write, m, out);
    SpliceNothing(was, at);
    var i, p, q := 0, from, at;
    while i < n
      invariant 0 <= i <= n && p <= data.Length && data[p..] == rest && q == at + |out|
      invariant items == Decode(rest, n - i, write) && |items| == n - i
      invariant m == mem[..] && InMemory(items, write, |m|) && PerformOn(items, write, m, out) == all
      invariant resp[..] == Splice(was, at, out)
    {
      ghost var m', block := ServeOnce(rest, n - i, write, items, m, out);
      p, q := ServeOne(data, p, write, mem, resp, q);
      SpliceJoin(was, at, out, block);
      rest, items, m, out := data[p..], items[1..], m', out + block;
      i := i + 1;
    }
    assert items == [];
    ServeNone(write, m, out);
  }

  /** amper_DaRPC_request_handler and amper_UD_request_handler, on a message whose blocks fit the
      response allocated from the first entry's size. */
  method HandleMessage(data: array<Byte>, mem: array<Byte>) returns (resp: array<Byte>)
    requires data != mem && Servable(data[..], mem.Length) && 26 + 16 <= data.Length
    requires |Handle(data[..], mem[..]).1| == ResponseSize(data[..])
    modifies mem
    ensures fresh(resp) && mem[..] == Handle(old(data[..]), old(mem[..])).0
        && resp[..] == Handle(old(data[..]), old(mem[..])).1
  {
    hide Decode, Perform, PerformOn, Number, Digits, Splice, InMemory;
    var n, write, size := data[24] as nat, data[25] == 1, Number(data[34..42]);
    assert data[..][34..42] == data[34..42] && data[..][26..] == data[26..] && data[..][..24] == data[..24];
    ghost var items, m, answer := Decode(data[26..], n, write), mem[..], Handle(data[..], mem[..]).1;
    ghost var blocks := Perform(items, write, m).1;
    resp := new Byte[32 + if data[25] == 0 then n * size else 0];
    ghost var was := resp[..];
    var head: seq<Byte> := data[..24] + Digits(data[25], 4) + Digits(n, 4);
    Copy(resp, 0, head);
    PerformOnIsPerform(items, write, m, []);
    assert [] + blocks == blocks && head + blocks == answer;
    ServeItems(data, 26, n, write, mem, resp, 32);
    SpliceJoin(was, 0, head, blocks);
    SpliceAll(was, answer);
  }

  // ---- The client's loop over a read response ----

  lemma DeliverOnce(body: seq<Byte>, addrs: seq<Word>, size: nat, cmem: seq<Byte>)
    requires |addrs| * size <= |body| && forall i :: 0 <= i < |addrs| ==> addrs[i] + size <= |cmem|
    ensures addrs == [] ==> Deliver(body, addrs, size, cmem) == cmem
    ensures addrs != [] ==>
              && size <= |body| && |addrs[1..]| * size <= |body[size..]|
              && Deliver(body, addrs, size, cmem)
                  == Deliver(body[size..], addrs[1..], size, Splice(cmem, addrs[0], body[..size]))
  {
    hide Splice;
    if addrs != [] {
      MulStep(|addrs|, size);
      MulMono(0, |addrs| - 1, size);
    }
  }

  /** The response handlers' loop, from `from` on. */
  method DeliverAll(data: array<Byte>, from: nat, addrs: seq<Word>, size: nat, cmem: array<Byte>)
    requires data != cmem && from <= data.Length && |addrs| * size <= |data[from..]|
    requires forall i :: 0 <= i < |addrs| ==> addrs[i] + size <= cmem.Length
    modifies cmem
    ensures cmem[..] == Deliver(old(data[from..]), addrs, size, old(cmem[..]))
  {
    hide Deliver, Splice;
    ghost var rest, left, final := data[from..], addrs, Deliver(data[from..], addrs, size, cmem[..]);
    var i, p := 0, from;
    while i < |addrs|
      invariant 0 <= i <= |addrs| && p <= data.Length && data[p..] == rest && left == addrs[i..]
      invariant |left| * size <= |rest| && Deliver(rest, left, size, cmem[..]) == final
    {
      DeliverOnce(rest, left, size, cmem[..]);
      assert rest[..size] == data[p..p + size] && rest[size..] == data[p + size..];
      Copy(cmem, addrs[i], data[p..p + size]);
      rest, left := rest[size..], left[1..];
      p := p + size;
      i := i + 1;
    }
    DeliverOnce(rest, left, size, cmem[..]);
  }
}
