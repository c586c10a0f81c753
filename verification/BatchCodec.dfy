/** The two-sided batch protocols (DaRPC and UD, which share one format): a batch as one message, the
    server's handler, the response, and the framing of both. */
module BatchCodec {
  import opened Bytes
  import opened Copies
  import opened Modular

  // ---- Framing: a four-byte type, the size of the data, the data ----

  type Kind = x: int | 0 <= x < 0x1_0000_0000

  function Frame(kind: Kind, data: seq<Byte>): seq<Byte>
    requires |data| < WORD
  {
    Digits(kind, 4) + Enc(|data|) + data
  }

  function KindOf(msg: seq<Byte>): nat
    requires 12 <= |msg|
  {
    Number(msg[..4])
  }

  function SizeOf(msg: seq<Byte>): nat
    requires 12 <= |msg|
  {
    Number(msg[4..12])
  }

  /** What the handler is given: the bytes after the frame, to the end of the receive buffer. */
  function DataOf(msg: seq<Byte>): seq<Byte>
    requires 12 <= |msg|
  {
    msg[12..]
  }

  lemma KindFits(kind: Kind)
    ensures Number(Digits(kind, 4)) == kind
  {
    assert Power(4) == 0x1_0000_0000;
    NumberOfDigits(kind, 4);
  }

  /** Whatever bytes follow the message in the receive buffer, type, size and data are read back. */
  lemma FrameReads(kind: Kind, data: seq<Byte>, stale: seq<Byte>)
    requires |data| < WORD
    ensures var msg := Frame(kind, data) + stale;
            KindOf(msg) == kind && SizeOf(msg) == |data| && DataOf(msg) == data + stale && DataOf(msg)[..|data|] == data
  {
    var msg := Frame(kind, data) + stale;
    KindFits(kind);
    hide Digits, Number, Power;
    assert msg[..4] == Digits(kind, 4);
    assert msg[4..12] == Enc(|data|);
  }

  // ---- The client's encoding ----

  /** A batch as the caller hands it over: `table` and `work` are the addresses of the caller's list
      of local buffers and of its work record, which the server sends back untouched. */
  datatype Call = Call(reqs: seq<Req>, len: Word, write: bool, table: Word, work: Word)

  function DataSize(write: bool, len: nat): nat { if write then len else 0 }

  function Data(r: Req, len: Word, write: bool, cmem: seq<Byte>): (d: seq<Byte>)
    requires r.client + len <= |cmem|
    ensures |d| == DataSize(write, len)
  {
    if write then cmem[r.client..r.client + len] else []
  }

  function Entry(r: Req, len: Word, write: bool, cmem: seq<Byte>): (d: seq<Byte>)
    requires r.client + len <= |cmem|
    ensures |d| == 16 + DataSize(write, len)
  {
    Enc(r.server) + Enc(len) + Data(r, len, write, cmem)
  }

  ghost function Body(reqs: seq<Req>, len: Word, write: bool, cmem: seq<Byte>): seq<Byte>
    requires ClientFits(reqs, len, |cmem|)
  {
    if reqs == [] then [] else Entry(reqs[0], len, write, cmem) + Body(reqs[1..], len, write, cmem)
  }

  function Info(c: Call): (d: seq<Byte>)
    ensures |d| == 24
  {
    Enc(c.len) + Enc(c.table) + Enc(c.work)
  }

  ghost function Request(c: Call, cmem: seq<Byte>): seq<Byte>
    requires 1 <= |c.reqs| < 128 && ClientFits(c.reqs, c.len, |cmem|)
  {
    Info(c) + [|c.reqs|, if c.write then 1 else 0] + Body(c.reqs, c.len, c.write, cmem)
  }

  /** The size the client allocates and announces. */
  lemma RequestLength(c: Call, cmem: seq<Byte>)
    requires 1 <= |c.reqs| < 128 && ClientFits(c.reqs, c.len, |cmem|)
    ensures |Request(c, cmem)| == 24 + 2 + |c.reqs| * (16 + DataSize(c.write, c.len))
  {
    BodyLength(c.reqs, c.len, c.write, cmem);
  }

  lemma {:induction false} BodyLength(reqs: seq<Req>, len: Word, write: bool, cmem: seq<Byte>)
    requires ClientFits(reqs, len, |cmem|)
    ensures |Body(reqs, len, write, cmem)| == |reqs| * (16 + DataSize(write, len))
  {
    if reqs != [] {
      BodyLength(reqs[1..], len, write, cmem);
      MulStep(|reqs|, 16 + DataSize(write, len));
    }
  }

  // ---- Decoding ----

  datatype Item = Item(server: nat, size: nat, data: seq<Byte>)

  ghost predicate Whole(ctx: seq<Byte>, write: bool) {
    16 <= |ctx| && 16 + DataSize(write, Number(ctx[8..16])) <= |ctx|
  }

  function First(ctx: seq<Byte>, write: bool): Item
    requires Whole(ctx, write)
  {
    Item(Number(ctx[..8]), Number(ctx[8..16]), ctx[16..16 + DataSize(write, Number(ctx[8..16]))])
  }

  function After(ctx: seq<Byte>, write: bool): seq<Byte>
    requires Whole(ctx, write)
  {
    ctx[16 + DataSize(write, Number(ctx[8..16]))..]
  }

  /** Up to `n` items from the front of the bytes, as many as are whole. */
  ghost function Decode(ctx: seq<Byte>, n: nat, write: bool): (items: seq<Item>)
    ensures |items| <= n
  {
    if n == 0 || !Whole(ctx, write) then [] else [First(ctx, write)] + Decode(After(ctx, write), n - 1, write)
  }

  function ItemOf(r: Req, len: Word, write: bool, cmem: seq<Byte>): Item
    requires r.client + len <= |cmem|
  {
    Item(r.server, len, Data(r, len, write, cmem))
  }

  ghost function ItemsOf(reqs: seq<Req>, len: Word, write: bool, cmem: seq<Byte>): (items: seq<Item>)
    requires ClientFits(reqs, len, |cmem|)
    ensures |items| == |reqs|
  {
    if reqs == [] then [] else [ItemOf(reqs[0], len, write, cmem)] + ItemsOf(reqs[1..], len, write, cmem)
  }

  lemma EntryDecodes(r: Req, len: Word, write: bool, cmem: seq<Byte>, tail: seq<Byte>, ctx: seq<Byte>)
    requires r.client + len <= |cmem| && ctx == Entry(r, len, write, cmem) + tail
    ensures Whole(ctx, write) && First(ctx, write) == ItemOf(r, len, write, cmem) && After(ctx, write) == tail
  {
    var data := Data(r, len, write, cmem);
    assert ctx[..8] == Enc(r.server);
    assert ctx[8..16] == Enc(len);
    assert ctx[16..16 + |data|] == data;
  }

  /** Decoding an encoded batch gives back its addresses, sizes and data, whatever follows it. */
  lemma {:induction false} DecodeBody(reqs: seq<Req>, len: Word, write: bool, cmem: seq<Byte>, stale: seq<Byte>)
    requires ClientFits(reqs, len, |cmem|)
    ensures Decode(Body(reqs, len, write, cmem) + stale, |reqs|, write) == ItemsOf(reqs, len, write, cmem)
  {
    if reqs != [] {
      var entry, rest := Entry(reqs[0], len, write, cmem), Body(reqs[1..], len, write, cmem);
      Regroup(entry, rest, stale);
      EntryDecodes(reqs[0], len, write, cmem, rest + stale, entry + (rest + stale));
      DecodeBody(reqs[1..], len, write, cmem, stale);
    }
  }

  // ---- The server's handler ----

  ghost predicate InMemory(items: seq<Item>, write: bool, memSize: nat) {
    forall i :: 0 <= i < |items| ==>
      items[i].server + items[i].size <= memSize && |items[i].data| == DataSize(write, items[i].size)
  }

  function Stored(item: Item, write: bool, smem: seq<Byte>): (m: seq<Byte>)
    requires item.server + item.size <= |smem| && |item.data| == DataSize(write, item.size)
    ensures |m| == |smem|
  {
    if write then Splice(smem, item.server, item.data) else smem
  }

  function Fetched(item: Item, write: bool, smem: seq<Byte>): seq<Byte>
    requires item.server + item.size <= |smem|
  {
    if write then [] else smem[item.server..item.server + item.size]
  }

  /** The items performed in order: memory after them, and the data a read sends back. */
  ghost function Perform(items: seq<Item>, write: bool, smem: seq<Byte>): (r: (seq<Byte>, seq<Byte>))
    requires InMemory(items, write, |smem|)
    ensures |r.0| == |smem|
    decreases |items|
  {
    if items == [] then (smem, [])
    else
      var smem' := Stored(items[0], write, smem);
      var (final, rest) := Perform(items[1..], write, smem');
      (final, Fetched(items[0], write, smem') + rest)
  }

  /** The bytes a batch of reads brings back. */
  ghost function Blocks(reqs: seq<Req>, len: Word, smem: seq<Byte>): seq<Byte>
    requires forall i :: 0 <= i < |reqs| ==> reqs[i].server + len <= |smem|
  {
    if reqs == [] then [] else smem[reqs[0].server..reqs[0].server + len] + Blocks(reqs[1..], len, smem)
  }

  lemma {:induction false} BlocksLength(reqs: seq<Req>, len: Word, smem: seq<Byte>)
    requires forall i :: 0 <= i < |reqs| ==> reqs[i].server + len <= |smem|
    ensures |Blocks(reqs, len, smem)| == |reqs| * len
  {
    if reqs != [] {
      BlocksLength(reqs[1..], len, smem);
      MulStep(|reqs|, len);
    }
  }

  lemma {:induction false} ItemsInMemory(reqs: seq<Req>, len: Word, write: bool, cmem: seq<Byte>, memSize: nat)
    requires InRange(reqs, len, memSize, |cmem|)
    ensures InMemory(ItemsOf(reqs, len, write, cmem), write, memSize)
  {
    if reqs != [] { ItemsInMemory(reqs[1..], len, write, cmem, memSize); }
  }

  lemma ItemsFirst(reqs: seq<Req>, len: Word, write: bool, cmem: seq<Byte>)
    requires ClientFits(reqs, len, |cmem|) && reqs != []
    ensures ItemsOf(reqs, len, write, cmem)[0] == ItemOf(reqs[0], len, write, cmem)
    ensures ItemsOf(reqs, len, write, cmem)[1..] == ItemsOf(reqs[1..], len, write, cmem)
  {}

  lemma PerformStep(items: seq<Item>, write: bool, smem: seq<Byte>)
    requires InMemory(items, write, |smem|) && items != []
    ensures InMemory(items[1..], write, |smem|)
    ensures var item, rest := items[0], items[1..];
            Perform(items, write, smem)
            == (Perform(rest, write, Stored(item, write, smem)).0,
                Fetched(item, write, Stored(item, write, smem)) + Perform(rest, write, Stored(item, write, smem)).1)
  {
    hide Stored, Fetched;
  }

  lemma PerformFirst(reqs: seq<Req>, len: Word, write: bool, cmem: seq<Byte>, smem: seq<Byte>)
    requires InRange(reqs, len, |smem|, |cmem|) && reqs != []
    requires InMemory(ItemsOf(reqs, len, write, cmem), write, |smem|)
    ensures InRange(reqs[1..], len, |smem|, |cmem|) && InMemory(ItemsOf(reqs[1..], len, write, cmem), write, |smem|)
    ensures var item, rest := ItemOf(reqs[0], len, write, cmem), ItemsOf(reqs[1..], len, write, cmem);
            Perform(ItemsOf(reqs, len, write, cmem), write, smem)
            == (Perform(rest, write, Stored(item, write, smem)).0,
                Fetched(item, write, Stored(item, write, smem)) + Perform(rest, write, Stored(item, write, smem)).1)
  {
    hide Stored, Fetched, Perform, InMemory, ItemOf, ItemsOf;
    ItemsFirst(reqs, len, write, cmem);
    PerformStep(ItemsOf(reqs, len, write, cmem), write, smem);
  }

  lemma FirstCopy(reqs: seq<Req>, len: Word, cmem: seq<Byte>, smem: seq<Byte>)
    requires InRange(reqs, len, |smem|, |cmem|) && reqs != []
    ensures CopyAll(smem, cmem, ToServer(reqs), len)
            == CopyAll(Stored(ItemOf(reqs[0], len, true, cmem), true, smem), cmem, ToServer(reqs[1..]), len)
  {
    hide Splice;
    ServerMoves(reqs);
    assert Fit(ToServer(reqs), len, |smem|, |cmem|) && ToServer(reqs) != [];
  }

  /** The handler applies a batch of writes in order, and answers a batch of reads with the blocks in order. */
  lemma {:induction false} PerformItems(reqs: seq<Req>, len: Word, write: bool, cmem: seq<Byte>, smem: seq<Byte>)
    requires InRange(reqs, len, |smem|, |cmem|)
    ensures InMemory(ItemsOf(reqs, len, write, cmem), write, |smem|)
    ensures Perform(ItemsOf(reqs, len, write, cmem), write, smem).0
        == if write then CopyAll(smem, cmem, ToServer(reqs), len) else smem
    ensures Perform(ItemsOf(reqs, len, write, cmem), write, smem).1 == if write then [] else Blocks(reqs, len, smem)
    decreases |reqs|
  {
    ItemsInMemory(reqs, len, write, cmem, |smem|);
    if reqs != [] {
      hide Perform, Splice, CopyAll, InMemory;
      PerformFirst(reqs, len, write, cmem, smem);
      PerformItems(reqs[1..], len, write, cmem, Stored(ItemOf(reqs[0], len, write, cmem), write, smem));
      if write { FirstCopy(reqs, len, cmem, smem); }
    }
  }

  /** The message holds a batch the handler can perform. */
  ghost predicate Servable(data: seq<Byte>, memSize: nat) {
    && 26 <= |data|
    && var n, write := data[24] as nat, data[25] == 1;
       |Decode(data[26..], n, write)| == n >= 1 && InMemory(Decode(data[26..], n, write), write, memSize)
  }

  /** Memory after the handler, and its response. */
  ghost function Handle(data: seq<Byte>, smem: seq<Byte>): (r: (seq<Byte>, seq<Byte>))
    requires Servable(data, |smem|)
    ensures |r.0| == |smem|
  {
    var n, write := data[24] as nat, data[25] == 1;
    var (smem', blocks) := Perform(Decode(data[26..], n, write), write, smem);
    (smem', data[..24] + Digits(data[25], 4) + Digits(n, 4) + blocks)
  }

  /** The size the handler allocates for its response, from the size of the first entry. */
  function ResponseSize(data: seq<Byte>): nat
    requires 26 + 16 <= |data|
  {
    32 + if data[25] == 0 then data[24] * Number(data[26 + 8..26 + 16]) else 0
  }

  /** The response to a request. */
  ghost function Response(c: Call, smem: seq<Byte>): (d: seq<Byte>)
    requires 1 <= |c.reqs| < 128 && forall i :: 0 <= i < |c.reqs| ==> c.reqs[i].server + c.len <= |smem|
    ensures |d| >= 32
  {
    Info(c) + Digits(if c.write then 1 else 0, 4) + Digits(|c.reqs|, 4)
        + if c.write then [] else Blocks(c.reqs, c.len, smem)
  }

  lemma RequestParts(c: Call, cmem: seq<Byte>, stale: seq<Byte>)
    requires 1 <= |c.reqs| < 128 && ClientFits(c.reqs, c.len, |cmem|)
    ensures var data := Request(c, cmem) + stale;
            && 26 <= |data| && data[..24] == Info(c) && data[24] == |c.reqs| && data[25] == (if c.write then 1 else 0)
            && data[26..] == Body(c.reqs, c.len, c.write, cmem) + stale
  {
    var head, flags, body := Info(c), [|c.reqs|, if c.write then 1 else 0], Body(c.reqs, c.len, c.write, cmem);
    var data := Request(c, cmem) + stale;
    assert data[..24] == head;
    assert data[24..26] == flags;
    assert data[24] == data[24..26][0] && data[25] == data[24..26][1];
    assert data[26..] == body + stale;
  }

  /** The handler on an encoded request: the outcome of the batch, and a response of exactly the allocated size. */
  lemma HandleRequest(c: Call, cmem: seq<Byte>, smem: seq<Byte>, stale: seq<Byte>)
    requires 1 <= |c.reqs| < 128 && InRange(c.reqs, c.len, |smem|, |cmem|)
    ensures var data := Request(c, cmem) + stale;
            && Servable(data, |smem|) && 26 + 16 <= |data|
            && Handle(data, smem)
                == (if c.write then CopyAll(smem, cmem, ToServer(c.reqs), c.len) else smem, Response(c, smem))
            && |Response(c, smem)| == ResponseSize(data)
  {
    var data := Request(c, cmem) + stale;
    RequestParts(c, cmem, stale);
    DecodeBody(c.reqs, c.len, c.write, cmem, stale);
    PerformItems(c.reqs, c.len, c.write, cmem, smem);
    FirstSize(c, cmem, stale);
    BlocksLength(c.reqs, c.len, smem);
  }

  lemma FirstSize(c: Call, cmem: seq<Byte>, stale: seq<Byte>)
    requires 1 <= |c.reqs| < 128 && ClientFits(c.reqs, c.len, |cmem|)
    ensures var data := Request(c, cmem) + stale; 26 + 16 <= |data| && Number(data[26 + 8..26 + 16]) == c.len
  {
    var data := Request(c, cmem) + stale;
    RequestParts(c, cmem, stale);
    var entry, rest := Entry(c.reqs[0], c.len, c.write, cmem), Body(c.reqs[1..], c.len, c.write, cmem);
    Regroup(entry, rest, stale);
    EntryDecodes(c.reqs[0], c.len, c.write, cmem, rest + stale, data[26..]);
    assert data[26..][8..16] == data[26 + 8..26 + 16];
  }

  // ---- The client's handler ----

  /** Consecutive blocks of `size` bytes copied to the addresses in order. */
  ghost function Deliver(body: seq<Byte>, addrs: seq<Word>, size: nat, cmem: seq<Byte>): (m: seq<Byte>)
    requires |addrs| * size <= |body| && forall i :: 0 <= i < |addrs| ==> addrs[i] + size <= |cmem|
    ensures |m| == |cmem|
    decreases |addrs|
  {
    if addrs == [] then cmem
    else
      MulStep(|addrs|, size);
      MulMono(0, |addrs| - 1, size);
      Deliver(body[size..], addrs[1..], size, Splice(cmem, addrs[0], body[..size]))
  }

  function Clients(reqs: seq<Req>): (a: seq<Word>)
    ensures |a| == |reqs|
  {
    seq(|reqs|, i requires 0 <= i < |reqs| => reqs[i].client)
  }

  lemma {:induction false} DeliverBlocks(reqs: seq<Req>, len: Word, cmem: seq<Byte>, smem: seq<Byte>, stale: seq<Byte>)
    requires InRange(reqs, len, |smem|, |cmem|)
    ensures |Clients(reqs)| * len <= |Blocks(reqs, len, smem) + stale|
    ensures Deliver(Blocks(reqs, len, smem) + stale, Clients(reqs), len, cmem)
        == CopyAll(cmem, smem, ToClient(reqs), len)
    decreases |reqs|
  {
    BlocksLength(reqs, len, smem);
    if reqs != [] {
      var block, rest := smem[reqs[0].server..reqs[0].server + len], Blocks(reqs[1..], len, smem);
      Regroup(block, rest, stale);
      TakeDrop(block, rest + stale);
      ServerMoves(reqs);
      assert Clients(reqs)[1..] == Clients(reqs[1..]);
      DeliverBlocks(reqs[1..], len, Splice(cmem, reqs[0].client, block), smem, stale);
    }
  }

  /** The client's tables of local buffers, by address. */
  ghost predicate Deliverable(data: seq<Byte>, tables: map<nat, seq<Word>>, memSize: nat) {
    && 32 <= |data|
    && (Number(data[24..28]) == 0 ==>
      var size, table, n := Number(data[..8]), Number(data[8..16]), Number(data[28..32]);
      && table in tables && n <= |tables[table]| && n * size <= |data| - 32
      && forall i :: 0 <= i < n ==> tables[table][i] + size <= memSize)
  }

  /** Client memory after the response, and the work it completes. */
  ghost function OnResponse(data: seq<Byte>, tables: map<nat, seq<Word>>, cmem: seq<Byte>): (r: (seq<Byte>, nat))
    requires Deliverable(data, tables, |cmem|)
  {
    (if Number(data[24..28]) == 0 then
      Deliver(data[32..], tables[Number(data[8..16])][..Number(data[28..32])], Number(data[..8]), cmem)
    else cmem, Number(data[16..24]))
  }

  lemma ResponseReads(c: Call, smem: seq<Byte>, stale: seq<Byte>)
    requires 1 <= |c.reqs| < 128 && forall i :: 0 <= i < |c.reqs| ==> c.reqs[i].server + c.len <= |smem|
    ensures var data := Response(c, smem) + stale;
            && Number(data[..8]) == c.len && Number(data[8..16]) == c.table && Number(data[16..24]) == c.work
            && Number(data[24..28]) == (if c.write then 1 else 0) && Number(data[28..32]) == |c.reqs|
            && data[32..] == (if c.write then [] else Blocks(c.reqs, c.len, smem)) + stale
  {
    var blocks := if c.write then [] else Blocks(c.reqs, c.len, smem);
    SmallNumber(if c.write then 1 else 0);
    SmallNumber(|c.reqs|);
    ResponseParts(Enc(c.len), Enc(c.table), Enc(c.work), Digits(if c.write then 1 else 0, 4), Digits(|c.reqs|, 4),
        blocks, stale);
  }

  lemma SmallNumber(v: nat)
    requires v < 256
    ensures Number(Digits(v, 4)) == v
  {
    KindFits(v);
  }

  lemma ResponseParts(size: seq<Byte>, table: seq<Byte>, work: seq<Byte>, flag: seq<Byte>, count: seq<Byte>,
      blocks: seq<Byte>, stale: seq<Byte>)
    requires |size| == |table| == |work| == 8 && |flag| == |count| == 4
    ensures var data := size + table + work + flag + count + blocks + stale;
            && data[..8] == size && data[8..16] == table && data[16..24] == work && data[24..28] == flag
                && data[28..32] == count
            && data[32..] == blocks + stale
  {}

  /** The client's handler on the response: it completes the call it was sent for, and the buffers of
      a read hold the server's bytes. */
  lemma ResponseDelivers(c: Call, cmem: seq<Byte>, smem: seq<Byte>, tables: map<nat, seq<Word>>, stale: seq<Byte>)
    requires 1 <= |c.reqs| < 128 && InRange(c.reqs, c.len, |smem|, |cmem|)
    requires c.table in tables && Clients(c.reqs) <= tables[c.table]
    ensures var data := Response(c, smem) + stale;
            && Deliverable(data, tables, |cmem|)
            && OnResponse(data, tables, cmem)
                == (if c.write then cmem else CopyAll(cmem, smem, ToClient(c.reqs), c.len), c.work)
  {
    ResponseReads(c, smem, stale);
    if !c.write {
      BlocksLength(c.reqs, c.len, smem);
      DeliverBlocks(c.reqs, c.len, cmem, smem, stale);
      assert tables[c.table][..|c.reqs|] == Clients(c.reqs);
    }
  }

  /** A batch end to end, through both frames and whatever the receive buffers held before. */
  lemma Exchange(c: Call, cmem: seq<Byte>, smem: seq<Byte>, tables: map<nat, seq<Word>>, request: Kind, response: Kind,
                 stale: seq<Byte>, stale': seq<Byte>)
    requires 1 <= |c.reqs| < 128 && InRange(c.reqs, c.len, |smem|, |cmem|)
    requires c.table in tables && Clients(c.reqs) <= tables[c.table]
    requires |Request(c, cmem)| < WORD && |Response(c, smem)| < WORD
    ensures var msg := Frame(request, Request(c, cmem)) + stale;
            && KindOf(msg) == request && SizeOf(msg) == |Request(c, cmem)| && Servable(DataOf(msg), |smem|)
            && var (smem', answer) := Handle(DataOf(msg), smem);
               && smem' == (if c.write then CopyAll(smem, cmem, ToServer(c.reqs), c.len) else smem)
               && |answer| < WORD
               && var msg' := Frame(response, answer) + stale';
                  && KindOf(msg') == response && SizeOf(msg') == |answer| && Deliverable(DataOf(msg'), tables, |cmem|)
                  && OnResponse(DataOf(msg'), tables, cmem)
                     == (if c.write then cmem else CopyAll(cmem, smem, ToClient(c.reqs), c.len), c.work)
  {
    FrameReads(request, Request(c, cmem), stale);
    HandleRequest(c, cmem, smem, stale);
    FrameReads(response, Response(c, smem), stale');
    ResponseDelivers(c, cmem, smem, tables, stale');
  }
}
