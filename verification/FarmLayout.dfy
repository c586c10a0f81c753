/** Where the bytes of FaRM requests lie: the client's encoding, the slot it is written to, the byte
    the server polls and the byte the flush reads back; and the ring of FarmRing kept in those bytes. */
module FarmLayout {
  import opened Bytes
  import opened Copies
  import opened FarmRing
  import opened Modular
  import opened Sequences
  import opened Wrappers

  /** One batch, all of the same size: what the caller of a slot asks for. */
  datatype Job = Job(reqs: seq<Req>, write: bool)

  /** Bytes of one slot. */
  function SlotSize(batch: nat, len: nat): nat { (24 + len) * batch + 2 }

  /** The data of a write goes before its header. */
  function Entry(r: Req, len: Word, write: bool, cmem: seq<Byte>): (d: seq<Byte>)
    requires r.client + len <= |cmem|
    ensures |d| == 24 + if write then len else 0
  {
    (if write then cmem[r.client..r.client + len] else []) + Header(r, len)
  }

  ghost function Body(reqs: seq<Req>, len: Word, write: bool, cmem: seq<Byte>): seq<Byte>
    requires ClientFits(reqs, len, |cmem|)
  {
    if reqs == [] then [] else Entry(reqs[0], len, write, cmem) + Body(reqs[1..], len, write, cmem)
  }

  /** The encoded request: entries, direction, valid byte. */
  ghost function Request(job: Job, len: Word, cmem: seq<Byte>): seq<Byte>
    requires ClientFits(job.reqs, len, |cmem|)
  {
    Body(job.reqs, len, job.write, cmem) + [if job.write then 1 else 0, 1]
  }

  lemma {:induction false} BodyLength(reqs: seq<Req>, len: Word, write: bool, cmem: seq<Byte>)
    requires ClientFits(reqs, len, |cmem|)
    ensures |Body(reqs, len, write, cmem)| == |reqs| * Stride(write, len)
  {
    if reqs != [] {
      BodyLength(reqs[1..], len, write, cmem);
      MulStep(|reqs|, Stride(write, len));
    }
  }

  // ---- What the server can read back ----

  /** One entry as the server would parse it: the data of a write, then server address, client address, size. */
  ghost predicate EntryCarries(d: seq<Byte>, r: Req, len: Word, write: bool, cmem: seq<Byte>)
    requires r.client + len <= |cmem|
  {
    var h := if write then len as nat else 0;
    && |d| == h + 24 && d[..h] == (if write then cmem[r.client..r.client + len] else [])
    && Number(d[h..h + 8]) == r.server && Number(d[h + 8..h + 16]) == r.client && Number(d[h + 16..h + 24]) == len
  }

  /** A whole request: an entry for every operation of the job in order, the direction, a set valid byte. */
  ghost predicate Carries(d: seq<Byte>, job: Job, len: Word, cmem: seq<Byte>)
    requires ClientFits(job.reqs, len, |cmem|)
  {
    && |d| == |job.reqs| * Stride(job.write, len) + 2
    && d[|d| - 2] == (if job.write then 1 else 0) && d[|d| - 1] == 1
    && forall i :: 0 <= i < |job.reqs| ==> CarriesAt(d, i, job, len, cmem)
  }

  ghost predicate CarriesAt(d: seq<Byte>, i: nat, job: Job, len: Word, cmem: seq<Byte>)
    requires ClientFits(job.reqs, len, |cmem|) && i < |job.reqs|
  {
    var at, size := EntryAt(i, job.write, len), Stride(job.write, len);
    at + size <= |d| && EntryCarries(d[at..at + size], job.reqs[i], len, job.write, cmem)
  }

  lemma EntryReads(r: Req, len: Word, write: bool, cmem: seq<Byte>)
    requires r.client + len <= |cmem|
    ensures EntryCarries(Entry(r, len, write, cmem), r, len, write, cmem)
  {
    hide Number, Enc, Header;
    HeaderReads(r, len);
    var data := if write then cmem[r.client..r.client + len] else [];
    TakeDrop(data, Header(r, len));
    TailSlice(data, Header(r, len), 0, 8);
    TailSlice(data, Header(r, len), 8, 8);
    TailSlice(data, Header(r, len), 16, 8);
  }

  lemma HeaderReads(r: Req, len: Word)
    ensures Number(Header(r, len)[0..8]) == r.server && Number(Header(r, len)[8..16]) == r.client
    ensures Number(Header(r, len)[16..24]) == len
  {
    hide Number;
    var h := Header(r, len);
    assert h[0..8] == Enc(r.server) && h[8..16] == Enc(r.client) && h[16..24] == Enc(len);
  }

  lemma TailSlice(a: seq<Byte>, b: seq<Byte>, from: nat, n: nat)
    requires from + n <= |b|
    ensures (a + b)[|a| + from..|a| + from + n] == b[from..from + n]
  {}

  /** Offset of entry `i`. */
  function EntryAt(i: nat, write: bool, len: nat): nat { i * Stride(write, len) }

  lemma EntryAfter(i: nat, write: bool, len: nat)
    requires i > 0
    ensures EntryAt(0, write, len) == 0 && EntryAt(i, write, len) == Stride(write, len) + EntryAt(i - 1, write, len)
  {
    MulStep(i, Stride(write, len));
  }

  lemma {:induction false} BodyAt(reqs: seq<Req>, len: Word, write: bool, cmem: seq<Byte>, i: nat)
    requires ClientFits(reqs, len, |cmem|) && i < |reqs|
    ensures var at, size := EntryAt(i, write, len), Stride(write, len);
            at + size <= |Body(reqs, len, write, cmem)|
            && Body(reqs, len, write, cmem)[at..at + size] == Entry(reqs[i], len, write, cmem)
  {
    hide Entry, Body, EntryAt, Stride;
    var size, rest := Stride(write, len), Body(reqs[1..], len, write, cmem);
    BodyCons(reqs, len, write, cmem);
    TakeDrop(Entry(reqs[0], len, write, cmem), rest);
    EntryAfter(i + 1, write, len);
    if i > 0 {
      EntryAfter(i, write, len);
      BodyAt(reqs[1..], len, write, cmem, i - 1);
      TailSlice(Entry(reqs[0], len, write, cmem), rest, EntryAt(i - 1, write, len), size);
    }
  }

  lemma BodyCons(reqs: seq<Req>, len: Word, write: bool, cmem: seq<Byte>)
    requires ClientFits(reqs, len, |cmem|) && reqs != []
    ensures ClientFits(reqs[1..], len, |cmem|)
    ensures |Entry(reqs[0], len, write, cmem)| == Stride(write, len) && EntryAt(0, write, len) == 0
    ensures Body(reqs, len, write, cmem) == Entry(reqs[0], len, write, cmem) + Body(reqs[1..], len, write, cmem)
  {}

  /** The encoding carries the job, read by position alone. */
  lemma RequestCarries(job: Job, len: Word, cmem: seq<Byte>)
    requires ClientFits(job.reqs, len, |cmem|)
    ensures Carries(Request(job, len, cmem), job, len, cmem)
  {
    hide Body, Entry, CarriesAt, Stride;
    BodyLength(job.reqs, len, job.write, cmem);
    forall i | 0 <= i < |job.reqs| ensures CarriesAt(Request(job, len, cmem), i, job, len, cmem) {
      RequestCarriesAt(job, len, cmem, i);
    }
  }

  lemma RequestCarriesAt(job: Job, len: Word, cmem: seq<Byte>, i: nat)
    requires ClientFits(job.reqs, len, |cmem|) && i < |job.reqs|
    ensures CarriesAt(Request(job, len, cmem), i, job, len, cmem)
  {
    hide Body, Entry, EntryAt, EntryCarries;
    BodyAt(job.reqs, len, job.write, cmem, i);
    EntryReads(job.reqs[i], len, job.write, cmem);
    HeadSlice(Body(job.reqs, len, job.write, cmem), [if job.write then 1 else 0, 1], EntryAt(i, job.write, len),
              Stride(job.write, len));
  }

  lemma HeadSlice(a: seq<Byte>, b: seq<Byte>, from: nat, n: nat)
    requires from + n <= |a|
    ensures (a + b)[from..from + n] == a[from..from + n]
  {}

  /** The size the handler posts. */
  function PostedSize(write: bool, batch: nat, len: nat): nat {
    if write then batch * (24 + len) + 2 else batch * 24 + 2
  }

  lemma RequestLength(job: Job, len: Word, cmem: seq<Byte>)
    requires ClientFits(job.reqs, len, |cmem|)
    ensures |Request(job, len, cmem)| == PostedSize(job.write, |job.reqs|, len)
  {
    BodyLength(job.reqs, len, job.write, cmem);
  }

  /** Offset in the server's region to which the handler writes the request of slot `cur`. */
  function WriteAt(cur: nat, write: bool, batch: nat, len: nat): nat {
    cur * SlotSize(batch, len) + if write then 0 else len * batch
  }

  /** Offset at which the server polls slot `i`. */
  function PollAt(i: nat, batch: nat, len: nat): nat { len * batch + i * SlotSize(batch, len) + 24 * batch + 1 }

  /** Offset the flush reads after the request of slot `cur`. */
  function FlushAt(cur: nat, batch: nat, len: nat): int { (cur + 1) * SlotSize(batch, len) - 1 }

  /** The request ends with the slot, for reads and writes: its valid byte is the one the server
      polls and the one the flush reads, and it starts no earlier than the slot. */
  lemma RequestEndsWithSlot(cur: nat, write: bool, batch: nat, len: nat)
    ensures WriteAt(cur, write, batch, len) + PostedSize(write, batch, len) == (cur + 1) * SlotSize(batch, len)
    ensures PollAt(cur, batch, len) == FlushAt(cur, batch, len)
        == WriteAt(cur, write, batch, len) + PostedSize(write, batch, len) - 1
    ensures cur * SlotSize(batch, len) <= WriteAt(cur, write, batch, len)
  {
    assert (24 + len) * batch == 24 * batch + len * batch;
    assert (cur + 1) * SlotSize(batch, len) == cur * SlotSize(batch, len) + SlotSize(batch, len);
  }

  /** Slots are disjoint and inside the region of `n` slots. */
  lemma SlotsApart(i: nat, j: nat, n: nat, size: nat)
    ensures i < n ==> (i + 1) * size <= n * size
    ensures i < j ==> (i + 1) * size <= j * size
  {
    MulMono(i + 1, n, size);
    MulMono(i + 1, j, size);
  }

  method PutEntry(buf: array<Byte>, at: nat, r: Req, len: Word, write: bool, cmem: array<Byte>) returns (end: nat)
    requires buf != cmem && r.client + len <= cmem.Length && at + Stride(write, len) <= buf.Length
    modifies buf
    ensures end == at + Stride(write, len)
    ensures buf[..] == Splice(old(buf[..]), at, Entry(r, len, write, cmem[..]))
  {
    hide Header, Splice;
    ghost var was, data := buf[..], if write then cmem[..][r.client..r.client + len] else [];
    end := CopyIf(buf, at, write, cmem, r.client, len);
    Copy(buf, end, Header(r, len));
    SpliceJoin(was, at, data, Header(r, len));
    end := end + 24;
  }

  lemma BodyFrom(reqs: seq<Req>, i: nat, len: Word, write: bool, cmem: seq<Byte>)
    requires i < |reqs| && ClientFits(reqs, len, |cmem|)
    ensures Body(reqs[i..], len, write, cmem)
        == Entry(reqs[i], len, write, cmem) + Body(reqs[i + 1..], len, write, cmem)
  {
    assert reqs[i..][0] == reqs[i] && reqs[i..][1..] == reqs[i + 1..];
  }

  lemma NoBody(reqs: seq<Req>, len: Word, write: bool, cmem: seq<Byte>)
    requires reqs == []
    ensures Body(reqs, len, write, cmem) == []
  {}

  /** amper_FaRM_work_handler's loop, from the start of its local buffer. */
  method BuildBody(buf: array<Byte>, reqs: seq<Req>, len: Word, write: bool, cmem: array<Byte>) returns (end: nat)
    requires buf != cmem && ClientFits(reqs, len, cmem.Length) && |Body(reqs, len, write, cmem[..])| <= buf.Length
    modifies buf
    ensures end == |Body(reqs, len, write, cmem[..])|
    ensures buf[..] == Splice(old(buf[..]), 0, Body(reqs, len, write, cmem[..]))
  {
    hide Body, Entry, Header, Splice;
    ghost var was, m := buf[..], cmem[..];
    ghost var all, done, left := Body(reqs, len, write, m), [], Body(reqs, len, write, m);
    assert reqs[0..] == reqs && [] + all == all;
    SpliceNothing(was, 0);
    var i := 0;
    end := 0;
    while i < |reqs|
      invariant 0 <= i <= |reqs| && cmem[..] == m && end == |done|
      invariant left == Body(reqs[i..], len, write, m) && done + left == all
      invariant buf[..] == Splice(was, 0, done)
    {
      ghost var entry, tail := Entry(reqs[i], len, write, m), Body(reqs[i + 1..], len, write, m);
      BodyFrom(reqs, i, len, write, m);
      Regroup(done, entry, tail);
      end := PutEntry(buf, end, reqs[i], len, write, cmem);
      SpliceJoin(was, 0, done, entry);
      done, left := done + entry, tail;
      i := i + 1;
    }
    NoBody(reqs[i..], len, write, m);
    assert done + [] == done;
  }

  /** The entries, the direction, the valid byte. */
  method BuildRequest(buf: array<Byte>, job: Job, len: Word, cmem: array<Byte>) returns (size: nat)
    requires buf != cmem && ClientFits(job.reqs, len, cmem.Length)
        && PostedSize(job.write, |job.reqs|, len) <= buf.Length
    modifies buf
    ensures size == PostedSize(job.write, |job.reqs|, len) == |Request(job, len, cmem[..])|
    ensures buf[..] == Splice(old(buf[..]), 0, Request(job, len, cmem[..]))
  {
    RequestLength(job, len, cmem[..]);
    ghost var was := buf[..];
    size := BuildBody(buf, job.reqs, len, job.write, cmem);
    var trailer: seq<Byte> := [if job.write then 1 else 0, 1];
    Copy(buf, size, trailer);
    SpliceJoin(was, 0, Body(job.reqs, len, job.write, cmem[..]), trailer);
    size := size + 2;
  }

  // ---- The ring in bytes ----

  /** The server's region after the request of `job` was written to slot `cur`. */
  ghost function Written(sreg: seq<Byte>, cur: nat, job: Job, len: Word, cmem: seq<Byte>): (r: seq<Byte>)
    requires ClientFits(job.reqs, len, |cmem|) && (cur + 1) * SlotSize(|job.reqs|, len) <= |sreg|
    ensures |r| == |sreg|
  {
    RequestEndsWithSlot(cur, job.write, |job.reqs|, len);
    RequestLength(job, len, cmem);
    Splice(sreg, WriteAt(cur, job.write, |job.reqs|, len), Request(job, len, cmem))
  }

  /** The part of slot `i` a request of this kind occupies. */
  function Part(sreg: seq<Byte>, i: nat, write: bool, batch: nat, len: nat): seq<Byte>
    requires (i + 1) * SlotSize(batch, len) <= |sreg|
  {
    RequestEndsWithSlot(i, write, batch, len);
    sreg[WriteAt(i, write, batch, len)..(i + 1) * SlotSize(batch, len)]
  }

  /** A write to one slot fills that slot's part and leaves every other slot as it was. */
  lemma WriteTouchesOneSlot(sreg: seq<Byte>, cur: nat, i: nat, job: Job, len: Word, cmem: seq<Byte>, n: nat,
      write: bool)
    requires ClientFits(job.reqs, len, |cmem|) && cur < n && i < n && |sreg| == n * SlotSize(|job.reqs|, len)
    ensures (cur + 1) * SlotSize(|job.reqs|, len) <= |sreg| && (i + 1) * SlotSize(|job.reqs|, len) <= |sreg|
    ensures var batch, sreg' := |job.reqs|, Written(sreg, cur, job, len, cmem);
            && Part(sreg', cur, job.write, batch, len) == Request(job, len, cmem)
            && (i != cur ==> Part(sreg', i, write, batch, len) == Part(sreg, i, write, batch, len))
  {
    hide SlotSize, WriteAt, PostedSize, Request, Splice;
    var batch := |job.reqs|;
    SlotsApart(cur, i, n, SlotSize(batch, len));
    SlotsApart(i, cur, n, SlotSize(batch, len));
    RequestEndsWithSlot(cur, job.write, batch, len);
    RequestEndsWithSlot(i, write, batch, len);
    RequestLength(job, len, cmem);
    var at, req := WriteAt(cur, job.write, batch, len), Request(job, len, cmem);
    SpliceReads(sreg, at, req);
    if i != cur { SpliceApart(sreg, at, req, WriteAt(i, write, batch, len), (i + 1) * SlotSize(batch, len)); }
  }

  lemma SpliceApart(m: seq<Byte>, off: nat, d: seq<Byte>, from: nat, to: nat)
    requires off + |d| <= |m| && from <= to <= |m| && (to <= off || off + |d| <= from)
    ensures Splice(m, off, d)[from..to] == m[from..to]
  {}

  /** The server clears the valid byte of slot `i`. */
  function Cleared(sreg: seq<Byte>, i: nat, batch: nat, len: nat): (r: seq<Byte>)
    requires PollAt(i, batch, len) < |sreg|
    ensures |r| == |sreg|
  {
    sreg[PollAt(i, batch, len) := 0]
  }

  /** What the callers pass: jobs, which the payload of a call points into, all of one batch and size,
      on buffers in a client memory of `size` bytes. */
  datatype World = World(jobs: seq<Job>, batch: nat, len: Word, size: nat)

  ghost predicate Jobs(w: World) {
    forall k :: 0 <= k < |w.jobs| ==> |w.jobs[k].reqs| == w.batch && ClientFits(w.jobs[k].reqs, w.len, w.size)
  }

  ghost predicate Known(s: Ring, w: World) {
    forall k :: 0 <= k < |s.acquired| ==> 0 <= s.acquired[k].payload < |w.jobs|
  }

  /** Callers change their buffers between calls: `mems` keeps, by ticket, the client memory from which
      the request of a call was encoded. */
  type Log = map<nat, seq<Byte>>

  function Slot(w: World): nat { SlotSize(w.batch, w.len) }

  ghost predicate SlotIs(w: World, slot: Option<Call>, sreg: seq<Byte>, i: nat, mems: Log)
    requires Jobs(w)
  {
    RequestEndsWithSlot(i, true, w.batch, w.len);
    && (i + 1) * Slot(w) <= |sreg|
    && match slot
    case None => sreg[PollAt(i, w.batch, w.len)] == 0
    case Some(c) =>
      && 0 <= c.payload < |w.jobs| && c.ticket in mems && |mems[c.ticket]| == w.size
      && Part(sreg, i, w.jobs[c.payload].write, w.batch, w.len) == Request(w.jobs[c.payload], w.len, mems[c.ticket])
  }

  ghost predicate Holds(w: World, slots: seq<Option<Call>>, sreg: seq<Byte>, mems: Log)
    requires Jobs(w)
  {
    forall i :: 0 <= i < |slots| ==> SlotIs(w, slots[i], sreg, i, mems)
  }

  /** The region holds the ring: a free slot polls as zero, a filled one holds its call's request. */
  ghost predicate Represents(w: World, s: Ring, sreg: seq<Byte>, mems: Log)
    requires Jobs(w)
  {
    Shaped(s) && |sreg| == s.n * Slot(w) && Holds(w, s.slots, sreg, mems)
  }

  /** A filled slot polls as set. */
  lemma FilledPollsSet(w: World, s: Ring, sreg: seq<Byte>, mems: Log, i: nat)
    requires Jobs(w) && Represents(w, s, sreg, mems) && i < s.n
    ensures 0 <= PollAt(i, w.batch, w.len) < |sreg|
    ensures sreg[PollAt(i, w.batch, w.len)] != 0 <==> s.slots[i].Some?
  {
    assert SlotIs(w, s.slots[i], sreg, i, mems);
    RequestEndsWithSlot(i, true, w.batch, w.len);
    match s.slots[i]
    case None =>
    case Some(c) =>
      var job := w.jobs[c.payload];
      RequestEndsWithSlot(i, job.write, w.batch, w.len);
      RequestLength(job, w.len, mems[c.ticket]);
      var req := Request(job, w.len, mems[c.ticket]);
      assert req[|req| - 1] == 1;
  }

  /** What a step of the ring does to the region, `cmem` being the client memory at that time. */
  ghost function NextBytes(w: World, s: Ring, t: Step, sreg: seq<Byte>, mems: Log, cmem: seq<Byte>): (r: seq<Byte>)
    requires Jobs(w) && Inv(s) && Enabled(s, t) && Known(s, w) && Represents(w, s, sreg, mems) && |cmem| == w.size
  {
    match t
    case Write =>
      assert s.workList[0] in s.workList && Waiting(s, s.workList[0]);
      SlotsApart(s.workList[0].cur, 0, s.n, Slot(w));
      Written(sreg, s.workList[0].cur, w.jobs[s.workList[0].payload], w.len, cmem)
    case Serve => FilledPollsSet(w, s, sreg, mems, s.si); Cleared(sreg, s.si, w.batch, w.len)
    case _ => sreg
  }

  ghost function NextLog(s: Ring, t: Step, mems: Log, cmem: seq<Byte>): Log
    requires Shaped(s) && Enabled(s, t)
  {
    if t.Write? then mems[s.workList[0].ticket := cmem] else mems
  }

  /** What a write to slot `cur` leaves in any slot. */
  lemma SlotAfterWrite(w: World, slots: seq<Option<Call>>, c: Call, i: nat, sreg: seq<Byte>, mems: Log, cmem: seq<Byte>)
    requires Jobs(w) && |sreg| == |slots| * Slot(w) && Holds(w, slots, sreg, mems) && |cmem| == w.size
    requires i < |slots| && c.cur < |slots| && 0 <= c.payload < |w.jobs|
    requires i != c.cur && slots[i].Some? ==> slots[i].value.ticket != c.ticket
    ensures (c.cur + 1) * Slot(w) <= |sreg|
    ensures SlotIs(w, slots[c.cur := Some(c)][i], Written(sreg, c.cur, w.jobs[c.payload], w.len, cmem), i,
                   mems[c.ticket := cmem])
  {
    var job, n := w.jobs[c.payload], |slots|;
    SlotsApart(c.cur, i, n, Slot(w));
    assert SlotIs(w, slots[i], sreg, i, mems);
    if i == c.cur {
      WriteTouchesOneSlot(sreg, c.cur, i, job, w.len, cmem, n, true);
    } else if slots[i].Some? {
      WriteTouchesOneSlot(sreg, c.cur, i, job, w.len, cmem, n, w.jobs[slots[i].value.payload].write);
    } else {
      WriteTouchesOneSlot(sreg, c.cur, i, job, w.len, cmem, n, true);
      PollsLast(sreg, i, w.batch, w.len);
      PollsLast(Written(sreg, c.cur, job, w.len, cmem), i, w.batch, w.len);
    }
  }

  lemma WriteKeepsHolds(w: World, slots: seq<Option<Call>>, c: Call, sreg: seq<Byte>, mems: Log, cmem: seq<Byte>)
    requires Jobs(w) && |sreg| == |slots| * Slot(w) && Holds(w, slots, sreg, mems) && |cmem| == w.size
    requires c.cur < |slots| && 0 <= c.payload < |w.jobs|
    requires forall i :: 0 <= i < |slots| && i != c.cur && slots[i].Some? ==> slots[i].value.ticket != c.ticket
    ensures (c.cur + 1) * Slot(w) <= |sreg|
    ensures Holds(w, slots[c.cur := Some(c)], Written(sreg, c.cur, w.jobs[c.payload], w.len, cmem),
                  mems[c.ticket := cmem])
  {
    hide SlotIs, Written, Slot, SlotSize, ClientFits;
    SlotsApart(c.cur, c.cur, |slots|, Slot(w));
    WrittenRoom(w, c, sreg);
    var slots', sreg' := slots[c.cur := Some(c)], Written(sreg, c.cur, w.jobs[c.payload], w.len, cmem);
    forall i | 0 <= i < |slots|
      ensures SlotIs(w, slots'[i], sreg', i, mems[c.ticket := cmem])
    {
      SlotAfterWrite(w, slots, c, i, sreg, mems, cmem);
    }
  }

  lemma WrittenRoom(w: World, c: Call, sreg: seq<Byte>)
    requires Jobs(w) && 0 <= c.payload < |w.jobs| && (c.cur + 1) * Slot(w) <= |sreg|
    ensures ClientFits(w.jobs[c.payload].reqs, w.len, w.size)
    ensures (c.cur + 1) * SlotSize(|w.jobs[c.payload].reqs|, w.len) <= |sreg|
  {}

  lemma PollsLast(sreg: seq<Byte>, i: nat, batch: nat, len: nat)
    requires (i + 1) * SlotSize(batch, len) <= |sreg|
    ensures PollAt(i, batch, len) < |sreg| && var part := Part(sreg, i, true, batch, len);
            part != [] && sreg[PollAt(i, batch, len)] == part[|part| - 1]
  {
    RequestEndsWithSlot(i, true, batch, len);
  }

  lemma SlotAfterClear(w: World, slots: seq<Option<Call>>, j: nat, i: nat, sreg: seq<Byte>, mems: Log)
    requires Jobs(w) && |sreg| == |slots| * Slot(w) && Holds(w, slots, sreg, mems)
    requires i < |slots| && j < |slots| && PollAt(j, w.batch, w.len) < |sreg|
    ensures SlotIs(w, slots[j := None][i], Cleared(sreg, j, w.batch, w.len), i, mems)
  {
    SlotsApart(i, 0, |slots|, Slot(w));
    assert SlotIs(w, slots[i], sreg, i, mems);
    RequestEndsWithSlot(i, true, w.batch, w.len);
    if i != j { ClearTouchesOneSlot(sreg, j, i, |slots|, w.batch, w.len); }
  }

  lemma ClearKeepsHolds(w: World, slots: seq<Option<Call>>, j: nat, sreg: seq<Byte>, mems: Log)
    requires Jobs(w) && |sreg| == |slots| * Slot(w) && Holds(w, slots, sreg, mems)
    requires j < |slots| && PollAt(j, w.batch, w.len) < |sreg|
    ensures Holds(w, slots[j := None], Cleared(sreg, j, w.batch, w.len), mems)
  {
    hide SlotIs, Cleared, Slot, SlotSize, PollAt;
    var slots', sreg' := slots[j := None], Cleared(sreg, j, w.batch, w.len);
    forall i | 0 <= i < |slots| ensures SlotIs(w, slots'[i], sreg', i, mems) {
      SlotAfterClear(w, slots, j, i, sreg, mems);
    }
  }

  lemma ClearTouchesOneSlot(sreg: seq<Byte>, j: nat, i: nat, n: nat, batch: nat, len: nat)
    requires i < n && j < n && i != j && |sreg| == n * SlotSize(batch, len)
    ensures PollAt(j, batch, len) < |sreg| && PollAt(i, batch, len) < |sreg| && (i + 1) * SlotSize(batch, len) <= |sreg|
    ensures Cleared(sreg, j, batch, len)[PollAt(i, batch, len)] == sreg[PollAt(i, batch, len)]
    ensures forall write :: Part(Cleared(sreg, j, batch, len), i, write, batch, len) == Part(sreg, i, write, batch, len)
  {
    SlotsApart(i, j, n, SlotSize(batch, len));
    SlotsApart(j, i, n, SlotSize(batch, len));
    RequestEndsWithSlot(i, true, batch, len);
    RequestEndsWithSlot(i, false, batch, len);
    RequestEndsWithSlot(j, true, batch, len);
  }

  /** A call in another slot has another ticket. */
  lemma TicketsDiffer(s: Ring, i: nat)
    requires Inv(s) && Enabled(s, Write) && i < s.n && i != s.workList[0].cur && s.slots[i].Some?
    ensures s.slots[i].value.ticket != s.workList[0].ticket
  {
    assert s.workList[0] in s.workList;
  }

  lemma StepOnBytes(w: World, s: Ring, t: Step, sreg: seq<Byte>, mems: Log, cmem: seq<Byte>)
    requires Jobs(w) && Inv(s) && Enabled(s, t) && Known(s, w) && (t.Acquire? ==> 0 <= t.payload < |w.jobs|)
    requires Represents(w, s, sreg, mems) && |cmem| == w.size
    ensures Inv(Next(s, t)) && Known(Next(s, t), w)
    ensures Represents(w, Next(s, t), NextBytes(w, s, t, sreg, mems, cmem), NextLog(s, t, mems, cmem))
  {
    NextKeepsInv(s, t);
    if t.Write? {
      var c := s.workList[0];
      assert c in s.workList && Waiting(s, c);
      forall i | 0 <= i < s.n && i != c.cur && s.slots[i].Some? ensures s.slots[i].value.ticket != c.ticket {
        TicketsDiffer(s, i);
      }
      WriteKeepsHolds(w, s.slots, c, sreg, mems, cmem);
    } else if t.Serve? {
      FilledPollsSet(w, s, sreg, mems, s.si);
      ClearKeepsHolds(w, s.slots, s.si, sreg, mems);
    } else {
      assert Next(s, t).slots == s.slots && Next(s, t).n == s.n;
    }
  }

  /** A step of the ring, and the client memory when it is taken. */
  datatype Event = Event(step: Step, cmem: seq<Byte>)

  /** Runs of the ring with the region and the log beside it. */
  ghost predicate RunBytes(w: World, s: Ring, sreg: seq<Byte>, mems: Log, events: seq<Event>,
                           s': Ring, sreg': seq<Byte>, mems': Log)
    requires Jobs(w) && Inv(s) && Known(s, w) && Represents(w, s, sreg, mems)
    decreases |events|
  {
    if events == [] then s' == s && sreg' == sreg && mems' == mems
    else
      var t, cmem := events[0].step, events[0].cmem;
      && Enabled(s, t) && (t.Acquire? ==> 0 <= t.payload < |w.jobs|) && |cmem| == w.size
      && (StepOnBytes(w, s, t, sreg, mems, cmem);
          RunBytes(w, Next(s, t), NextBytes(w, s, t, sreg, mems, cmem), NextLog(s, t, mems, cmem), events[1..],
                   s', sreg', mems'))
  }

  lemma {:induction false} RunRepresents(w: World, s: Ring, sreg: seq<Byte>, mems: Log, events: seq<Event>,
                                         s': Ring, sreg': seq<Byte>, mems': Log)
    requires Jobs(w) && Inv(s) && Known(s, w) && Represents(w, s, sreg, mems)
    requires RunBytes(w, s, sreg, mems, events, s', sreg', mems')
    ensures Inv(s') && Known(s', w) && Represents(w, s', sreg', mems') && s'.n == s.n
    decreases |events|
  {
    if events != [] {
      var t, cmem := events[0].step, events[0].cmem;
      StepOnBytes(w, s, t, sreg, mems, cmem);
      RunRepresents(w, Next(s, t), NextBytes(w, s, t, sreg, mems, cmem), NextLog(s, t, mems, cmem), events[1..],
                    s', sreg', mems');
    }
  }

  /** Only requests already written are in the log. */
  ghost predicate LogFresh(s: Ring, mems: Log) {
    && (forall k :: k in mems ==> k < |s.acquired|)
    && (forall c :: c in s.held ==> c.ticket !in mems)
    && (forall c :: c in s.workList ==> c.ticket !in mems)
  }

  lemma StepKeepsLog(s: Ring, t: Step, mems: Log, cmem: seq<Byte>)
    requires Inv(s) && Enabled(s, t) && LogFresh(s, mems)
    ensures LogFresh(Next(s, t), NextLog(s, t, mems, cmem))
    ensures forall k :: k in mems ==> k in NextLog(s, t, mems, cmem) && NextLog(s, t, mems, cmem)[k] == mems[k]
  {
    var s' := Next(s, t);
    match t
    case Acquire(_) =>
    case Enqueue(_) => assert forall d :: d in s'.workList ==> d in s.workList || d in s.held;
    case Write =>
      var c := s.workList[0];
      assert c in s.workList && Waiting(s, c);
      forall d | d in s'.workList ensures d in s.workList && d.ticket != c.ticket {
        assert d in s.workList && Waiting(s, d);
      }
      forall d | d in s'.held ensures d.ticket != c.ticket { assert Waiting(s, d); }
    case _ => assert s'.workList == s.workList && s'.held == s.held && s'.acquired == s.acquired;
  }

  /** A request is written once: what the log holds for a call is never replaced. */
  lemma {:induction false} RunKeepsLog(w: World, s: Ring, sreg: seq<Byte>, mems: Log, events: seq<Event>,
                                       s': Ring, sreg': seq<Byte>, mems': Log)
    requires Jobs(w) && Inv(s) && Known(s, w) && Represents(w, s, sreg, mems) && LogFresh(s, mems)
    requires RunBytes(w, s, sreg, mems, events, s', sreg', mems')
    ensures LogFresh(s', mems') && forall k :: k in mems ==> k in mems' && mems'[k] == mems[k]
    decreases |events|
  {
    if events != [] {
      var t, cmem := events[0].step, events[0].cmem;
      StepOnBytes(w, s, t, sreg, mems, cmem);
      StepKeepsLog(s, t, mems, cmem);
      RunKeepsLog(w, Next(s, t), NextBytes(w, s, t, sreg, mems, cmem), NextLog(s, t, mems, cmem), events[1..],
                  s', sreg', mems');
    }
  }

  ghost predicate Zeroed(w: World, n: nat, sreg: seq<Byte>) {
    |sreg| == n * Slot(w) && forall p :: 0 <= p < |sreg| ==> sreg[p] == 0
  }

  lemma ZeroedSlot(w: World, n: nat, i: nat, sreg: seq<Byte>)
    requires Jobs(w) && Zeroed(w, n, sreg) && i < n
    ensures SlotIs(w, None, sreg, i, map[])
  {
    SlotsApart(i, 0, n, Slot(w));
    RequestEndsWithSlot(i, true, w.batch, w.len);
  }

  lemma StartRepresents(w: World, n: nat, sreg: seq<Byte>)
    requires Jobs(w) && n >= 1 && Zeroed(w, n, sreg)
    ensures Represents(w, Start(n), sreg, map[])
  {
    var slots := Start(n).slots;
    forall i | 0 <= i < n ensures SlotIs(w, slots[i], sreg, i, map[]) {
      ZeroedSlot(w, n, i, sreg);
    }
  }

  /** The slot at the server's cursor holds the request of the next call in order of acquisition, encoded
      from the client memory of the moment it was written. */
  ghost predicate FindsNext(w: World, s: Ring, sreg: seq<Byte>, mems: Log)
    requires Jobs(w)
  {
    && |s.served| < |s.acquired| && (s.si + 1) * Slot(w) <= |sreg|
    && |s.served| in mems && |mems[|s.served|]| == w.size
    && var p := s.acquired[|s.served|].payload;
       && 0 <= p < |w.jobs|
       && Part(sreg, s.si, w.jobs[p].write, w.batch, w.len) == Request(w.jobs[p], w.len, mems[|s.served|])
  }

  lemma PollFindsNext(w: World, s: Ring, sreg: seq<Byte>, mems: Log)
    requires Jobs(w) && Inv(s) && Known(s, w) && Represents(w, s, sreg, mems)
    requires s.server == Polling && PollAt(s.si, w.batch, w.len) < |sreg| && sreg[PollAt(s.si, w.batch, w.len)] != 0
    ensures FindsNext(w, s, sreg, mems)
  {
    FilledPollsSet(w, s, sreg, mems, s.si);
    ServeFindsNext(s);
    assert SlotIs(w, s.slots[s.si], sreg, s.si, mems);
  }

  // ---- ... in terms of what was asked, queued and encoded in the run ----

  function StepsOf(events: seq<Event>): seq<Step> {
    if events == [] then [] else [events[0].step] + StepsOf(events[1..])
  }

  /** The calls queued, in order, and the client memories from which requests were encoded, in order. */
  function Queued(events: seq<Event>): seq<Call> {
    if events == [] then []
    else (if events[0].step.Enqueue? then [events[0].step.call] else []) + Queued(events[1..])
  }

  function Encoded(events: seq<Event>): seq<seq<Byte>> {
    if events == [] then []
    else (if events[0].step.Write? then [events[0].cmem] else []) + Encoded(events[1..])
  }

  /** How many requests the server has taken. */
  function Serves(events: seq<Event>): nat {
    if events == [] then 0 else (if events[0].step.Serve? then 1 else 0) + Serves(events[1..])
  }

  lemma {:induction false} BytesRun(w: World, s: Ring, sreg: seq<Byte>, mems: Log, events: seq<Event>,
                                    s': Ring, sreg': seq<Byte>, mems': Log)
    requires Jobs(w) && Inv(s) && Known(s, w) && Represents(w, s, sreg, mems)
    requires RunBytes(w, s, sreg, mems, events, s', sreg', mems')
    ensures Run(s, StepsOf(events), s') && |s'.served| == |s.served| + Serves(events)
    decreases |events|
  {
    if events != [] {
      var t, cmem := events[0].step, events[0].cmem;
      StepOnBytes(w, s, t, sreg, mems, cmem);
      BytesRun(w, Next(s, t), NextBytes(w, s, t, sreg, mems, cmem), NextLog(s, t, mems, cmem), events[1..],
               s', sreg', mems');
      assert StepsOf(events)[0] == t && StepsOf(events)[1..] == StepsOf(events[1..]);
    }
  }

  /** The j-th encoding is that of the j-th call queued, which is call `k`. */
  predicate EncodedAs(queued: seq<Call>, encoded: seq<seq<Byte>>, j: nat, k: nat, cmem: seq<Byte>) {
    j < |encoded| && j < |queued| && queued[j].ticket == k && encoded[j] == cmem
  }

  lemma EncodedLater(c: Call, queued: seq<Call>, m: seq<Byte>, encoded: seq<seq<Byte>>, j: nat, k: nat, cmem: seq<Byte>)
    requires EncodedAs(queued, encoded, j, k, cmem)
    ensures EncodedAs([c] + queued, [m] + encoded, j + 1, k, cmem)
  {}

  /** The queue and what is queued later; a write takes the first of them. */
  function Pending(s: Ring, events: seq<Event>): seq<Call> { s.workList + Queued(events) }

  lemma StepPending(s: Ring, t: Step, events: seq<Event>)
    requires Shaped(s) && Enabled(s, t) && events != [] && events[0].step == t
    ensures t.Write? ==>
              && s.workList != []
              && Pending(s, events) == [s.workList[0]] + Pending(Next(s, t), events[1..])
              && Encoded(events) == [events[0].cmem] + Encoded(events[1..])
    ensures !t.Write? ==>
              Pending(s, events) == Pending(Next(s, t), events[1..]) && Encoded(events) == Encoded(events[1..])
  {
    hide Next, Enabled, Shaped, Queued, Encoded;
    WorkListAfter(s, t);
    FirstEvent(events);
    var rest := Queued(events[1..]);
    match t
    case Enqueue(c) => Assoc(s.workList, [c], rest);
    case Write =>
      FirstOut(s.workList, rest);
      NothingFirst(rest);
    case _ =>
      NothingFirst(rest);
      NothingFirst(Encoded(events[1..]));
  }

  lemma FirstEvent(events: seq<Event>)
    requires events != []
    ensures Queued(events) == (if events[0].step.Enqueue? then [events[0].step.call] else []) + Queued(events[1..])
    ensures Encoded(events) == (if events[0].step.Write? then [events[0].cmem] else []) + Encoded(events[1..])
  {}

  lemma WorkListAfter(s: Ring, t: Step)
    requires Shaped(s) && Enabled(s, t)
    ensures t.Write? ==> s.workList != []
    ensures Next(s, t).workList == match t
      case Enqueue(c) => s.workList + [c]
      case Write => s.workList[1..]
      case _ => s.workList
  {}

  ghost predicate IsEncoded(queued: seq<Call>, encoded: seq<seq<Byte>>, k: nat, cmem: seq<Byte>) {
    exists j :: EncodedAs(queued, encoded, j, k, cmem)
  }

  lemma FirstEncoded(c: Call, queued: seq<Call>, m: seq<Byte>, encoded: seq<seq<Byte>>)
    ensures IsEncoded([c] + queued, [m] + encoded, c.ticket, m)
  {
    assert EncodedAs([c] + queued, [m] + encoded, 0, c.ticket, m);
  }

  lemma StillEncoded(c: Call, queued: seq<Call>, m: seq<Byte>, encoded: seq<seq<Byte>>, k: nat, cmem: seq<Byte>)
    requires IsEncoded(queued, encoded, k, cmem)
    ensures IsEncoded([c] + queued, [m] + encoded, k, cmem)
  {
    var j :| EncodedAs(queued, encoded, j, k, cmem);
    EncodedLater(c, queued, m, encoded, j, k, cmem);
  }

  /** What the log holds for a call was encoded when its turn in the queue came. */
  lemma {:induction false} EncodesInQueueOrder(w: World, s: Ring, sreg: seq<Byte>, mems: Log, events: seq<Event>,
                                               s': Ring, sreg': seq<Byte>, mems': Log, k: nat)
    requires Jobs(w) && Inv(s) && Known(s, w) && Represents(w, s, sreg, mems)
    requires RunBytes(w, s, sreg, mems, events, s', sreg', mems') && k in mems'
    ensures (k in mems && mems'[k] == mems[k]) || IsEncoded(Pending(s, events), Encoded(events), k, mems'[k])
    decreases |events|
  {
    if events != [] {
      var t, cmem := events[0].step, events[0].cmem;
      InvShaped(s);
      StepOnBytes(w, s, t, sreg, mems, cmem);
      StepPending(s, t, events);
      var log := NextLog(s, t, mems, cmem);
      EncodesInQueueOrder(w, Next(s, t), NextBytes(w, s, t, sreg, mems, cmem), log, events[1..], s', sreg', mems', k);
      hide Inv, Represents, Known, Pending, Encoded, IsEncoded, Next, Enabled, RunBytes, NextBytes;
      if t.Write? {
        var later, ms := Pending(Next(s, t), events[1..]), Encoded(events[1..]);
        if k in log && mems'[k] == log[k] {
          if k == s.workList[0].ticket { FirstEncoded(s.workList[0], later, cmem, ms); }
        } else {
          StillEncoded(s.workList[0], later, cmem, ms, k, mems'[k]);
        }
      }
    }
  }

  /** The slot at the server's cursor, read by position, carries the job the next acquiring step asked for,
      as the client memory was when that call's turn to be encoded came. */
  ghost predicate FindsAsked(w: World, events: seq<Event>, slot: nat, sreg: seq<Byte>)
    requires Jobs(w)
  {
    var asked, k := Asked(StepsOf(events)), Serves(events);
    && k < |asked| && 0 <= asked[k] < |w.jobs| && (slot + 1) * Slot(w) <= |sreg|
    && var job := w.jobs[asked[k]];
       exists cmem ::
         && IsEncoded(Queued(events), Encoded(events), k, cmem) && |cmem| == w.size
         && Carries(Part(sreg, slot, job.write, w.batch, w.len), job, w.len, cmem)
  }

  /** In every run over a zeroed region of any number of slots, for any batch and size, while the callers
      change the client memory at will: when the server's poll succeeds, the slot holds, byte for byte, the
      request of the job that the next acquiring step asked for, as it was when the worker encoded it. */
  lemma ServerReadsNextRequest(w: World, n: nat, sreg: seq<Byte>, events: seq<Event>, s: Ring, sreg': seq<Byte>,
                               mems: Log)
    requires Jobs(w) && n >= 1 && Zeroed(w, n, sreg)
    requires (StartInv(n); StartRepresents(w, n, sreg); RunBytes(w, Start(n), sreg, map[], events, s, sreg', mems))
    requires s.server == Polling && PollAt(s.si, w.batch, w.len) < |sreg'| && sreg'[PollAt(s.si, w.batch, w.len)] != 0
    ensures s.si == Serves(events) % n && FindsAsked(w, events, s.si, sreg')
  {
    StartInv(n);
    StartRepresents(w, n, sreg);
    RunRepresents(w, Start(n), sreg, map[], events, s, sreg', mems);
    BytesRun(w, Start(n), sreg, map[], events, s, sreg', mems);
    PollFindsNext(w, s, sreg', mems);
    EncodesInQueueOrder(w, Start(n), sreg, map[], events, s, sreg', mems, |s.served|);
    FindsNextIsAsked(w, n, events, s, sreg', mems);
  }

  lemma FindsNextIsAsked(w: World, n: nat, events: seq<Event>, s: Ring, sreg: seq<Byte>, mems: Log)
    requires Jobs(w) && FindsNext(w, s, sreg, mems) && Run(Start(n), StepsOf(events), s)
    requires |s.served| == Serves(events)
    requires IsEncoded(Pending(Start(n), events), Encoded(events), |s.served|, mems[|s.served|])
    ensures FindsAsked(w, events, s.si, sreg)
  {
    hide Carries, Part, Request, Asked, Queued, Encoded, Run, IsEncoded;
    var k := |s.served|;
    RunAcquiresWhatWasAsked(Start(n), StepsOf(events), s);
    assert Pending(Start(n), events) == Queued(events) && Payloads(s.acquired) == Asked(StepsOf(events));
    assert Asked(StepsOf(events))[k] == s.acquired[k].payload;
    RequestCarries(w.jobs[s.acquired[k].payload], w.len, mems[k]);
  }

  // ---- The client's own buffers ----

  /** Bytes of the client's buffer for one request, and of its share of the reply region: room for one entry. */
  function ClientSlot(len: nat): nat { 26 + len }

  /** The request of every batch fits the client's buffer exactly when the batch is a single operation. */
  lemma LocalBufferFits(write: bool, batch: nat, len: nat)
    ensures PostedSize(write, batch, len) <= ClientSlot(len) <==> batch <= 1 || (!write && 24 * (batch - 1) <= len)
  {
    if batch > 1 {
      assert batch * (24 + len) == (24 + len) + (batch - 1) * (24 + len);
      MulMono(1, batch - 1, 24 + len);
    }
  }

  /** The reply flag of every slot lies in the client's reply region exactly in these cases. */
  lemma ReplyFlagsFit(n: nat, batch: nat, len: nat)
    requires n >= 1
    ensures (forall i :: 0 <= i < n ==> i * SlotSize(batch, len) < n * ClientSlot(len))
            <==> batch <= 1 || n == 1 || (n == 2 && batch == 2)
  {
    var b := SlotSize(batch, len);
    if batch <= 1 || n == 1 || (n == 2 && batch == 2) {
      forall i | 0 <= i < n ensures i * b < n * ClientSlot(len) {
        LastFlag(n, batch, len);
        MulMono(i, n - 1, b);
      }
    } else {
      LastFlag(n, batch, len);
      var last := n - 1;
      assert !(last * b < n * ClientSlot(len));
    }
  }

  lemma LastFlag(n: nat, batch: nat, len: nat)
    requires n >= 1
    ensures (n - 1) * SlotSize(batch, len) < n * ClientSlot(len) <==> batch <= 1 || n == 1 || (n == 2 && batch == 2)
  {
    var c := 24 + len;
    assert n * (c + 2) == (n - 1) * (c + 2) + (c + 2);
    if batch <= 1 {
      MulMono(batch, 1, c);
      MulMono(SlotSize(batch, len), c + 2, n - 1);
      assert (n - 1) * SlotSize(batch, len) == SlotSize(batch, len) * (n - 1);
    } else if n == 2 {
      MulMono(3, batch, c);
      assert c * batch == batch * c;
    } else if n > 2 {
      MulMono(2, batch, c);
      assert c * batch == batch * c;
      MulMono(2 * c + 2, SlotSize(batch, len), n - 1);
      assert SlotSize(batch, len) * (n - 1) == (n - 1) * SlotSize(batch, len);
      assert (2 * c + 2) * (n - 1) == (n - 1) * (c + 2) + (n - 1) * c;
      MulMono(2, n - 1, c);
    }
  }
}
