/** What a batch of reads or writes means: blocks of one memory copied into another, in order. */
module Copies {
  import opened Bytes

  /** One operation of a batch: a server address and a client address. */
  datatype Req = Req(server: Word, client: Word)

  /** An operation as both batch formats carry it. */
  function Header(r: Req, len: Word): (d: seq<Byte>)
    ensures |d| == 24
  {
    Enc(r.server) + Enc(r.client) + Enc(len)
  }

  /** Bytes of one entry: the header, and the data where the entry carries it. */
  function Stride(carries: bool, len: nat): nat { 24 + if carries then len else 0 }

  ghost predicate ClientFits(reqs: seq<Req>, len: nat, clientSize: nat) {
    forall i :: 0 <= i < |reqs| ==> reqs[i].client + len <= clientSize
  }

  /** A copy from `src` to `dst`. */
  datatype Move = Move(dst: nat, src: nat)

  function ToServer(reqs: seq<Req>): (m: seq<Move>)
    ensures |m| == |reqs|
  {
    seq(|reqs|, i requires 0 <= i < |reqs| => Move(reqs[i].server, reqs[i].client))
  }

  function ToClient(reqs: seq<Req>): (m: seq<Move>)
    ensures |m| == |reqs|
  {
    seq(|reqs|, i requires 0 <= i < |reqs| => Move(reqs[i].client, reqs[i].server))
  }

  ghost predicate Fit(moves: seq<Move>, len: nat, dstSize: nat, srcSize: nat) {
    forall i :: 0 <= i < |moves| ==> moves[i].dst + len <= dstSize && moves[i].src + len <= srcSize
  }

  ghost predicate InRange(reqs: seq<Req>, len: nat, serverSize: nat, clientSize: nat) {
    forall i :: 0 <= i < |reqs| ==> reqs[i].server + len <= serverSize && reqs[i].client + len <= clientSize
  }

  /** The moves applied in order. */
  ghost function CopyAll(dst: seq<Byte>, src: seq<Byte>, moves: seq<Move>, len: nat): (r: seq<Byte>)
    requires Fit(moves, len, |dst|, |src|)
    ensures |r| == |dst|
    decreases |moves|
  {
    if moves == [] then dst
    else
      var m := moves[0];
      CopyAll(Splice(dst, m.dst, src[m.src..m.src + len]), src, moves[1..], len)
  }

  predicate Covers(m: Move, len: nat, p: nat) { m.dst <= p < m.dst + len }

  ghost predicate CoversNone(moves: seq<Move>, from: nat, len: nat, p: nat) {
    forall j :: from <= j < |moves| ==> !Covers(moves[j], len, p)
  }

  lemma CoversNoneRest(moves: seq<Move>, from: nat, len: nat, p: nat)
    requires moves != [] && CoversNone(moves, from + 1, len, p)
    ensures CoversNone(moves[1..], from, len, p)
  {
    forall j | from <= j < |moves[1..]| ensures !Covers(moves[1..][j], len, p) { assert moves[1..][j] == moves[j + 1]; }
  }

  /** An uncovered byte is untouched. */
  lemma {:induction false} CopyAllUncovered(dst: seq<Byte>, src: seq<Byte>, moves: seq<Move>, len: nat, p: nat)
    requires Fit(moves, len, |dst|, |src|) && p < |dst| && CoversNone(moves, 0, len, p)
    ensures CopyAll(dst, src, moves, len)[p] == dst[p]
    decreases |moves|
  {
    if moves != [] {
      var m := moves[0];
      assert !Covers(m, len, p);
      SpliceReads(dst, m.dst, src[m.src..m.src + len]);
      CoversNoneRest(moves, 0, len, p);
      CopyAllUncovered(Splice(dst, m.dst, src[m.src..m.src + len]), src, moves[1..], len, p);
    }
  }

  lemma FirstMove(dst: seq<Byte>, src: seq<Byte>, moves: seq<Move>, len: nat) returns (dst': seq<Byte>)
    requires Fit(moves, len, |dst|, |src|) && moves != []
    ensures |dst'| == |dst| && Fit(moves[1..], len, |dst|, |src|)
    ensures moves[0].src + len <= |src| && moves[0].dst + len <= |dst|
    ensures CopyAll(dst, src, moves, len) == CopyAll(dst', src, moves[1..], len)
    ensures forall p :: moves[0].dst <= p < moves[0].dst + len ==> dst'[p] == src[moves[0].src + (p - moves[0].dst)]
  {
    dst' := Splice(dst, moves[0].dst, src[moves[0].src..moves[0].src + len]);
    SpliceReads(dst, moves[0].dst, src[moves[0].src..moves[0].src + len]);
  }

  /** Byte by byte: the last move that covers a position decides it. */
  lemma {:induction false} CopyAllLastWins(dst: seq<Byte>, src: seq<Byte>, moves: seq<Move>, len: nat, p: nat, i: nat)
    requires Fit(moves, len, |dst|, |src|) && p < |dst|
    requires i < |moves| && Covers(moves[i], len, p) && CoversNone(moves, i + 1, len, p)
    ensures CopyAll(dst, src, moves, len)[p] == src[moves[i].src + (p - moves[i].dst)]
    decreases |moves|
  {
    var dst' := FirstMove(dst, src, moves, len);
    CoversNoneRest(moves, i, len, p);
    hide CopyAll, CoversNone;
    if i == 0 {
      CopyAllUncovered(dst', src, moves[1..], len, p);
    } else {
      assert moves[1..][i - 1] == moves[i];
      CopyAllLastWins(dst', src, moves[1..], len, p, i - 1);
    }
  }

  ghost predicate Disjoint(moves: seq<Move>, len: nat) {
    forall j, k :: 0 <= j < k < |moves| ==>
      moves[j].dst + len <= moves[k].dst || moves[k].dst + len <= moves[j].dst
  }

  /** With destinations that do not overlap, every destination ends up holding its source block, byte for byte. */
  lemma CopyAllDisjoint(dst: seq<Byte>, src: seq<Byte>, moves: seq<Move>, len: nat, i: nat, p: nat)
    requires Fit(moves, len, |dst|, |src|) && Disjoint(moves, len) && i < |moves| && Covers(moves[i], len, p)
    ensures CopyAll(dst, src, moves, len)[p] == src[moves[i].src + (p - moves[i].dst)]
  {
    forall j | i < j < |moves| ensures !Covers(moves[j], len, p) {}
    CopyAllLastWins(dst, src, moves, len, p, i);
  }

  lemma ServerMoves(reqs: seq<Req>)
    requires reqs != []
    ensures ToServer(reqs)[0] == Move(reqs[0].server, reqs[0].client) && ToServer(reqs)[1..] == ToServer(reqs[1..])
    ensures ToClient(reqs)[0] == Move(reqs[0].client, reqs[0].server) && ToClient(reqs)[1..] == ToClient(reqs[1..])
  {}
}
