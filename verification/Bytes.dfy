/** Byte buffers: little-endian numbers, and copying a block into a buffer. */
module Bytes {
  type Byte = x: int | 0 <= x < 256

  const WORD := 0x1_0000_0000_0000_0000

  /** An address or a size, as the eight bytes of a machine word. */
  type Word = x: int | 0 <= x < WORD

  function Power(k: nat): nat { if k == 0 then 1 else 256 * Power(k - 1) }

  function Digits(v: nat, k: nat): (d: seq<Byte>)
    ensures |d| == k
  {
    if k == 0 then [] else [v % 256] + Digits(v / 256, k - 1)
  }

  function Number(d: seq<Byte>): nat { if d == [] then 0 else d[0] + 256 * Number(d[1..]) }

  lemma {:induction false} NumberOfDigits(v: nat, k: nat)
    requires v < Power(k)
    ensures Number(Digits(v, k)) == v
  {
    if k > 0 { NumberOfDigits(v / 256, k - 1); }
  }

  function Enc(v: Word): (d: seq<Byte>)
    ensures |d| == 8 && Number(d) == v
  {
    assert Power(8) == WORD;
    NumberOfDigits(v, 8);
    Digits(v, 8)
  }

  /** `m` with the block `d` copied in at `off`. */
  function Splice(m: seq<Byte>, off: nat, d: seq<Byte>): (r: seq<Byte>)
    requires off + |d| <= |m|
    ensures |r| == |m|
  {
    m[..off] + d + m[off + |d|..]
  }

  lemma SpliceReads(m: seq<Byte>, off: nat, d: seq<Byte>)
    requires off + |d| <= |m|
    ensures Splice(m, off, d)[off..off + |d|] == d
    ensures forall k :: 0 <= k < |m| ==>
              Splice(m, off, d)[k] == if off <= k < off + |d| then d[k - off] else m[k]
  {}

  lemma SpliceJoin(m: seq<Byte>, off: nat, d: seq<Byte>, e: seq<Byte>)
    requires off + |d| + |e| <= |m|
    ensures Splice(Splice(m, off, d), off + |d|, e) == Splice(m, off, d + e)
  {}

  lemma SpliceNothing(m: seq<Byte>, off: nat)
    requires off <= |m|
    ensures Splice(m, off, []) == m
  {}

  lemma Regroup(a: seq<Byte>, b: seq<Byte>, c: seq<Byte>)
    ensures (a + b) + c == a + (b + c)
  {}

  lemma TakeDrop(a: seq<Byte>, b: seq<Byte>)
    ensures (a + b)[..|a|] == a && (a + b)[|a|..] == b
  {}

  /** Slicing what follows position `k` is slicing from `k` on. */
  lemma Slices(s: seq<Byte>, k: nat, n: nat)
    requires k + n <= |s|
    ensures s[k..][..n] == s[k..k + n] && s[k..][n..] == s[k + n..]
  {}

  /** memcpy into a buffer. */
  method Copy(buf: array<Byte>, off: nat, d: seq<Byte>)
    requires off + |d| <= buf.Length
    modifies buf
    ensures buf[..] == Splice(old(buf[..]), off, d)
  {
    var i := 0;
    while i < |d|
      invariant 0 <= i <= |d|
      invariant buf[..] == Splice(old(buf[..]), off, d[..i])
    {
      buf[off + i] := d[i];
      i := i + 1;
      assert d[..i] == d[..i - 1] + [d[i - 1]];
    }
    assert d[..i] == d;
  }

  /** memcpy of a block that only one direction carries. */
  method CopyIf(buf: array<Byte>, at: nat, wanted: bool, src: array<Byte>, from: nat, len: nat) returns (end: nat)
    requires buf != src && from + len <= src.Length && at + (if wanted then len else 0) <= buf.Length
    modifies buf
    ensures end == at + if wanted then len else 0
    ensures buf[..] == Splice(old(buf[..]), at, if wanted then src[..][from..from + len] else [])
  {
    end := at;
    if wanted {
      assert src[from..from + len] == src[..][from..from + len];
      Copy(buf, at, src[from..from + len]);
      end := at + len;
    } else {
      SpliceNothing(buf[..], at);
    }
  }
}
