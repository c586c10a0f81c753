/** MurmurHash3 (x86, 32 bit): the loop over aligned blocks, the tail and the finaliser, and the
    keys it can never confuse, because each of its steps can be undone. Words are numbers below
    2^32; shifts, rotations and products are written as arithmetic modulo 2^32. */
module Murmur {
  import opened Modular
  import opened Shifts

  const M := 0x1_0000_0000
  const TABLE_SIZE := 251

  type Byte = x: int | 0 <= x < 256
  type Word = x: int | 0 <= x < M

  /** Bitwise exclusive or. */
  function Xor(x: nat, y: nat): nat {
    if x == 0 && y == 0 then 0 else 2 * Xor(x / 2, y / 2) + if x % 2 == y % 2 then 0 else 1
  }

  function XorWord(x: Word, y: Word): Word {
    XorInWord(x, y);
    Xor(x, y)
  }

  function Rotl15(x: Word): Word { x % 0x20000 * 0x8000 + x / 0x20000 }

  function Rotl13(x: Word): Word { x % 0x80000 * 0x2000 + x / 0x80000 }

  function MulC1(x: Word): Word { x * 0xcc9e2d51 % M }

  function MulC2(x: Word): Word { x * 0x1b873593 % M }

  function MulF1(x: Word): Word { x * 0x85ebca6b % M }

  function MulF2(x: Word): Word { x * 0xc2b2ae35 % M }

  function Step5(x: Word): Word { (x * 5 + 0xe6546b64) % M }

  function Shift16(x: Word): Word { XorWord(x, x / 0x10000) }

  function Shift13(x: Word): Word { XorWord(x, x / 0x2000) }

  function Fmix(h: Word): Word { Shift16(MulF2(Shift13(MulF1(Shift16(h))))) }

  function Mix(k: Word): Word { MulC2(Rotl15(MulC1(k))) }

  function Round(h: Word, k: Word): Word { Step5(Rotl13(XorWord(h, Mix(k)))) }

  /** Four bytes as the little-endian word the block read yields. */
  function Pack(b0: Byte, b1: Byte, b2: Byte, b3: Byte): Word {
    b0 + 0x100 * (b1 + 0x100 * (b2 + 0x100 * b3))
  }

  function Block(key: seq<Byte>, i: nat): Word
    requires 4 * i + 4 <= |key|
  {
    Pack(key[4 * i], key[4 * i + 1], key[4 * i + 2], key[4 * i + 3])
  }

  /** The state after the first `n` blocks. */
  function Body(key: seq<Byte>, n: nat): Word
    requires 4 * n <= |key|
  {
    if n == 0 then 0 else Round(Body(key, n - 1), Block(key, n - 1))
  }

  /** The one to three bytes after the last block, zero beyond the key. */
  function TailByte(key: seq<Byte>, i: nat): Byte {
    var t := |key| - |key| % 4;
    if i < |key| % 4 then key[t + i] else 0
  }

  function TailWord(key: seq<Byte>): Word {
    Pack(TailByte(key, 0), TailByte(key, 1), TailByte(key, 2), 0)
  }

  /** Everything mixed in before the length and the finaliser. */
  function Mixed(key: seq<Byte>): Word { XorWord(Body(key, |key| / 4), Mix(TailWord(key))) }

  function Hash(key: seq<Byte>): Word { Fmix(XorWord(Mixed(key), |key| % M)) }

  // ---- Exclusive or ----

  lemma XorStep(x: nat, y: nat)
    ensures Xor(x, y) / 2 == Xor(x / 2, y / 2)
    ensures Xor(x, y) % 2 == if x % 2 == y % 2 then 0 else 1
  {}

  lemma {:induction false} XorBelow(x: nat, y: nat, k: nat)
    requires x < Double(1, k) && y < Double(1, k)
    ensures Xor(x, y) < Double(1, k)
  {
    if k > 0 {
      XorBelow(x / 2, y / 2, k - 1);
      XorStep(x, y);
    }
  }

  /** Exclusive or is undone by itself. */
  lemma {:induction false} XorUndo(x: nat, z: nat)
    ensures Xor(Xor(x, z), z) == x
    decreases x + z
  {
    if x > 0 || z > 0 {
      XorUndo(x / 2, z / 2);
      XorStep(x, z);
      XorStep(Xor(x, z), z);
    }
  }

  lemma {:induction false} XorSymmetric(x: nat, y: nat)
    ensures Xor(x, y) == Xor(y, x)
    decreases x + y
  {
    if x > 0 || y > 0 { XorSymmetric(x / 2, y / 2); }
  }

  lemma {:induction false} XorZero(x: nat)
    ensures Xor(x, 0) == Xor(0, x) == x
  {
    XorSymmetric(x, 0);
    if x > 0 { XorZero(x / 2); }
  }

  lemma XorInjective(x: nat, y: nat, z: nat)
    requires Xor(x, z) == Xor(y, z) || Xor(z, x) == Xor(z, y)
    ensures x == y
  {
    XorSymmetric(x, z);
    XorSymmetric(y, z);
    XorUndo(x, z);
    XorUndo(y, z);
  }

  /** A shift to the right goes through an exclusive or. */
  lemma {:induction false} XorHalve(x: nat, y: nat, k: nat)
    ensures Halve(Xor(x, y), k) == Xor(Halve(x, k), Halve(y, k))
    decreases k
  {
    if k > 0 {
      XorStep(x, y);
      XorHalve(x / 2, y / 2, k - 1);
    }
  }

  /** Exclusive or of numbers with no bit in common is their sum. */
  lemma {:induction false} XorDisjoint(high: nat, low: nat, k: nat)
    requires low < Double(1, k)
    ensures Xor(Double(high, k), low) == Double(high, k) + low
    decreases k
  {
    if k == 0 {
      XorZero(high);
    } else {
      XorDisjoint(high, low / 2, k - 1);
      XorStep(Double(high, k), low);
    }
  }

  lemma {:induction false} HalveTwice(x: nat, j: nat, k: nat)
    ensures Halve(Halve(x, j), k) == Halve(x, j + k)
    decreases j
  {
    if j > 0 { HalveTwice(x / 2, j - 1, k); }
  }

  lemma {:induction false} DoubleTwice(x: nat, j: nat, k: nat)
    ensures Double(Double(x, j), k) == Double(x, j + k)
    decreases k
  {
    if k > 0 { DoubleTwice(x, j, k - 1); }
  }

  lemma HalveByFour(x: nat)
    ensures Halve(x, 1) == x / 2 && Halve(x, 4) == x / 16
  {
    assert Halve(x, 4) == Halve(x / 2, 3) == Halve(x / 2 / 2, 2) == Halve(x / 2 / 2 / 2, 1);
  }

  lemma HalveByEight(x: nat)
    ensures Halve(x, 8) == x / 0x100
  {
    HalveByFour(x);
    HalveByFour(x / 16);
    HalveTwice(x, 4, 4);
  }

  lemma HalveByShift(x: nat)
    ensures Halve(x, 16) == x / 0x10000 && Halve(x, 13) == x / 0x2000
  {
    HalveByEight(x);
    HalveByEight(x / 0x100);
    HalveByFour(x / 0x100);
    HalveByFour(x / 0x1000);
    HalveTwice(x, 8, 8);
    HalveTwice(x, 8, 4);
    HalveTwice(x, 12, 1);
    assert x / 0x100 / 0x10 == x / 0x1000;
  }

  lemma DoubleByShift(x: nat)
    ensures Double(x, 8) == x * 0x100 && Double(x, 16) == x * 0x10000
  {
    assert forall y: nat :: Double(y, 4) == 2 * Double(y, 3) == 4 * Double(y, 2) == 8 * Double(y, 1) == 16 * y;
    DoubleTwice(x, 4, 4);
    DoubleTwice(x, 8, 4);
    DoubleTwice(x, 12, 4);
  }

  lemma XorInWord(x: Word, y: Word)
    ensures Xor(x, y) < M
  {
    XorHalve(x, y, 16);
    HalveByShift(x);
    HalveByShift(y);
    HalveByShift(Xor(x, y));
    DoubleByShift(1);
    XorBelow(x / 0x10000, y / 0x10000, 16);
  }

  // ---- Every step can be undone ----

  lemma Distribute(a: int, b: int, c: int)
    ensures (a + b) * c == c * (a + b) == a * c + b * c
  {}

  lemma ModUnique(n: int, x: Word, k: int)
    requires n == x + M * k
    ensures n % M == x
  {}

  lemma MulUndo(x: Word, c: nat, d: nat, t: nat)
    requires c * d == 1 + M * t
    ensures x * c % M * d % M == x
  {
    var q, r := x * c / M, x * c % M;
    Distribute(M * q, r, d);
    assert M * q * d == M * (q * d);
    assert x * c * d == x * (c * d);
    Distribute(1, M * t, x);
    assert x * (M * t) == M * (x * t);
    ModUnique(r * d, x, x * t - q * d);
  }

  lemma MulC1Injective(x: Word, y: Word)
    requires MulC1(x) == MulC1(y)
    ensures x == y
  {
    MulUndo(x, 0xcc9e2d51, 0xdee13bb1, 2988782088);
    MulUndo(y, 0xcc9e2d51, 0xdee13bb1, 2988782088);
  }

  lemma MulC2Injective(x: Word, y: Word)
    requires MulC2(x) == MulC2(y)
    ensures x == y
  {
    MulUndo(x, 0x1b873593, 0x56ed309b, 156822886);
    MulUndo(y, 0x1b873593, 0x56ed309b, 156822886);
  }

  lemma MulF1Injective(x: Word, y: Word)
    requires MulF1(x) == MulF1(y)
    ensures x == y
  {
    MulUndo(x, 0x85ebca6b, 0xa5cb9243, 1455126516);
    MulUndo(y, 0x85ebca6b, 0xa5cb9243, 1455126516);
  }

  lemma MulF2Injective(x: Word, y: Word)
    requires MulF2(x) == MulF2(y)
    ensures x == y
  {
    MulUndo(x, 0xc2b2ae35, 0x7ed1b41d, 1618177690);
    MulUndo(y, 0xc2b2ae35, 0x7ed1b41d, 1618177690);
  }

  lemma Step5Injective(x: Word, y: Word)
    requires Step5(x) == Step5(y)
    ensures x == y
  {
    SumsUnique(x * 5, y * 5, 0xe6546b64);
    MulUndo(x, 5, 0xcccccccd, 4);
    MulUndo(y, 5, 0xcccccccd, 4);
  }

  lemma DigitsUnique(a: nat, x: nat, b: nat, y: nat, base: nat)
    requires a < base && b < base && base * x + a == base * y + b
    ensures a == b && x == y
  {
    MulMono(x + 1, y, base);
    MulMono(y + 1, x, base);
  }

  lemma SumsUnique(u: nat, v: nat, c: nat)
    requires (u + c) % M == (v + c) % M
    ensures u % M == v % M
  {
    var q, r := (u + c) / M, (v + c) / M;
    assert u - v == M * (q - r);
  }

  lemma Rotl15Injective(x: Word, y: Word)
    requires Rotl15(x) == Rotl15(y)
    ensures x == y
  {
    DigitsUnique(x / 0x20000, x % 0x20000, y / 0x20000, y % 0x20000, 0x8000);
  }

  lemma Rotl13Injective(x: Word, y: Word)
    requires Rotl13(x) == Rotl13(y)
    ensures x == y
  {
    DigitsUnique(x / 0x80000, x % 0x80000, y / 0x80000, y % 0x80000, 0x2000);
  }

  lemma Shift16Injective(x: Word, y: Word)
    requires Shift16(x) == Shift16(y)
    ensures x == y
  {
    var a, b := x / 0x10000, y / 0x10000;
    HalveByShift(x);
    HalveByShift(y);
    HalveByShift(a);
    HalveByShift(b);
    XorHalve(x, a, 16);
    XorHalve(y, b, 16);
    XorInjective(a, b, 0);
    XorInjective(x, y, a);
  }

  lemma Shift13Injective(x: Word, y: Word)
    requires Shift13(x) == Shift13(y)
    ensures x == y
  {
    var a, b := x / 0x2000, y / 0x2000;
    var c, d := a / 0x2000, b / 0x2000;
    HalveByShift(x);
    HalveByShift(y);
    HalveByShift(a);
    HalveByShift(b);
    HalveByShift(c);
    HalveByShift(d);
    XorHalve(x, a, 13);
    XorHalve(y, b, 13);
    XorHalve(a, c, 13);
    XorHalve(b, d, 13);
    XorInjective(c, d, 0);
    XorInjective(a, b, c);
    XorInjective(x, y, a);
  }

  lemma PackInjective(a0: Byte, a1: Byte, a2: Byte, a3: Byte, b0: Byte, b1: Byte, b2: Byte, b3: Byte)
    requires Pack(a0, a1, a2, a3) == Pack(b0, b1, b2, b3)
    ensures a0 == b0 && a1 == b1 && a2 == b2 && a3 == b3
  {
    DigitsUnique(a0, a1 + 0x100 * (a2 + 0x100 * a3), b0, b1 + 0x100 * (b2 + 0x100 * b3), 0x100);
    DigitsUnique(a1, a2 + 0x100 * a3, b1, b2 + 0x100 * b3, 0x100);
    DigitsUnique(a2, a3, b2, b3, 0x100);
  }

  lemma MixInjective(x: Word, y: Word)
    requires Mix(x) == Mix(y)
    ensures x == y
  {
    MulC2Injective(Rotl15(MulC1(x)), Rotl15(MulC1(y)));
    Rotl15Injective(MulC1(x), MulC1(y));
    MulC1Injective(x, y);
  }

  /** A round loses nothing: neither the state, for a given block, nor the block, for a given state. */
  lemma RoundInjective(h: Word, k: Word, h': Word, k': Word)
    requires Round(h, k) == Round(h', k')
    ensures h == h' <==> k == k'
  {
    var x, y := XorWord(h, Mix(k)), XorWord(h', Mix(k'));
    Step5Injective(Rotl13(x), Rotl13(y));
    Rotl13Injective(x, y);
    if h == h' {
      XorInjective(Mix(k), Mix(k'), h);
      MixInjective(k, k');
    }
    if k == k' {
      XorInjective(h, h', Mix(k));
    }
  }

  lemma FmixInjective(x: Word, y: Word)
    requires Fmix(x) == Fmix(y)
    ensures x == y
  {
    var a, b := MulF1(Shift16(x)), MulF1(Shift16(y));
    Shift16Injective(MulF2(Shift13(a)), MulF2(Shift13(b)));
    MulF2Injective(Shift13(a), Shift13(b));
    Shift13Injective(a, b);
    MulF1Injective(Shift16(x), Shift16(y));
    Shift16Injective(x, y);
  }

  // ---- Keys that never collide ----

  lemma SameBlock(a: seq<Byte>, b: seq<Byte>, i: nat)
    requires |a| == |b| && 4 * i + 4 <= |a| && forall k :: 4 * i <= k < 4 * i + 4 ==> a[k] == b[k]
    ensures Block(a, i) == Block(b, i)
  {}

  lemma BodyStep(key: seq<Byte>, n: nat)
    requires 0 < n && 4 * n <= |key|
    ensures Body(key, n) == Round(Body(key, n - 1), Block(key, n - 1))
  {}

  /** A difference in the state survives every further equal block. */
  lemma {:induction false} DifferenceSurvives(a: seq<Byte>, b: seq<Byte>, m: nat, n: nat)
    requires |a| == |b| && m <= n && 4 * n <= |a| && Body(a, m) != Body(b, m)
    requires forall k :: 4 * m <= k < 4 * n ==> a[k] == b[k]
    ensures Body(a, n) != Body(b, n)
    decreases n
  {
    hide Body, Block, Round;
    if m < n {
      DifferenceSurvives(a, b, m, n - 1);
      SameBlock(a, b, n - 1);
      BodyStep(a, n);
      BodyStep(b, n);
      if Body(a, n) == Body(b, n) {
        RoundInjective(Body(a, n - 1), Block(a, n - 1), Body(b, n - 1), Block(b, n - 1));
      }
    }
  }

  lemma {:induction false} EqualBlocksEqualBody(a: seq<Byte>, b: seq<Byte>, n: nat)
    requires 4 * n <= |a| && 4 * n <= |b| && a[..4 * n] == b[..4 * n]
    ensures Body(a, n) == Body(b, n)
  {
    if n > 0 {
      forall k | 0 <= k < 4 * n ensures a[k] == b[k] {
        assert a[k] == a[..4 * n][k] && b[k] == b[..4 * n][k];
      }
      assert a[..4 * (n - 1)] == b[..4 * (n - 1)];
      EqualBlocksEqualBody(a, b, n - 1);
    }
  }

  lemma BlockDecides(a: seq<Byte>, b: seq<Byte>, j: nat)
    requires |a| == |b| && 4 * j + 4 <= |a| && Block(a, j) == Block(b, j)
    requires a[..4 * j] == b[..4 * j] && a[4 * j + 4..] == b[4 * j + 4..]
    ensures a == b
  {
    PackInjective(a[4 * j], a[4 * j + 1], a[4 * j + 2], a[4 * j + 3], b[4 * j], b[4 * j + 1], b[4 * j + 2],
        b[4 * j + 3]);
    assert a == a[..4 * j] + [a[4 * j], a[4 * j + 1], a[4 * j + 2], a[4 * j + 3]] + a[4 * j + 4..];
    assert b == b[..4 * j] + [b[4 * j], b[4 * j + 1], b[4 * j + 2], b[4 * j + 3]] + b[4 * j + 4..];
  }

  lemma TailDecides(a: seq<Byte>, b: seq<Byte>)
    requires |a| == |b| && TailWord(a) == TailWord(b)
    requires a[..|a| - |a| % 4] == b[..|a| - |a| % 4]
    ensures a == b
  {
    var t := |a| - |a| % 4;
    PackInjective(TailByte(a, 0), TailByte(a, 1), TailByte(a, 2), 0, TailByte(b, 0), TailByte(b, 1), TailByte(b, 2), 0);
    forall k | t <= k < |a| ensures a[k] == b[k] {
      assert a[k] == TailByte(a, k - t) && b[k] == TailByte(b, k - t);
    }
    assert a == a[..t] + a[t..] && b == b[..t] + b[t..];
  }

  lemma SameAfter(a: seq<Byte>, b: seq<Byte>, t: nat)
    requires |a| == |b| && t <= |a| && a[t..] == b[t..]
    ensures forall k :: t <= k < |a| ==> a[k] == b[k]
  {
    forall k | t <= k < |a| ensures a[k] == b[k] {
      assert a[k] == a[t..][k - t] && b[k] == b[t..][k - t];
    }
  }

  /** After the one block in which they differ, the states differ. */
  lemma BlockDiffers(a: seq<Byte>, b: seq<Byte>, j: nat)
    requires |a| == |b| && 4 * j + 4 <= |a| && a != b
    requires a[..4 * j] == b[..4 * j] && a[4 * j + 4..] == b[4 * j + 4..]
    ensures Body(a, j + 1) != Body(b, j + 1)
  {
    EqualBlocksEqualBody(a, b, j);
    if Block(a, j) == Block(b, j) { BlockDecides(a, b, j); }
    hide Block;
    if Body(a, j + 1) == Body(b, j + 1) { RoundInjective(Body(a, j), Block(a, j), Body(b, j), Block(b, j)); }
  }

  lemma SameTailWord(a: seq<Byte>, b: seq<Byte>)
    requires |a| == |b| && forall k :: |a| - |a| % 4 <= k < |a| ==> a[k] == b[k]
    ensures TailWord(a) == TailWord(b)
  {}

  lemma SameHashSameBody(a: seq<Byte>, b: seq<Byte>)
    requires |a| == |b| && TailWord(a) == TailWord(b) && Hash(a) == Hash(b)
    ensures Body(a, |a| / 4) == Body(b, |a| / 4)
  {
    hide Body, Hash;
    StatesDecide(a, b);
    XorInjective(Body(a, |a| / 4), Body(b, |a| / 4), Mix(TailWord(a)));
  }

  /** Two keys of one length that differ inside a single aligned block never share a hash. */
  lemma OneBlockNeverCollides(a: seq<Byte>, b: seq<Byte>, j: nat)
    requires |a| == |b| && 4 * j + 4 <= |a| && a != b
    requires a[..4 * j] == b[..4 * j] && a[4 * j + 4..] == b[4 * j + 4..]
    ensures Hash(a) != Hash(b)
  {
    var n := |a| / 4;
    hide Body;
    BlockDiffers(a, b, j);
    SameAfter(a, b, 4 * j + 4);
    DifferenceSurvives(a, b, j + 1, n);
    SameTailWord(a, b);
    if Hash(a) == Hash(b) { SameHashSameBody(a, b); }
  }

  lemma StatesDecide(a: seq<Byte>, b: seq<Byte>)
    requires |a| == |b| && Hash(a) == Hash(b)
    ensures Mixed(a) == Mixed(b)
  {
    FmixInjective(XorWord(Mixed(a), |a| % M), XorWord(Mixed(b), |b| % M));
    XorInjective(Mixed(a), Mixed(b), |a| % M);
  }

  /** Two keys of one length that differ only after the last whole block never share a hash. */
  lemma TailNeverCollides(a: seq<Byte>, b: seq<Byte>)
    requires |a| == |b| && a != b && a[..|a| - |a| % 4] == b[..|a| - |a| % 4]
    ensures Hash(a) != Hash(b)
  {
    EqualBlocksEqualBody(a, b, |a| / 4);
    if Hash(a) == Hash(b) {
      StatesDecide(a, b);
      XorInjective(Mix(TailWord(a)), Mix(TailWord(b)), Body(a, |a| / 4));
      MixInjective(TailWord(a), TailWord(b));
      TailDecides(a, b);
    }
  }

  // ---- Addresses ----

  /** A 64-bit address by its halves; in memory its low half comes first. */
  datatype Address = Address(hi: Word, lo: Word)

  function WordBytes(w: Word): seq<Byte> {
    [w % 0x100, w / 0x100 % 0x100, w / 0x100 / 0x100 % 0x100, w / 0x100 / 0x100 / 0x100]
  }

  function AddressKey(addr: Address): seq<Byte> { WordBytes(addr.lo) + WordBytes(addr.hi) }

  lemma AddressBlocks(addr: Address)
    ensures |AddressKey(addr)| == 8 && Block(AddressKey(addr), 0) == addr.lo && Block(AddressKey(addr), 1) == addr.hi
  {
    PackOfBytes(addr.lo);
    PackOfBytes(addr.hi);
  }

  lemma PackOfBytes(w: Word)
    ensures Pack(WordBytes(w)[0], WordBytes(w)[1], WordBytes(w)[2], WordBytes(w)[3]) == w
  {}

  /** The client's reduction of a hash: adding the table size and reducing again changes nothing. */
  function Reduce(key: Word): (index: nat)
    ensures index < 251 && index == key % 251
  {
    (key % TABLE_SIZE + TABLE_SIZE) % TABLE_SIZE
  }

  /** The client's bucket of an address. */
  function HashInClient(addr: Address): (index: nat)
    ensures index < TABLE_SIZE
  {
    Reduce(Hash(AddressKey(addr)))
  }

  /** It is the hash of its two blocks, the low and the high word of the address, modulo 251. */
  lemma BucketOfAddress(addr: Address)
    ensures |AddressKey(addr)| == 8 && Block(AddressKey(addr), 0) == addr.lo && Block(AddressKey(addr), 1) == addr.hi
    ensures HashInClient(addr) == Hash(AddressKey(addr)) % 251
  {
    AddressBlocks(addr);
    hide Hash, AddressKey, Block;
  }

  lemma WordBytesInjective(w: Word, v: Word)
    requires WordBytes(w) == WordBytes(v)
    ensures w == v
  {
    var x, y := WordBytes(w), WordBytes(v);
    assert x[0] == y[0] && x[1] == y[1] && x[2] == y[2] && x[3] == y[3];
  }

  /** Two addresses that agree in one half and differ in the other have different hashes before the modulo. */
  lemma NearbyAddressesNeverCollide(a: Address, b: Address)
    requires a != b && (a.hi == b.hi || a.lo == b.lo)
    ensures Hash(AddressKey(a)) != Hash(AddressKey(b))
  {
    var x, y := AddressKey(a), AddressKey(b);
    if a.hi == b.hi {
      assert x[..4] == WordBytes(a.lo) && y[..4] == WordBytes(b.lo);
      assert x[4..] == WordBytes(a.hi) == y[4..];
      if x == y { WordBytesInjective(a.lo, b.lo); }
      OneBlockNeverCollides(x, y, 0);
    } else {
      assert x[4..] == WordBytes(a.hi) && y[4..] == WordBytes(b.hi);
      assert x[..4] == WordBytes(a.lo) == y[..4];
      if x == y { WordBytesInjective(a.hi, b.hi); }
      OneBlockNeverCollides(x, y, 1);
    }
  }

  // ---- Exclusive or on machine bytes, and a known answer ----

  function Int8(x: bv8): Byte { x as int }

  function Half8(x: bv8): bv8 { x >> 1 }

  function Xor8(x: bv8, y: bv8): bv8 { x ^ y }

  lemma Bits8(x: bv8)
    ensures Int8(Half8(x)) == Int8(x) / 2 && (x & 1) as int == Int8(x) % 2
  {}

  lemma Split8(x: bv8, y: bv8)
    ensures Half8(Xor8(x, y)) == Xor8(Half8(x), Half8(y))
    ensures (Xor8(x, y) & 1) as int == if (x & 1) as int == (y & 1) as int then 0 else 1
  {
    assert (x & 1 == 0 || x & 1 == 1) && (y & 1 == 0 || y & 1 == 1);
    assert (x ^ y) & 1 == (x & 1) ^ (y & 1);
  }

  lemma HalfBytes(x: bv8, y: bv8)
    ensures Int8(Half8(x)) == Int8(x) / 2 && Int8(Half8(y)) == Int8(y) / 2
    ensures Int8(Xor8(Half8(x), Half8(y))) == Int8(Xor8(x, y)) / 2
    ensures Int8(Xor8(x, y)) % 2 == if Int8(x) % 2 == Int8(y) % 2 then 0 else 1
  {
    hide Int8, Half8, Xor8;
    Bits8(x);
    Bits8(y);
    Bits8(Xor8(x, y));
    Split8(x, y);
  }

  lemma Zero8(x: bv8, y: bv8)
    ensures Int8(x) == 0 && Int8(y) == 0 ==> Int8(Xor8(x, y)) == 0
  {}

  lemma XorLastBit(x: nat, y: nat, z: nat)
    requires Xor(x / 2, y / 2) == z / 2 && z % 2 == if x % 2 == y % 2 then 0 else 1
    ensures Xor(x, y) == z
  {
    XorStep(x, y);
  }

  lemma XorOfNothing()
    ensures Xor(0, 0) == 0
  {}

  lemma {:induction false} XorOfBytes(x: bv8, y: bv8)
    ensures Xor(Int8(x), Int8(y)) == Int8(Xor8(x, y))
    decreases Int8(x) + Int8(y)
  {
    hide Xor, Int8, Half8, Xor8;
    if Int8(x) == 0 && Int8(y) == 0 {
      Zero8(x, y);
      XorOfNothing();
    } else {
      HalfBytes(x, y);
      XorOfBytes(Half8(x), Half8(y));
      XorLastBit(Int8(x), Int8(y), Int8(Xor8(x, y)));
    }
  }

  lemma {:induction false} XorJoin(a: nat, b: nat, c: nat, d: nat, k: nat)
    requires b < Double(1, k) && d < Double(1, k)
    ensures Xor(Double(a, k) + b, Double(c, k) + d) == Double(Xor(a, c), k) + Xor(b, d)
  {
    hide Xor;
    if k == 0 {
      XorOfNothing();
    } else {
      XorJoin(a, b / 2, c, d / 2, k - 1);
      XorStep(b, d);
      XorLastBit(Double(a, k) + b, Double(c, k) + d, Double(Xor(a, c), k) + Xor(b, d));
    }
  }

  lemma XorJoinByte(a: nat, b: Byte, c: nat, d: Byte)
    ensures Xor(0x100 * a + b, 0x100 * c + d) == 0x100 * Xor(a, c) + Xor(b, d)
  {
    DoubleByShift(1);
    DoubleByShift(a);
    DoubleByShift(c);
    DoubleByShift(Xor(a, c));
    XorJoin(a, b, c, d, 8);
  }

  lemma XorAbove(v: nat, w: nat, a: nat, b: Byte, c: nat, d: Byte)
    requires v == b + 0x100 * a && w == d + 0x100 * c
    ensures Xor(v, w) == Xor(b, d) + 0x100 * Xor(a, c)
  {
    hide Xor;
    XorJoinByte(a, b, c, d);
  }

  lemma XorPack(x0: Byte, x1: Byte, x2: Byte, x3: Byte, y0: Byte, y1: Byte, y2: Byte, y3: Byte)
    ensures XorWord(Pack(x0, x1, x2, x3), Pack(y0, y1, y2, y3))
            == Xor(x0, y0) + 0x100 * (Xor(x1, y1) + 0x100 * (Xor(x2, y2) + 0x100 * Xor(x3, y3)))
  {
    hide Xor;
    var xs, ys := x2 + 0x100 * x3, y2 + 0x100 * y3;
    var xt, yt := x1 + 0x100 * xs, y1 + 0x100 * ys;
    XorAbove(xs, ys, x3, x2, y3, y2);
    XorAbove(xt, yt, xs, x1, ys, y1);
    XorAbove(Pack(x0, x1, x2, x3), Pack(y0, y1, y2, y3), xt, x0, yt, y0);
  }

  /** A word as its machine bytes, the lowest first. */
  datatype Bytes = Bytes(b0: bv8, b1: bv8, b2: bv8, b3: bv8)

  function WordOf(b: Bytes): Word { Pack(Int8(b.b0), Int8(b.b1), Int8(b.b2), Int8(b.b3)) }

  /** The exclusive or of the model is the machine's, byte by byte. */
  lemma XorIsBitwise(x: Bytes, y: Bytes)
    ensures XorWord(WordOf(x), WordOf(y)) == WordOf(Bytes(x.b0 ^ y.b0, x.b1 ^ y.b1, x.b2 ^ y.b2, x.b3 ^ y.b3))
  {
    hide Xor, XorWord, Int8;
    XorOfBytes(x.b0, y.b0);
    XorOfBytes(x.b1, y.b1);
    XorOfBytes(x.b2, y.b2);
    XorOfBytes(x.b3, y.b3);
    XorPack(Int8(x.b0), Int8(x.b1), Int8(x.b2), Int8(x.b3), Int8(y.b0), Int8(y.b1), Int8(y.b2), Int8(y.b3));
  }

  lemma HelloXor0()
    ensures XorWord(0xef13efcd, 0x73bcd07e) == 0x9caf3fb3
  {
    hide XorWord;
    XorIsBitwise(Bytes(0xcd, 0xef, 0x13, 0xef), Bytes(0x7e, 0xd0, 0xbc, 0x73));
  }

  lemma HelloXor1()
    ensures XorWord(0x9caf3fb3, 0x5) == 0x9caf3fb6
  {
    hide XorWord;
    XorIsBitwise(Bytes(0xb3, 0x3f, 0xaf, 0x9c), Bytes(0x05, 0x00, 0x00, 0x00));
  }

  lemma HelloXor2()
    ensures XorWord(0x9caf3fb6, 0x9caf) == 0x9cafa319
  {
    hide XorWord;
    XorIsBitwise(Bytes(0xb6, 0x3f, 0xaf, 0x9c), Bytes(0xaf, 0x9c, 0x00, 0x00));
  }

  lemma HelloXor3()
    ensures XorWord(0xc90de573, 0x6486f) == 0xc90bad1c
  {
    hide XorWord;
    XorIsBitwise(Bytes(0x73, 0xe5, 0x0d, 0xc9), Bytes(0x6f, 0x48, 0x06, 0x00));
  }

  lemma HelloXor4()
    ensures XorWord(0x248bdecc, 0x248b) == 0x248bfa47
  {
    hide XorWord;
    XorIsBitwise(Bytes(0xcc, 0xde, 0x8b, 0x24), Bytes(0x8b, 0x24, 0x00, 0x00));
  }

  lemma XorOfZero(x: Word)
    ensures XorWord(0, x) == x
  {
    XorZero(x);
  }

  lemma HelloMix()
    ensures Mix(0x6c6c6568) == 0xa0ae7465 && Mix(0x6f) == 0x73bcd07e
  {
    hide MulC1, Rotl15, MulC2;
    HelloMulC1Block();
    HelloRotl15Block();
    HelloMulC2Block();
    HelloMulC1Tail();
    HelloRotl15Tail();
    HelloMulC2Tail();
  }

  lemma HelloMulC1Block()
    ensures MulC1(0x6c6c6568) == 0xd24f5de8
  {}

  lemma HelloRotl15Block()
    ensures Rotl15(0xd24f5de8) == 0xaef46927
  {}

  lemma HelloMulC2Block()
    ensures MulC2(0xaef46927) == 0xa0ae7465
  {}

  lemma HelloMulC1Tail()
    ensures MulC1(0x6f) == 0xb895a61f
  {}

  lemma HelloRotl15Tail()
    ensures Rotl15(0xb895a61f) == 0xd30fdc4a
  {}

  lemma HelloMulC2Tail()
    ensures MulC2(0xd30fdc4a) == 0x73bcd07e
  {}

  lemma HelloBlock()
    ensures Round(0, 0x6c6c6568) == 0xef13efcd
  {
    hide Xor, XorWord, Mix;
    HelloMix();
    XorOfZero(0xa0ae7465);
    assert Rotl13(0xa0ae7465) == 0xce8cb415;
  }

  lemma HelloMulF1()
    ensures MulF1(0x9cafa319) == 0xc90de573
  {}

  lemma HelloMulF2()
    ensures MulF2(0xc90bad1c) == 0x248bdecc
  {}

  lemma HelloFinal()
    ensures Fmix(0x9caf3fb6) == 0x248bfa47
  {
    hide Xor, XorWord, MulF1, MulF2;
    HelloXor2();
    HelloXor3();
    HelloXor4();
    HelloMulF1();
    HelloMulF2();
  }

  lemma HelloParts(key: seq<Byte>)
    requires key == [0x68, 0x65, 0x6c, 0x6c, 0x6f]
    ensures TailWord(key) == 0x6f && Body(key, 1) == Round(0, 0x6c6c6568)
  {
    hide Round;
  }

  /** A known answer of MurmurHash3_x86_32, that of "hello": a block, a tail byte, the length and the finaliser. */
  lemma HelloHash()
    ensures Hash([0x68, 0x65, 0x6c, 0x6c, 0x6f]) == 0x248bfa47
  {
    hide Xor, XorWord, Fmix, Mix, Round, Body, Block, TailWord;
    HelloParts([0x68, 0x65, 0x6c, 0x6c, 0x6f]);
    HelloMix();
    HelloBlock();
    HelloXor0();
    HelloXor1();
    HelloFinal();
  }

  // ---- The loop ----

  /** A byte moved up by 8 and by 16 bits. */
  function Up8(b: Byte): Word { 0x100 * b }

  function Up16(b: Byte): Word { 0x10000 * b }

  lemma XorSecond(b1: Byte, b2: Byte)
    ensures XorWord(Up16(b2), Up8(b1)) == Up16(b2) + Up8(b1)
  {
    DoubleByShift(1);
    DoubleByShift(b2);
    XorDisjoint(b2, 0x100 * b1, 16);
  }

  lemma XorFirst(b0: Byte, b1: Byte, b2: Byte)
    ensures XorWord(Up16(b2) + Up8(b1), b0) == Pack(b0, b1, b2, 0)
  {
    DoubleByShift(1);
    DoubleByShift(0x100 * b2 + b1);
    XorDisjoint(0x100 * b2 + b1, b0, 8);
  }

  lemma MixZero()
    ensures Mix(0) == 0
  {
    assert MulC1(0) == 0;
    assert Rotl15(0) == 0;
    assert MulC2(0) == 0;
  }

  lemma TailWordZero(key: seq<Byte>)
    requires |key| % 4 == 0
    ensures TailWord(key) == 0
  {
    assert TailByte(key, 0) == TailByte(key, 1) == TailByte(key, 2) == 0;
  }

  lemma NoTail(key: seq<Byte>, h: Word)
    requires |key| % 4 == 0
    ensures XorWord(h, Mix(TailWord(key))) == h
  {
    TailWordZero(key);
    MixZero();
    XorZero(h);
  }

  method Fmix32(h: Word) returns (r: Word)
    ensures r == Fmix(h)
  {
    r := XorWord(h, h / 0x10000);
    r := MulF1(r);
    r := XorWord(r, r / 0x2000);
    r := MulF2(r);
    r := XorWord(r, r / 0x10000);
  }

  /** The tail switch, which falls through from the last byte to the first. */
  method TailBits(key: array<Byte>) returns (k1: Word)
    ensures k1 == TailWord(key[..])
  {
    var tail, rest := key.Length - key.Length % 4, key.Length % 4;
    ghost var b0, b1, b2 := TailByte(key[..], 0), TailByte(key[..], 1), TailByte(key[..], 2);
    k1 := 0;
    if rest == 3 { k1 := XorWord(k1, Up16(key[tail + 2])); }
    XorZero(Up16(b2));
    assert k1 == Up16(b2);
    if rest >= 2 { k1 := XorWord(k1, Up8(key[tail + 1])); }
    XorSecond(b1, b2);
    assert k1 == Up16(b2) + Up8(b1);
    if rest >= 1 { k1 := XorWord(k1, key[tail]); }
    XorFirst(b0, b1, b2);
  }

  method MixTail(key: array<Byte>, h: Word) returns (h1: Word)
    ensures h1 == XorWord(h, Mix(TailWord(key[..])))
  {
    var k1 := TailBits(key);
    if key.Length % 4 != 0 {
      k1 := MulC1(k1);
      k1 := Rotl15(k1);
      k1 := MulC2(k1);
      h1 := XorWord(h, k1);
    } else {
      h1 := h;
      NoTail(key[..], h);
    }
  }

  method MixBlock(h: Word, k: Word) returns (h1: Word)
    ensures h1 == Round(h, k)
  {
    var k1 := MulC1(k);
    k1 := Rotl15(k1);
    k1 := MulC2(k1);
    h1 := XorWord(h, k1);
    h1 := Rotl13(h1);
    h1 := Step5(h1);
  }

  lemma BodyNext(key: seq<Byte>, n: nat)
    requires 4 * n + 4 <= |key|
    ensures Body(key, n + 1)
            == Round(Body(key, n), Pack(key[4 * n], key[4 * n + 1], key[4 * n + 2], key[4 * n + 3]))
  {
    BodyStep(key, n + 1);
  }

  lemma HashIs(key: seq<Byte>)
    ensures Body(key, 0) == 0
    ensures Hash(key) == Fmix(XorWord(XorWord(Body(key, |key| / 4), Mix(TailWord(key))), |key| % M))
  {}

  /** MurmurHash3_x86_32: from the first block to the last, then the tail and the length. */
  method MurmurHash3(key: array<Byte>) returns (h1: Word)
    ensures h1 == Hash(key[..])
  {
    hide Body, Mixed, Hash, Fmix, Round, Pack, Mix, TailWord, XorWord;
    HashIs(key[..]);
    var nblocks := key.Length / 4;
    h1 := 0;
    var i := -nblocks;
    while i != 0
      invariant -nblocks <= i <= 0
      invariant h1 == Body(key[..], nblocks + i)
      decreases -i
    {
      var p := 4 * (nblocks + i);
      BodyNext(key[..], nblocks + i);
      h1 := MixBlock(h1, Pack(key[p], key[p + 1], key[p + 2], key[p + 3]));
      i := i + 1;
    }
    h1 := MixTail(key, h1);
    h1 := XorWord(h1, key.Length % M);
    h1 := Fmix32(h1);
  }
}
