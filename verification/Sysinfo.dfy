/** `do_sysinfo` and its 32-bit form: memory counts in units of `memUnit` bytes, rescaled to
    bytes when no 64-bit word overflows, and scaled back to pages when 32 bits are too few. */
module Sysinfo {
  import opened Modular
  import opened Shifts

  const WORD := 0x1_0000_0000_0000_0000
  const HALF := 0x1_0000_0000
  const PAGE_SIZE := 4096

  type Word = x: int | 0 <= x < WORD

  datatype Info = Info(totalram: Word, freeram: Word, sharedram: Word, bufferram: Word,
                       totalswap: Word, freeswap: Word, totalhigh: Word, freehigh: Word, memUnit: nat)

  /** The eight counts by position; a part's total is at position 0 (ram) or 4 (swap). */
  function Val(i: Info, j: nat): Word
    requires j < 8
  {
    if j < 4 then
      if j == 0 then i.totalram else if j == 1 then i.freeram else if j == 2 then i.sharedram else i.bufferram
    else
      if j == 4 then i.totalswap else if j == 5 then i.freeswap else if j == 6 then i.totalhigh else i.freehigh
  }

  /** The memory a count stands for. */
  function Bytes(i: Info, j: nat): nat
    requires j < 8
  {
    Val(i, j) * i.memUnit
  }

  function TotalOf(j: nat): nat { if j == 4 || j == 5 then 4 else 0 }

  function Each(i: Info, f: Word -> Word, unit: nat): (r: Info)
    ensures forall j :: 0 <= j < 8 ==> Val(r, j) == f(Val(i, j))
  {
    Info(f(i.totalram), f(i.freeram), f(i.sharedram), f(i.bufferram),
         f(i.totalswap), f(i.freeswap), f(i.totalhigh), f(i.freehigh), unit)
  }

  /** What the memory manager reports: a part is at most the total it belongs to. */
  ghost predicate Parts(i: Info) {
    (forall j :: 0 <= j < 8 ==> Val(i, j) <= Val(i, TotalOf(j))) && 1 <= i.memUnit < HALF
  }

  /** Position of the highest set bit. */
  function Bits(u: nat): nat { if u <= 1 then 0 else 1 + Bits(u / 2) }

  predicate PowerOfTwo(u: nat) { u == Double(1, Bits(u)) }

  function Shl(x: Word, k: nat): Word { Double(x, k) % WORD }

  predicate Overflows(i: Info) { TooBig(i.totalram + i.totalswap, Bits(i.memUnit)) }

  predicate TooBig(total: nat, k: nat) { Double(total, k) >= WORD }

  function Rescaled(i: Info): (r: Info)
    ensures i.memUnit >= 1 ==> r.memUnit >= 1
  {
    if Overflows(i) then i else Each(i, x => Shl(x, Bits(i.memUnit)), 1)
  }

  /** Doublings that bring a unit up to the page size. */
  function Doublings(unit: nat): nat
    requires unit >= 1
    decreases PAGE_SIZE - unit
  {
    if unit >= PAGE_SIZE then 0 else 1 + Doublings(2 * unit)
  }

  /** Whether the report must be scaled down, and by how many doublings. */
  function Downscale(i: Info): nat
    requires i.memUnit >= 1
  {
    if i.totalram >= HALF || i.totalswap >= HALF then Doublings(i.memUnit) else 0
  }

  function Compat(i: Info): Info
    requires i.memUnit >= 1
  {
    var k := Downscale(i);
    Each(i, x => Halve(x, k) % HALF, Double(i.memUnit, k) % HALF)
  }

  // ---- Arithmetic ----

  lemma MulCancel(x: nat, a: nat, b: nat)
    requires x > 0 && x * a == x * b
    ensures a == b
  {
    if b < a { MulMono(b + 1, a, x); }
  }

  lemma DivUnique(n: nat, d: nat, q: nat)
    requires d >= 1 && q * d <= n < q * d + d
    ensures n / d == q
  {
    if n / d < q { MulMono(n / d + 1, q, d); }
    if n / d > q { MulMono(q + 1, n / d, d); }
  }

  lemma Reassociate(q: nat, p: nat, u: nat)
    ensures q * p * u == q * (p * u) && (q + 1) * p * u == q * (p * u) + p * u
  {
    assert (q + 1) * p == q * p + p;
  }

  lemma ScaledDiv(x: nat, u: nat, p: nat, q: nat)
    requires u >= 1 && p >= 1 && q * p <= x < (q + 1) * p
    ensures p * u >= 1 && x * u / (p * u) == q
  {
    MulMono(1, p, u);
    ScaledBounds(x, u, p, q);
    DivUnique(x * u, p * u, q);
  }

  lemma ScaledBounds(x: nat, u: nat, p: nat, q: nat)
    requires u >= 1 && q * p <= x < (q + 1) * p
    ensures q * (p * u) <= x * u < q * (p * u) + p * u
  {
    Reassociate(q, p, u);
    MulMono(q * p, x, u);
    MulMono(x + 1, (q + 1) * p, u);
    OneMore(x, u);
  }

  lemma OneMore(x: nat, u: nat)
    ensures (x + 1) * u == x * u + u
  {}

  /** Halving a count is dividing its bytes by the doubled unit. */
  lemma HalveIsDiv(x: nat, u: nat, k: nat)
    requires u >= 1
    ensures Double(u, k) >= 1 && x * u / Double(u, k) == Halve(x, k)
  {
    var q := Halve(x, k);
    HalveBracket(x, k);
    DoubleIsMul(q, k);
    DoubleIsMul(q + 1, k);
    DoubleIsMul(u, k);
    ScaledDiv(x, u, Double(1, k), q);
    assert Double(1, k) * u == Double(u, k);
  }

  lemma {:induction false} TooBigStays(total: nat, k: nat, k': nat)
    requires TooBig(total, k) && k <= k'
    ensures TooBig(total, k')
    decreases k' - k
  {
    if k < k' { TooBigStays(total, k + 1, k'); }
  }

  lemma {:induction false} DoublingsReach(unit: nat)
    requires unit >= 1
    ensures PAGE_SIZE <= Double(unit, Doublings(unit))
    ensures Double(unit, Doublings(unit)) < if unit < PAGE_SIZE then 2 * PAGE_SIZE else unit + 1
    decreases PAGE_SIZE - unit
  {
    if unit < PAGE_SIZE {
      DoublingsReach(2 * unit);
      DoubleShift(unit, Doublings(2 * unit));
    }
  }

  // ---- do_sysinfo keeps every byte count ----

  ghost predicate SameBytes(i: Info, i': Info) {
    forall j :: 0 <= j < 8 ==> Bytes(i', j) == Bytes(i, j)
  }

  lemma ShlExact(x: Word, total: nat, k: nat)
    requires x <= total && !TooBig(total, k)
    ensures Shl(x, k) == Double(x, k)
  {
    DoubleMono(x, total, k);
  }

  lemma RescaledValue(i: Info, j: nat)
    requires Parts(i) && !Overflows(i) && j < 8
    ensures Val(Rescaled(i), j) == Bytes(Rescaled(i), j) == Double(Val(i, j), Bits(i.memUnit))
  {
    assert Val(i, j) <= Val(i, TotalOf(j));
    ShlExact(Val(i, j), i.totalram + i.totalswap, Bits(i.memUnit));
  }

  lemma RescaledBytes(i: Info, j: nat)
    requires Parts(i) && !Overflows(i) && j < 8
    requires PowerOfTwo(i.memUnit) || i.totalram == i.totalswap == 0
    ensures Bytes(Rescaled(i), j) == Bytes(i, j)
  {
    hide Rescaled, Overflows, Double, Bits;
    RescaledValue(i, j);
    DoubleIsMul(Val(i, j), Bits(i.memUnit));
    if i.totalram == i.totalswap == 0 {
      assert Val(i, j) <= Val(i, TotalOf(j)) == 0;
    }
  }

  lemma BytesNeedPowerOfTwo(i: Info)
    requires Parts(i) && !Overflows(i) && SameBytes(i, Rescaled(i))
    ensures PowerOfTwo(i.memUnit) || i.totalram == i.totalswap == 0
  {
    var j := if i.totalram > 0 then 0 else 4;
    assert Bytes(Rescaled(i), j) == Bytes(i, j);
    RescaledValue(i, j);
    DoubleIsMul(Val(i, j), Bits(i.memUnit));
    if Val(i, j) > 0 { MulCancel(Val(i, j), Double(1, Bits(i.memUnit)), i.memUnit); }
  }

  /** On every exit path each count times the unit is unchanged, exactly when the call gives up on
      overflow, the unit is a power of two, or there is no memory to count. */
  lemma RescaleKeepsBytes(i: Info)
    requires Parts(i)
    ensures SameBytes(i, Rescaled(i))
            <==> Overflows(i) || PowerOfTwo(i.memUnit) || i.totalram == i.totalswap == 0
  {
    if !Overflows(i) {
      if PowerOfTwo(i.memUnit) || i.totalram == i.totalswap == 0 {
        forall j | 0 <= j < 8 ensures Bytes(Rescaled(i), j) == Bytes(i, j) {
          RescaledBytes(i, j);
        }
      } else if SameBytes(i, Rescaled(i)) {
        BytesNeedPowerOfTwo(i);
      }
    }
  }

  lemma {:induction false} BitsBracket(u: nat)
    requires u >= 1
    ensures Double(1, Bits(u)) <= u < 2 * Double(1, Bits(u))
  {
    if u > 1 { BitsBracket(u / 2); }
  }

  /** The counts are multiplied by the highest power of two within the unit, and the unit becomes 1, exactly
      when the sum of ram and swap then still fits in 64 bits; otherwise nothing changes. */
  lemma RescalesIff(i: Info)
    requires Parts(i)
    ensures var r, p := Rescaled(i), Double(1, Bits(i.memUnit));
            && p <= i.memUnit < 2 * p
            && ((i.totalram + i.totalswap) * p < WORD ==>
                  r.memUnit == 1 && forall j :: 0 <= j < 8 ==> Val(r, j) == Val(i, j) * p)
            && ((i.totalram + i.totalswap) * p >= WORD ==> r == i)
  {
    BitsBracket(i.memUnit);
    DoubleIsMul(i.totalram + i.totalswap, Bits(i.memUnit));
    if !Overflows(i) {
      forall j | 0 <= j < 8 ensures Val(Rescaled(i), j) == Val(i, j) * Double(1, Bits(i.memUnit)) {
        RescaledValue(i, j);
        DoubleIsMul(Val(i, j), Bits(i.memUnit));
      }
    }
  }

  /** The 32-bit report changes the unit exactly when ram or swap needs more than 32 bits and the unit is
      below a page: to the first doubling that is no longer below a page. */
  lemma CompatUnit(i: Info)
    requires 1 <= i.memUnit < HALF
    ensures Compat(i).memUnit == Double(i.memUnit, Downscale(i))
    ensures i.totalram < HALF && i.totalswap < HALF ==>
              Compat(i).memUnit == i.memUnit && forall j :: 0 <= j < 8 ==> Val(Compat(i), j) == Val(i, j) % HALF
    ensures i.totalram >= HALF || i.totalswap >= HALF ==>
              && Compat(i).memUnit >= PAGE_SIZE
              && Compat(i).memUnit < if i.memUnit < PAGE_SIZE then 2 * PAGE_SIZE else i.memUnit + 1
  {
    DoublingsReach(i.memUnit);
  }

  /** The 32-bit report, end to end: each count is the number of whole new units in the true
      number of bytes, cut to 32 bits by the store; so less than one new unit is lost before the store. */
  lemma CompatReportsWholeUnits(i: Info, j: nat)
    requires Parts(i) && PowerOfTwo(i.memUnit) && j < 8
    ensures var r := Compat(Rescaled(i)); r.memUnit >= 1 && Val(r, j) == Bytes(i, j) / r.memUnit % HALF
  {
    var s := Rescaled(i);
    CompatUnit(s);
    BytesKept(i, j);
    HalveIsDiv(Val(s, j), s.memUnit, Downscale(s));
  }

  /** `v` is the number of whole units in `bytes`. */
  ghost predicate WholeUnits(v: nat, unit: nat, bytes: nat) {
    v * unit <= bytes < v * unit + unit
  }

  lemma LessCancel(a: nat, b: nat, d: nat)
    requires a * d < b * d
    ensures a < b
  {
    if b <= a { MulMono(b, a, d); }
  }

  lemma QuotientFits(v: nat, n: nat, d: nat)
    requires d >= 1 && n < HALF * d && v == n / d % HALF
    ensures WholeUnits(v, d, n)
  {
    var q := n / d;
    assert q * d <= n < q * d + d;
    LessCancel(q, HALF, d);
  }

  ghost predicate UnderSixteenTebibytes(i: Info) {
    Bytes(i, 0) < PAGE_SIZE * HALF && Bytes(i, 4) < PAGE_SIZE * HALF
  }

  lemma BytesFit(i: Info, j: nat)
    requires Parts(i) && 1 <= i.memUnit < HALF && j < 8 && UnderSixteenTebibytes(i)
    ensures Bytes(i, j) < HALF * Compat(i).memUnit
  {
    CompatUnit(i);
    var t := Val(i, TotalOf(j));
    MulMono(Val(i, j), t, i.memUnit);
    if i.totalram >= HALF || i.totalswap >= HALF {
      MulMono(PAGE_SIZE, Compat(i).memUnit, HALF);
    } else {
      MulMono(t, HALF - 1, i.memUnit);
    }
  }

  lemma RescaledParts(i: Info)
    requires Parts(i)
    ensures Parts(Rescaled(i))
  {
    if !Overflows(i) {
      forall j | 0 <= j < 8 ensures Val(Rescaled(i), j) <= Val(Rescaled(i), TotalOf(j)) {
        RescaledValue(i, j);
        RescaledValue(i, TotalOf(j));
        DoubleMono(Val(i, j), Val(i, TotalOf(j)), Bits(i.memUnit));
      }
    }
  }

  lemma BytesKept(i: Info, j: nat)
    requires Parts(i) && PowerOfTwo(i.memUnit) && j < 8
    ensures Bytes(Rescaled(i), j) == Bytes(i, j)
  {
    RescaleKeepsBytes(i);
  }

  lemma ReportedBytesFit(i: Info, j: nat)
    requires Parts(i) && PowerOfTwo(i.memUnit) && j < 8 && UnderSixteenTebibytes(i)
    ensures Bytes(i, j) < HALF * Compat(Rescaled(i)).memUnit
  {
    RescaledParts(i);
    BytesKept(i, 0);
    BytesKept(i, 4);
    BytesKept(i, j);
    BytesFit(Rescaled(i), j);
  }

  /** With less than 16 TiB of ram and of swap the store cuts nothing: the report is the byte count rounded down. */
  lemma CompatFitsSixteenTebibytes(i: Info, j: nat)
    requires Parts(i) && PowerOfTwo(i.memUnit) && j < 8 && UnderSixteenTebibytes(i)
    ensures var r := Compat(Rescaled(i)); WholeUnits(Val(r, j), r.memUnit, Bytes(i, j))
  {
    ReportedBytesFit(i, j);
    CompatReportsWholeUnits(i, j);
    QuotientFits(Val(Compat(Rescaled(i)), j), Bytes(i, j), Compat(Rescaled(i)).memUnit);
  }

  // ---- The loops ----

  lemma DoubleWraps(x: Word)
    ensures x * 2 % WORD == if 2 * x >= WORD then 2 * x - WORD else 2 * x
  {}

  class Report {
    var info: Info

    constructor (info: Info)
      ensures this.info == info
    {
      this.info := info;
    }

    /** The shift-and-compare loop on the total: it detects 64-bit overflow exactly. */
    static method ShiftTotal(total: Word, unit: nat) returns (fits: bool, bitcount: nat)
      requires unit >= 1
      ensures fits <==> !TooBig(total, Bits(unit))
      ensures fits ==> bitcount == Bits(unit)
    {
      var memTotal, memUnit := total, unit;
      bitcount := 0;
      while memUnit > 1
        invariant 1 <= memUnit && bitcount + Bits(memUnit) == Bits(unit)
        invariant memTotal == Double(total, bitcount) < WORD
      {
        bitcount := bitcount + 1;
        memUnit := memUnit / 2;
        var savTotal := memTotal;
        DoubleWraps(savTotal);
        memTotal := memTotal * 2 % WORD;
        if memTotal < savTotal {
          TooBigStays(total, bitcount, Bits(unit));
          return false, bitcount;
        }
      }
      return true, bitcount;
    }

    method DoSysinfo()
      requires Parts(info)
      modifies this
      ensures info == Rescaled(old(info))
    {
      ghost var total := info.totalram + info.totalswap;
      var memTotal := (info.totalram + info.totalswap) % WORD;
      if memTotal < info.totalram || memTotal < info.totalswap {
        assert TooBig(total, 0);
        TooBigStays(total, 0, Bits(info.memUnit));
        return;
      }
      assert memTotal == total;
      var fits, bitcount := ShiftTotal(memTotal, info.memUnit);
      if fits {
        info := Each(info, x => Shl(x, bitcount), 1);
      }
    }

    static method UnitUpToPage(memUnit: nat) returns (unit: nat, bitcount: nat)
      requires 1 <= memUnit < HALF
      ensures bitcount == Doublings(memUnit) && unit == Double(memUnit, bitcount) < HALF
    {
      unit, bitcount := memUnit, 0;
      while unit < PAGE_SIZE
        invariant 1 <= unit < HALF && bitcount + Doublings(unit) == Doublings(memUnit)
        invariant unit == Double(memUnit, bitcount)
      {
        unit := unit * 2 % HALF;
        bitcount := bitcount + 1;
      }
    }

    /** The 32-bit call, up to and with the truncating stores into the caller's record. */
    method CompatSysinfo() returns (user: Info)
      requires Parts(info)
      modifies this
      ensures user == Compat(Rescaled(old(info)))
    {
      DoSysinfo();
      assert 1 <= info.memUnit < HALF;
      if info.totalram >= HALF || info.totalswap >= HALF {
        var unit, bitcount := UnitUpToPage(info.memUnit);
        info := Each(info, x => Halve(x, bitcount), unit);
      }
      user := Each(info, x => x % HALF, info.memUnit % HALF);
    }
  }
}
