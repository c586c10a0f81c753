/** Remote allocations: the server's list of areas and the client's hash table of regions, kept in
    step by malloc and free. The client's worker performs one request at a time and waits for it. */
module RegionIndex {
  import opened Murmur
  import opened Wrappers

  /** A registered memory region, as both sides hold it. */
  datatype Region = Region(addr: Address, length: nat, lkey: int)

  /** Any placement of addresses in the table. The program's is Murmur.HashInClient, which is one by its contract. */
  type Placement = h: Address -> nat | forall a :: h(a) < TABLE_SIZE witness (_: Address) => 0

  datatype Index = Index(hash: Placement, buckets: seq<seq<Region>>, areas: seq<Region>, used: int)

  function Start(hash: Placement): Index { Index(hash, seq(TABLE_SIZE, _ => []), [], 0) }

  /** The first region at an address. */
  function Find(list: seq<Region>, addr: Address): Option<Region> {
    if list == [] then None else if list[0].addr == addr then Some(list[0]) else Find(list[1..], addr)
  }

  function RemoveAddr(list: seq<Region>, addr: Address): seq<Region> {
    if list == [] then [] else if list[0].addr == addr then list[1..] else [list[0]] + RemoveAddr(list[1..], addr)
  }

  /** The server looks for the first area with the region's key. */
  function RemoveKey(list: seq<Region>, lkey: int): seq<Region> {
    if list == [] then [] else if list[0].lkey == lkey then list[1..] else [list[0]] + RemoveKey(list[1..], lkey)
  }

  predicate Shaped(s: Index) { |s.buckets| == TABLE_SIZE }

  function Lookup(s: Index, addr: Address): Option<Region>
    requires Shaped(s)
  {
    Find(s.buckets[s.hash(addr)], addr)
  }

  /** A malloc that succeeded with the region `r`: both sides put it at the head of their lists. */
  function Malloc(s: Index, r: Region): Index
    requires Shaped(s)
  {
    var b := s.hash(r.addr);
    Index(s.hash, s.buckets[b := [r] + s.buckets[b]], [r] + s.areas, s.used + r.length)
  }

  /** A free: the client finds the region by address, the server drops it by key; an unknown address is an error. */
  function Free(s: Index, addr: Address): Index
    requires Shaped(s)
  {
    match Lookup(s, addr)
    case None => s
    case Some(r) =>
      var b := s.hash(addr);
      Index(s.hash, s.buckets[b := RemoveAddr(s.buckets[b], addr)], RemoveKey(s.areas, r.lkey), s.used - r.length)
  }

  // ---- The invariant ----

  /** The areas that belong in bucket `b`, in the order of the server's list. */
  function InBucket(areas: seq<Region>, b: nat, h: Placement): seq<Region> {
    if areas == [] then []
    else if h(areas[0].addr) == b then [areas[0]] + InBucket(areas[1..], b, h)
    else InBucket(areas[1..], b, h)
  }

  function Total(areas: seq<Region>): nat { if areas == [] then 0 else areas[0].length + Total(areas[1..]) }

  ghost predicate Distinct(areas: seq<Region>) {
    forall i, j :: 0 <= i < j < |areas| ==> areas[i].addr != areas[j].addr && areas[i].lkey != areas[j].lkey
  }

  /** The client's buckets are the server's list, sorted into buckets. */
  ghost predicate Agree(s: Index) {
    && Shaped(s) && Distinct(s.areas) && s.used == Total(s.areas)
    && forall b :: 0 <= b < TABLE_SIZE ==> s.buckets[b] == InBucket(s.areas, b, s.hash)
  }

  /** The live allocations. */
  function Live(areas: seq<Region>): map<Address, Region> {
    if areas == [] then map[] else Live(areas[1..])[areas[0].addr := areas[0]]
  }

  /** What the allocator and the registration of memory promise of a new region. */
  ghost predicate New(s: Index, r: Region) {
    forall i :: 0 <= i < |s.areas| ==> s.areas[i].addr != r.addr && s.areas[i].lkey != r.lkey
  }

  lemma {:induction false} FindIsLive(areas: seq<Region>, addr: Address)
    ensures Find(areas, addr) == if addr in Live(areas) then Some(Live(areas)[addr]) else None
  {
    if areas != [] { FindIsLive(areas[1..], addr); }
  }

  lemma {:induction false} FindInBucket(areas: seq<Region>, addr: Address, h: Placement)
    ensures Find(InBucket(areas, h(addr), h), addr) == Find(areas, addr)
  {
    if areas != [] {
      FindInBucket(areas[1..], addr, h);
      assert h(areas[0].addr) == h(addr) ==>
        InBucket(areas, h(addr), h)[1..] == InBucket(areas[1..], h(addr), h);
    }
  }

  /** The table is exactly the finite map of the live allocations. */
  lemma LookupIsLive(s: Index, addr: Address)
    requires Agree(s)
    ensures Lookup(s, addr) == if addr in Live(s.areas) then Some(Live(s.areas)[addr]) else None
  {
    FindInBucket(s.areas, addr, s.hash);
    FindIsLive(s.areas, addr);
  }

  lemma {:induction false} BucketSound(areas: seq<Region>, b: nat, i: nat, h: Placement)
    requires i < |InBucket(areas, b, h)|
    ensures InBucket(areas, b, h)[i] in areas && h(InBucket(areas, b, h)[i].addr) == b
  {
    if h(areas[0].addr) == b {
      if i > 0 { BucketSound(areas[1..], b, i - 1, h); }
    } else {
      BucketSound(areas[1..], b, i, h);
    }
  }

  lemma {:induction false} BucketComplete(areas: seq<Region>, r: Region, h: Placement)
    requires r in areas
    ensures r in InBucket(areas, h(r.addr), h)
  {
    if r != areas[0] { BucketComplete(areas[1..], r, h); }
  }

  lemma {:induction false} BucketDistinct(areas: seq<Region>, b: nat, i: nat, j: nat, h: Placement)
    requires Distinct(areas) && i < j < |InBucket(areas, b, h)|
    ensures InBucket(areas, b, h)[i].addr != InBucket(areas, b, h)[j].addr
  {
    if h(areas[0].addr) == b {
      if i == 0 {
        BucketSound(areas[1..], b, j - 1, h);
      } else {
        BucketDistinct(areas[1..], b, i - 1, j - 1, h);
      }
    } else {
      BucketDistinct(areas[1..], b, i, j, h);
    }
  }

  /** Every live area is in the table once, in its own bucket, and nothing else is. */
  lemma EachOnceInItsBucket(s: Index)
    requires Agree(s)
    ensures forall r :: r in s.areas <==> r in s.buckets[s.hash(r.addr)]
    ensures forall b, i :: 0 <= b < TABLE_SIZE && 0 <= i < |s.buckets[b]| ==> s.hash(s.buckets[b][i].addr) == b
    ensures forall b, i, j :: 0 <= b < TABLE_SIZE && 0 <= i < j < |s.buckets[b]| ==>
              s.buckets[b][i].addr != s.buckets[b][j].addr
  {
    forall r ensures r in s.areas <==> r in s.buckets[s.hash(r.addr)] {
      var b := s.hash(r.addr);
      if r in s.areas { BucketComplete(s.areas, r, s.hash); }
      if r in s.buckets[b] {
        var i :| 0 <= i < |s.buckets[b]| && s.buckets[b][i] == r;
        BucketSound(s.areas, b, i, s.hash);
      }
    }
    forall b, i | 0 <= b < TABLE_SIZE && 0 <= i < |s.buckets[b]| ensures s.hash(s.buckets[b][i].addr) == b {
      BucketSound(s.areas, b, i, s.hash);
    }
    forall b, i, j | 0 <= b < TABLE_SIZE
        && 0 <= i < j < |s.buckets[b]| ensures s.buckets[b][i].addr != s.buckets[b][j].addr {
      BucketDistinct(s.areas, b, i, j, s.hash);
    }
  }

  // ---- Malloc and free keep it ----

  lemma MallocKeeps(s: Index, r: Region)
    requires Agree(s) && New(s, r)
    ensures Agree(Malloc(s, r)) && Live(Malloc(s, r).areas) == Live(s.areas)[r.addr := r]
    ensures Malloc(s, r).used == s.used + r.length
  {
    var s' := Malloc(s, r);
    assert s'.areas[1..] == s.areas;
    forall b | 0 <= b < TABLE_SIZE ensures s'.buckets[b] == InBucket(s'.areas, b, s'.hash) {}
  }

  /** Dropping by key and dropping by address remove the same area. */
  lemma {:induction false} SameRemoved(areas: seq<Region>, r: Region)
    requires Distinct(areas) && r in areas
    ensures RemoveKey(areas, r.lkey) == RemoveAddr(areas, r.addr)
  {
    if areas[0] != r {
      var i :| 0 <= i < |areas| && areas[i] == r;
      SameRemoved(areas[1..], r);
    }
  }

  lemma {:induction false} RemoveInBucket(areas: seq<Region>, addr: Address, b: nat, h: Placement)
    ensures InBucket(RemoveAddr(areas, addr), b, h)
         == if h(addr) == b then RemoveAddr(InBucket(areas, b, h), addr) else InBucket(areas, b, h)
  {
    if areas != [] {
      RemoveInBucket(areas[1..], addr, b, h);
      if areas[0].addr != addr {
        var rest := RemoveAddr(areas[1..], addr);
        assert RemoveAddr(areas, addr)[1..] == rest;
        if h(areas[0].addr) == b { assert InBucket(areas, b, h)[1..] == InBucket(areas[1..], b, h); }
      } else if h(addr) == b {
        assert InBucket(areas, b, h)[1..] == InBucket(areas[1..], b, h);
      }
    }
  }

  lemma {:induction false} Removed(areas: seq<Region>, r: Region)
    requires Distinct(areas) && r in areas
    ensures forall x :: x in RemoveAddr(areas, r.addr) <==> x in areas && x != r
    ensures Distinct(RemoveAddr(areas, r.addr)) && Total(RemoveAddr(areas, r.addr)) == Total(areas) - r.length
    ensures Live(RemoveAddr(areas, r.addr)) == Live(areas) - {r.addr}
  {
    if areas[0] == r {
      LiveKeys(areas[1..]);
    } else {
      Removed(areas[1..], r);
      var rest := RemoveAddr(areas[1..], r.addr);
      assert RemoveAddr(areas, r.addr) == [areas[0]] + rest;
      forall i | 0 <= i < |rest| ensures areas[0].addr != rest[i].addr && areas[0].lkey != rest[i].lkey {
        assert rest[i] in areas[1..];
      }
    }
  }

  lemma {:induction false} LiveKeys(areas: seq<Region>)
    ensures forall a :: a in Live(areas) ==> exists r :: r in areas && r.addr == a
  {
    if areas != [] {
      LiveKeys(areas[1..]);
      forall a | a in Live(areas) ensures exists r :: r in areas && r.addr == a {
        if a == areas[0].addr {
          assert areas[0] in areas;
        } else {
          assert a in Live(areas[1..]);
          var r :| r in areas[1..] && r.addr == a;
          assert r in areas;
        }
      }
    }
  }

  lemma {:induction false} FoundIsThere(areas: seq<Region>, addr: Address)
    ensures Find(areas, addr).Some? ==> Find(areas, addr).value in areas && Find(areas, addr).value.addr == addr
  {
    if areas != [] { FoundIsThere(areas[1..], addr); }
  }

  lemma SearchStep(list: seq<Region>, addr: Address, i: nat)
    requires i < |list| && list[i].addr != addr
    ensures Find(list[i..], addr) == Find(list[i + 1..], addr)
    ensures RemoveAddr(list[i..], addr) == [list[i]] + RemoveAddr(list[i + 1..], addr)
  {
    assert list[i..][1..] == list[i + 1..];
  }

  lemma SearchEnds(list: seq<Region>, addr: Address, i: nat)
    requires i <= |list|
    ensures i == |list| ==> Find(list[i..], addr) == None
    ensures i < |list| && list[i].addr == addr ==>
              Find(list[i..], addr) == Some(list[i]) && RemoveAddr(list[i..], addr) == list[i + 1..]
  {
    if i < |list| { assert list[i..][1..] == list[i + 1..]; }
  }

  lemma SearchKeyStep(list: seq<Region>, lkey: int, i: nat)
    requires i <= |list|
    ensures i == |list| ==> RemoveKey(list[i..], lkey) == []
    ensures i < |list| && list[i].lkey == lkey ==> RemoveKey(list[i..], lkey) == list[i + 1..]
    ensures i < |list| && list[i].lkey != lkey ==> RemoveKey(list[i..], lkey) == [list[i]] + RemoveKey(list[i + 1..], lkey)
  {
    if i < |list| { assert list[i..][1..] == list[i + 1..]; }
  }

  lemma FreeKeeps(s: Index, addr: Address)
    requires Agree(s)
    ensures Agree(Free(s, addr)) && Live(Free(s, addr).areas) == Live(s.areas) - {addr}
    ensures Free(s, addr).used == s.used - if addr in Live(s.areas) then Live(s.areas)[addr].length else 0
  {
    FindInBucket(s.areas, addr, s.hash);
    FoundIsThere(s.areas, addr);
    FindIsLive(s.areas, addr);
    match Lookup(s, addr)
    case None =>
    case Some(r) =>
      SameRemoved(s.areas, r);
      Removed(s.areas, r);
      var s' := Free(s, addr);
      forall b | 0 <= b < TABLE_SIZE ensures s'.buckets[b] == InBucket(s'.areas, b, s'.hash) {
          RemoveInBucket(s.areas, addr, b, s.hash); }
  }

  /** Freeing what was just allocated restores both sides exactly. */
  lemma FreeUndoesMalloc(s: Index, r: Region)
    requires Agree(s) && New(s, r)
    ensures Free(Malloc(s, r), r.addr) == s
  {
    var b, s' := s.hash(r.addr), Malloc(s, r);
    assert s'.buckets[b][0] == r && s'.buckets[b][1..] == s.buckets[b];
    assert s'.buckets[b := s.buckets[b]] == s.buckets;
    assert s'.areas[1..] == s.areas;
  }

  // ---- Runs ----

  datatype Op = DoMalloc(region: Region) | DoFree(addr: Address)

  ghost predicate Possible(s: Index, op: Op) { op.DoMalloc? ==> New(s, op.region) }

  function Apply(s: Index, op: Op): Index
    requires Shaped(s)
  {
    match op
    case DoMalloc(r) => Malloc(s, r)
    case DoFree(a) => Free(s, a)
  }

  ghost predicate Run(s: Index, ops: seq<Op>, s': Index)
    decreases |ops|
  {
    if ops == [] then s' == s
    else Shaped(s) && Possible(s, ops[0]) && Run(Apply(s, ops[0]), ops[1..], s')
  }

  /** The same operations on a map of addresses to regions. */
  function Spec(m: map<Address, Region>, ops: seq<Op>): map<Address, Region>
    decreases |ops|
  {
    if ops == [] then m
    else
      match ops[0]
      case DoMalloc(r) => Spec(m[r.addr := r], ops[1..])
      case DoFree(a) => Spec(m - {a}, ops[1..])
  }

  /** The bytes the operations leave allocated, over those of `m`. */
  function Gain(m: map<Address, Region>, ops: seq<Op>): int
    decreases |ops|
  {
    if ops == [] then 0
    else
      match ops[0]
      case DoMalloc(r) => r.length + Gain(m[r.addr := r], ops[1..])
      case DoFree(a) => Gain(m - {a}, ops[1..]) - if a in m then m[a].length else 0
  }

  lemma {:induction false} RunKeeps(s: Index, ops: seq<Op>, s': Index)
    requires Agree(s) && Run(s, ops, s')
    ensures Agree(s') && Live(s'.areas) == Spec(Live(s.areas), ops)
    ensures s'.used == s.used + Gain(Live(s.areas), ops)
    decreases |ops|
  {
    if ops != [] {
      match ops[0] {
        case DoMalloc(r) => MallocKeeps(s, r);
        case DoFree(a) => FreeKeeps(s, a);
      }
      RunKeeps(Apply(s, ops[0]), ops[1..], s');
    }
  }

  /** After any sequence of mallocs and frees the hash table answers like the map, the server's list
      holds the same regions, and the accounted size is the sum of their lengths. */
  lemma TableRefinesMap(hash: Placement, ops: seq<Op>, s: Index, addr: Address)
    requires Run(Start(hash), ops, s)
    ensures Agree(s)
    ensures var m := Spec(map[], ops); Lookup(s, addr) == if addr in m then Some(m[addr]) else None
    ensures Live(s.areas) == Spec(map[], ops) && s.used == Total(s.areas) == Gain(map[], ops)
  {
    forall b | 0 <= b < TABLE_SIZE ensures Start(hash).buckets[b] == InBucket([], b, hash) {}
    RunKeeps(Start(hash), ops, s);
    LookupIsLive(s, addr);
  }

  // ---- Client and server, updating their lists in place ----

  class Cluster {
    const hash: Placement
    var buckets: seq<seq<Region>>
    var areas: seq<Region>
    var used: int

    ghost function View(): Index
      reads this
    {
      Index(hash, buckets, areas, used)
    }

    ghost predicate Valid()
      reads this
    {
      Agree(View())
    }

    constructor (hash: Placement)
      ensures Valid() && View() == Start(hash)
    {
      this.hash := hash;
      buckets, areas, used := seq(TABLE_SIZE, _ => []), [], 0;
    }

    /** dhmp_get_addr_info_from_ht: the entry's position in its bucket, or the bucket's length. */
    static method Search(list: seq<Region>, addr: Address) returns (i: nat)
      ensures i <= |list| && (i < |list| <==> Find(list, addr).Some?)
      ensures i < |list| ==> Find(list, addr) == Some(list[i]) && RemoveAddr(list, addr) == list[..i] + list[i + 1..]
    {
      hide Find, RemoveAddr;
      assert list[0..] == list;
      i := 0;
      while i < |list| && list[i].addr != addr
        invariant 0 <= i <= |list| && Find(list, addr) == Find(list[i..], addr)
        invariant RemoveAddr(list, addr) == list[..i] + RemoveAddr(list[i..], addr)
      {
        SearchStep(list, addr, i);
        assert list[..i + 1] == list[..i] + [list[i]];
        i := i + 1;
      }
      SearchEnds(list, addr, i);
    }

    /** dhmp_free_one_area's search */
    static method SearchKey(list: seq<Region>, lkey: int) returns (i: nat)
      ensures i <= |list|
      ensures RemoveKey(list, lkey) == if i < |list| then list[..i] + list[i + 1..] else list
    {
      hide RemoveKey;
      assert list[0..] == list;
      i := 0;
      while i < |list| && list[i].lkey != lkey
        invariant 0 <= i <= |list|
        invariant RemoveKey(list, lkey) == list[..i] + RemoveKey(list[i..], lkey)
      {
        SearchKeyStep(list, lkey, i);
        assert list[..i + 1] == list[..i] + [list[i]];
        i := i + 1;
      }
      SearchKeyStep(list, lkey, i);
    }

    /** dhmp_malloc_work_handler with the server's answer `r`. */
    method MallocWork(r: Region)
      requires Valid() && New(View(), r)
      modifies this
      ensures Valid() && View() == Malloc(old(View()), r)
    {
      MallocKeeps(View(), r);
      areas := [r] + areas;
      used := used + r.length;
      var index := hash(r.addr);
      buckets := buckets[index := [r] + buckets[index]];
    }

    /** dhmp_free_work_handler with the server's part of it. */
    method FreeWork(addr: Address) returns (found: bool)
      requires Valid()
      modifies this
      ensures Valid() && View() == Free(old(View()), addr) && found == old(Lookup(View(), addr).Some?)
    {
      FreeKeeps(View(), addr);
      var index := hash(addr);
      var i := Search(buckets[index], addr);
      if i == |buckets[index]| { return false; }
      var mr := buckets[index][i];
      buckets := buckets[index := buckets[index][..i] + buckets[index][i + 1..]];
      used := used - mr.length;
      var k := SearchKey(areas, mr.lkey);
      if k < |areas| { areas := areas[..k] + areas[k + 1..]; }
      return true;
    }
  }
}
