/** The send region: a bump allocator that starts over when the next message would not fit, and the
    messages it holds. `size` is SEND_REGION_SIZE. */
module SendRegion {
  import opened Bytes
  import BatchCodec

  /** Where a message of `len` bytes goes when the cursor is at `pos`. */
  function At(pos: nat, len: nat, size: nat): nat { if pos + len > size then 0 else pos }

  /** Where consecutive messages go. */
  function Place(pos: nat, lens: seq<nat>, size: nat): (starts: seq<nat>)
    ensures |starts| == |lens|
    decreases |lens|
  {
    if lens == [] then [] else [At(pos, lens[0], size)] + Place(At(pos, lens[0], size) + lens[0], lens[1..], size)
  }

  /** The cursor after them. */
  function End(pos: nat, lens: seq<nat>, size: nat): nat
    decreases |lens|
  {
    if lens == [] then pos else End(At(pos, lens[0], size) + lens[0], lens[1..], size)
  }

  /** A message lies inside the region exactly when it is no longer than the region. */
  lemma InRegionIff(pos: nat, len: nat, size: nat)
    ensures At(pos, len, size) + len <= size <==> len <= size
  {}

  function Sum(lens: seq<nat>): nat { if lens == [] then 0 else lens[0] + Sum(lens[1..]) }

  predicate Apart(a: nat, n: nat, b: nat, m: nat) { a + n <= b || b + m <= a }

  ghost predicate Disjoint(starts: seq<nat>, lens: seq<nat>)
    requires |starts| == |lens|
  {
    forall i, j :: 0 <= i < j < |lens| ==> Apart(starts[i], lens[i], starts[j], lens[j])
  }

  ghost predicate Sized(lens: seq<nat>, size: nat) {
    forall i :: 0 <= i < |lens| ==> 1 <= lens[i] <= size
  }

  /** No message but the first, added once more to the total, exceeds the region by more than one byte. */
  ghost predicate Window(lens: seq<nat>, size: nat) {
    forall j :: 1 <= j < |lens| ==> Sum(lens) + lens[j] <= size + 1
  }

  lemma PlaceHead(pos: nat, lens: seq<nat>, size: nat)
    requires lens != []
    ensures Place(pos, lens, size)[0] == At(pos, lens[0], size)
    ensures Place(pos, lens, size)[1..] == Place(At(pos, lens[0], size) + lens[0], lens[1..], size)
  {}

  /** Messages that fit before the end of the region lie one after the other. */
  lemma {:induction false} Straight(pos: nat, lens: seq<nat>, size: nat)
    requires pos + Sum(lens) <= size
    ensures Disjoint(Place(pos, lens, size), lens) && End(pos, lens, size) == pos + Sum(lens)
    ensures forall i :: 0 <= i < |lens| ==>
              pos <= Place(pos, lens, size)[i] && Place(pos, lens, size)[i] + lens[i] <= pos + Sum(lens)
    decreases |lens|
  {
    if lens != [] {
      Straight(pos + lens[0], lens[1..], size);
      var starts := Place(pos, lens, size);
      assert starts[1..] == Place(pos + lens[0], lens[1..], size);
      assert forall i :: 1 <= i < |lens| ==> starts[i] == starts[1..][i - 1] && lens[i] == lens[1..][i - 1];
    }
  }

  /** The messages stay clear of the block from `from` to `to`, and of each other. */
  ghost predicate Clear(from: nat, to: nat, starts: seq<nat>, lens: seq<nat>)
    requires |starts| == |lens|
  {
    Disjoint(starts, lens) && forall i :: 0 <= i < |lens| ==> starts[i] + lens[i] <= from || to <= starts[i]
  }

  /** The first message follows the block, and the others are clear of both together. */
  lemma ClearCons(from: nat, to: nat, starts: seq<nat>, lens: seq<nat>)
    requires |starts| == |lens| > 0 && from <= to == starts[0] && Clear(from, to + lens[0], starts[1..], lens[1..])
    ensures Clear(from, to, starts, lens)
  {
    forall j | 0 < j < |lens|
      ensures starts[j] + lens[j] <= from || to + lens[0] <= starts[j]
    {
      assert starts[j] == starts[1..][j - 1] && lens[j] == lens[1..][j - 1];
    }
    forall i, j | 0 <= i < j < |lens| ensures Apart(starts[i], lens[i], starts[j], lens[j]) {
      if i > 0 {
        assert starts[i] == starts[1..][i - 1] && lens[i] == lens[1..][i - 1];
        assert starts[j] == starts[1..][j - 1] && lens[j] == lens[1..][j - 1];
      }
    }
  }

  lemma ClearNone(from: nat, to: nat, starts: seq<nat>, lens: seq<nat>)
    requires |starts| == |lens| == 0
    ensures Clear(from, to, starts, lens)
  {}

  lemma PlaceFits(pos: nat, lens: seq<nat>, size: nat)
    requires lens != [] && pos + lens[0] <= size
    ensures Place(pos, lens, size)[0] == pos && Place(pos, lens, size)[1..] == Place(pos + lens[0], lens[1..], size)
  {}

  /** Starting over, all of them stay below the block. */
  lemma StraightBelow(from: nat, to: nat, lens: seq<nat>, size: nat)
    requires lens != [] && to + lens[0] > size && Sum(lens) <= from <= size
    ensures Clear(from, to, Place(to, lens, size), lens)
  {
    SumHead(lens);
    Straight(0, lens, size);
    PlaceWraps(to, lens, size);
    hide Place, Sum;
  }

  lemma PlaceWraps(pos: nat, lens: seq<nat>, size: nat)
    requires lens != [] && pos + lens[0] > size
    ensures Place(pos, lens, size) == Place(0, lens, size)
  {}

  /** Messages placed after a block stay clear of it. */
  lemma {:induction false} ClearOf(from: nat, to: nat, lens: seq<nat>, size: nat)
    requires from <= to <= size && forall j :: 0 <= j < |lens| ==> (to - from) + Sum(lens) + lens[j] <= size + 1
    ensures Clear(from, to, Place(to, lens, size), lens)
    decreases |lens|
  {
    hide Place, Clear, Sum;
    if lens == [] {
      ClearNone(from, to, Place(to, lens, size), lens);
    } else {
      SumHead(lens);
      if to + lens[0] > size {
        StraightBelow(from, to, lens, size);
      } else {
        PlaceFits(to, lens, size);
        ClearOf(from, to + lens[0], lens[1..], size);
        ClearCons(from, to, Place(to, lens, size), lens);
      }
    }
  }

  lemma PlaceFrom(pos: nat, lens: seq<nat>, size: nat)
    requires lens != []
    ensures Place(pos, lens, size) == Place(At(pos, lens[0], size), lens, size) || lens[0] > size
  {}

  /** Consecutive messages within the window never overlap, wherever the cursor starts. */
  lemma WindowDisjoint(pos: nat, lens: seq<nat>, size: nat)
    requires Sized(lens, size) && Window(lens, size)
    ensures Disjoint(Place(pos, lens, size), lens)
  {
    hide Place, Clear, Sum;
    if lens != [] {
      hide Disjoint;
      var from := At(pos, lens[0], size);
      assert 1 <= lens[0] <= size;
      SumHead(lens);
      forall j | 0 <= j < |lens[1..]| ensures lens[0] + Sum(lens[1..]) + lens[1..][j] <= size + 1 {
        assert lens[1..][j] == lens[j + 1];
      }
      ClearOf(from, from + lens[0], lens[1..], size);
      FromFirst(pos, lens, size);
    }
  }

  /** Clear of the first message is disjoint. */
  lemma FromFirst(pos: nat, lens: seq<nat>, size: nat)
    requires lens != [] && lens[0] <= size
    requires var from := At(pos, lens[0], size);
             Clear(from, from + lens[0], Place(from + lens[0], lens[1..], size), lens[1..])
    ensures Disjoint(Place(pos, lens, size), lens)
  {
    hide Place;
    var from := At(pos, lens[0], size);
    PlaceFrom(pos, lens, size);
    PlaceFits(from, lens, size);
    ClearCons(from, from, Place(from, lens, size), lens);
  }

  // ---- The bound is exact ----

  /** Bytes of a message besides its data, so no message is shorter. */
  const FRAME: nat := 12

  ghost predicate Framed(lens: seq<nat>, size: nat) {
    forall i :: 0 <= i < |lens| ==> FRAME <= lens[i] <= size
  }

  /** A cursor some messages leave behind. */
  ghost predicate Reached(pos: nat, size: nat) {
    exists before :: Framed(before, size) && pos == End(0, before, size)
  }

  lemma {:induction false} EndIsFramed(pos: nat, lens: seq<nat>, size: nat)
    requires Framed(lens, size) && (pos == 0 || FRAME <= pos <= size)
    ensures End(pos, lens, size) == 0 || FRAME <= End(pos, lens, size) <= size
    decreases |lens|
  {
    if lens != [] {
      assert FRAME <= lens[0] <= size;
      forall i | 0 <= i < |lens[1..]| ensures FRAME <= lens[1..][i] <= size { assert FRAME <= lens[i + 1] <= size; }
      EndIsFramed(At(pos, lens[0], size) + lens[0], lens[1..], size);
    }
  }

  lemma ReachedIff(pos: nat, size: nat)
    ensures Reached(pos, size) <==> pos == 0 || FRAME <= pos <= size
  {
    if Reached(pos, size) {
      var before :| Framed(before, size) && pos == End(0, before, size);
      EndIsFramed(0, before, size);
    } else if pos == 0 {
      assert Framed([], size) && End(0, [], size) == 0;
    } else if FRAME <= pos <= size {
      assert [pos][1..] == [];
      assert Framed([pos], size) && End(0, [pos], size) == pos;
    }
  }

  /** The condition for message `j`: the window's, or it is the last, of no data, and all fit at once. */
  predicate Allowed(total: nat, lens: seq<nat>, j: nat, size: nat)
    requires j < |lens|
  {
    total + lens[j] <= size + 1 || (j == |lens| - 1 && lens[j] == FRAME && total <= size)
  }

  ghost predicate AllAllowed(total: nat, lens: seq<nat>, from: nat, size: nat) {
    forall j :: from <= j < |lens| ==> Allowed(total, lens, j, size)
  }

  ghost predicate FramedWindow(lens: seq<nat>, size: nat) { AllAllowed(Sum(lens), lens, 1, size) }

  lemma RestAllowed(total: nat, lens: seq<nat>, size: nat)
    requires Framed(lens, size) && AllAllowed(total, lens, 1, size) && lens != []
    ensures Framed(lens[1..], size) && AllAllowed(total, lens[1..], 0, size)
  {
    forall j | 0 <= j < |lens[1..]| ensures FRAME <= lens[1..][j] <= size && Allowed(total, lens[1..], j, size) {
      assert lens[1..][j] == lens[j + 1] && Allowed(total, lens, j + 1, size);
    }
  }

  /** As ClearOf, after a block that does not start within the first bytes of the region. */
  lemma {:induction false} FramedClearOf(total: nat, from: nat, to: nat, lens: seq<nat>, size: nat)
    requires FRAME <= from <= to <= size && Framed(lens, size)
    requires total == to - from + Sum(lens) && AllAllowed(total, lens, 0, size)
    ensures Clear(from, to, Place(to, lens, size), lens)
    decreases |lens|
  {
    hide Place, Clear, Sum, Framed, AllAllowed;
    if lens == [] {
      ClearNone(from, to, Place(to, lens, size), lens);
    } else {
      FirstFramed(lens, size);
      SumHead(lens);
      if to + lens[0] > size {
        WrapFits(total, from, to, lens, size);
        StraightBelow(from, to, lens, size);
      } else {
        PlaceFits(to, lens, size);
        AllowedLater(total, lens, size);
        RestAllowed(total, lens, size);
        FramedClearOf(total, from, to + lens[0], lens[1..], size);
        ClearCons(from, to, Place(to, lens, size), lens);
      }
    }
  }

  lemma FirstFramed(lens: seq<nat>, size: nat)
    requires Framed(lens, size) && lens != []
    ensures FRAME <= lens[0] <= size
  {}

  lemma AllowedLater(total: nat, lens: seq<nat>, size: nat)
    requires AllAllowed(total, lens, 0, size)
    ensures AllAllowed(total, lens, 1, size)
  {}

  lemma WrapFits(total: nat, from: nat, to: nat, lens: seq<nat>, size: nat)
    requires FRAME <= from <= to && lens != [] && to + lens[0] > size
    requires total == to - from + Sum(lens) && AllAllowed(total, lens, 0, size)
    ensures Sum(lens) <= from
  {
    assert Allowed(total, lens, 0, size);
    if |lens| == 1 { assert lens[1..] == []; }
  }

  lemma AllowedTotal(lens: seq<nat>, size: nat)
    requires Framed(lens, size) && FramedWindow(lens, size) && lens != []
    ensures Sum(lens) <= size
  {
    if |lens| == 1 {
      assert lens[1..] == [];
    } else {
      assert Allowed(Sum(lens), lens, 1, size) && lens[1] >= 1;
    }
  }

  lemma FramedWindowDisjoint(pos: nat, lens: seq<nat>, size: nat)
    requires Framed(lens, size) && FramedWindow(lens, size) && (pos == 0 || FRAME <= pos <= size)
    ensures Disjoint(Place(pos, lens, size), lens)
  {
    if lens != [] {
      hide Place, Clear, Sum, Disjoint;
      var from := At(pos, lens[0], size);
      assert FRAME <= lens[0] <= size;
      AllowedTotal(lens, size);
      if from == 0 {
        Straight(0, lens, size);
        PlaceFrom(pos, lens, size);
      } else {
        SumHead(lens);
        RestAllowed(Sum(lens), lens, size);
        FramedClearOf(Sum(lens), from, from + lens[0], lens[1..], size);
        FromFirst(pos, lens, size);
      }
    }
  }

  /** Messages placed from `from` on that together reach byte `p` either cover it or start over. */
  lemma {:induction false} Reaches(from: nat, lens: seq<nat>, size: nat, p: nat) returns (k: nat)
    requires from <= p <= size && from + Sum(lens) > p
    ensures k < |lens|
    ensures var start := Place(from, lens, size)[k]; start <= p < start + lens[k] <= size || start == 0
    decreases |lens|
  {
    if from + lens[0] > size || from + lens[0] > p {
      k := 0;
    } else {
      k := Reaches(from + lens[0], lens[1..], size, p);
      k := k + 1;
    }
  }

  lemma {:induction false} PlaceSplit(pos: nat, a: seq<nat>, b: seq<nat>, size: nat)
    ensures Place(pos, a + b, size) == Place(pos, a, size) + Place(End(pos, a, size), b, size)
    ensures Sum(a + b) == Sum(a) + Sum(b) && End(pos, a + b, size) == End(End(pos, a, size), b, size)
    decreases |a|
  {
    if a == [] {
      assert a + b == b;
    } else {
      assert (a + b)[1..] == a[1..] + b;
      PlaceSplit(At(pos, a[0], size) + a[0], a[1..], b, size);
    }
  }

  /** When message `j` is not allowed, two of the messages overlap from some cursor that is reached. */
  lemma OverlapExists(lens: seq<nat>, size: nat, j: nat) returns (pos: nat)
    requires Framed(lens, size) && 1 <= j < |lens| && !Allowed(Sum(lens), lens, j, size)
    ensures (pos == 0 || FRAME <= pos <= size) && !Disjoint(Place(pos, lens, size), lens)
  {
    var before, rest := lens[..j], lens[j + 1..];
    assert lens == before + ([lens[j]] + rest);
    assert before[0] == lens[0];
    PlaceSplit(0, before, [lens[j]] + rest, size);
    SumCons(lens[j], rest);
    if Sum(lens) > size {
      pos := 0;
      StartsOver(lens, size);
    } else {
      var free := size + 1 - lens[j] - Sum(before);
      pos := if free < FRAME then FRAME else free;
      RestIsFramed(lens, j, size);
      Collides(lens, size, pos, before, lens[j], rest);
    }
  }

  /** What follows message `j` is nothing, or at least a frame. */
  lemma RestIsFramed(lens: seq<nat>, j: nat, size: nat)
    requires Framed(lens, size) && j < |lens|
    ensures j < |lens| - 1 ==> Sum(lens[j + 1..]) >= FRAME
  {
    if j < |lens| - 1 {
      assert lens[j + 1..][0] == lens[j + 1];
      SumHead(lens[j + 1..]);
    }
  }

  lemma SumCons(x: nat, rest: seq<nat>)
    ensures Sum([x] + rest) == x + Sum(rest)
  {
    assert ([x] + rest)[1..] == rest;
  }

  lemma StartsOver(lens: seq<nat>, size: nat)
    requires Framed(lens, size) && lens != [] && Sum(lens) > size
    ensures !Disjoint(Place(0, lens, size), lens)
  {
    var starts := Place(0, lens, size);
    assert FRAME <= lens[0] <= size;
    var k := Reaches(lens[0], lens[1..], size, size);
    PlaceHead(0, lens, size);
    assert starts[k + 1] == starts[1..][k] == 0 && starts[0] == 0;
    assert lens[k + 1] >= 1;
    assert !Apart(starts[0], lens[0], starts[k + 1], lens[k + 1]);
  }

  lemma PlaceRestart(pos: nat, x: nat, rest: seq<nat>, size: nat)
    requires pos + x > size
    ensures Place(pos, [x] + rest, size) == [0] + Place(x, rest, size)
  {
    assert ([x] + rest)[1..] == rest;
  }

  /** Message `x`, which no longer fits, starts over at 0; those after it follow from there. */
  lemma AfterRestart(size: nat, pos: nat, before: seq<nat>, x: nat, rest: seq<nat>)
    requires before != [] && pos + Sum(before) <= size < pos + Sum(before) + x
    ensures Place(pos, before + ([x] + rest), size) == Place(pos, before, size) + ([0] + Place(x, rest, size))
    ensures Place(pos, before, size)[0] == pos
  {
    hide Place, Sum, End;
    Straight(pos, before, size);
    PlaceSplit(pos, before, [x] + rest, size);
    PlaceRestart(pos + Sum(before), x, rest, size);
    PlaceHead(pos, before, size);
    SumHead(before);
  }

  lemma Appended(a: seq<nat>, x: nat, b: seq<nat>, i: nat)
    ensures i < |b| ==> (a + ([x] + b))[|a| + 1 + i] == b[i]
    ensures (a + ([x] + b))[|a|] == x && (a != [] ==> (a + ([x] + b))[0] == a[0])
  {}

  lemma Collides(lens: seq<nat>, size: nat, pos: nat, before: seq<nat>, x: nat, rest: seq<nat>)
    requires Framed(lens, size) && before != [] && lens == before + ([x] + rest) && 1 <= x <= size
    requires pos + Sum(before) <= size < pos + Sum(before) + x && x + Sum(rest) > pos
    ensures !Disjoint(Place(pos, lens, size), lens)
  {
    hide Place, Sum;
    var starts, j, after := Place(pos, lens, size), |before|, Place(x, rest, size);
    Appended(before, x, rest, 0);
    AfterRestart(size, pos, before, x, rest);
    Appended(Place(pos, before, size), 0, after, 0);
    if x > pos {
      assert !Apart(starts[0], lens[0], starts[j], lens[j]);
    } else {
      var k := Reaches(x, rest, size, pos);
      Appended(before, x, rest, k);
      Appended(Place(pos, before, size), 0, after, k);
      assert !Apart(starts[0], lens[0], starts[j + 1 + k], lens[j + 1 + k])
          || !Apart(starts[j], lens[j], starts[j + 1 + k], lens[j + 1 + k]);
    }
  }

  lemma SumHead(lens: seq<nat>)
    requires lens != []
    ensures Sum(lens) == lens[0] + Sum(lens[1..])
  {}

  /** The exact condition under which consecutive messages never overlap, wherever earlier messages left the cursor. */
  lemma WindowIsExact(lens: seq<nat>, size: nat)
    requires Framed(lens, size)
    ensures (forall pos :: Reached(pos, size) ==> Disjoint(Place(pos, lens, size), lens)) <==> FramedWindow(lens, size)
  {
    if FramedWindow(lens, size) {
      forall pos | Reached(pos, size) ensures Disjoint(Place(pos, lens, size), lens) {
        ReachedIff(pos, size);
        FramedWindowDisjoint(pos, lens, size);
      }
    } else {
      var j :| 1 <= j < |lens| && !Allowed(Sum(lens), lens, j, size);
      var pos := OverlapExists(lens, size, j);
      ReachedIff(pos, size);
    }
  }

  /** The bound in its common form: the total and the longest message together. */
  lemma TotalAndLongest(lens: seq<nat>, size: nat, longest: nat)
    requires Sum(lens) + longest <= size + 1 && forall i :: 0 <= i < |lens| ==> lens[i] <= longest
    ensures Window(lens, size)
  {}

  // ---- The bytes ----

  ghost function Lengths(frames: seq<seq<Byte>>): (lens: seq<nat>)
    ensures |lens| == |frames|
  {
    seq(|frames|, i requires 0 <= i < |frames| => |frames[i]|)
  }

  /** The region after consecutive messages. */
  ghost function Post(buf: seq<Byte>, pos: nat, frames: seq<seq<Byte>>): (r: seq<Byte>)
    requires Sized(Lengths(frames), |buf|)
    ensures |r| == |buf|
    decreases |frames|
  {
    if frames == [] then buf
    else
      assert |frames[0]| == Lengths(frames)[0];
      var at := At(pos, |frames[0]|, |buf|);
      Rest(frames);
      Post(Splice(buf, at, frames[0]), at + |frames[0]|, frames[1..])
  }

  lemma Rest(frames: seq<seq<Byte>>)
    ensures frames != [] ==> Lengths(frames)[0] == |frames[0]| && Lengths(frames)[1..] == Lengths(frames[1..])
  {}

  /** Byte `k` lies outside all the messages. */
  ghost predicate Off(k: nat, starts: seq<nat>, lens: seq<nat>)
    requires |starts| == |lens|
  {
    forall i :: 0 <= i < |lens| ==> Apart(k, 1, starts[i], lens[i])
  }

  lemma OffRest(k: nat, starts: seq<nat>, lens: seq<nat>)
    requires |starts| == |lens| > 0 && Off(k, starts, lens)
    ensures Apart(k, 1, starts[0], lens[0]) && Off(k, starts[1..], lens[1..])
  {
    forall i | 0 <= i < |lens[1..]| ensures Apart(k, 1, starts[1..][i], lens[1..][i]) {
      assert Apart(k, 1, starts[i + 1], lens[i + 1]);
    }
  }

  lemma {:induction false} UntouchedAt(buf: seq<Byte>, pos: nat, frames: seq<seq<Byte>>, k: nat)
    requires Sized(Lengths(frames), |buf|) && k < |buf|
    requires Off(k, Place(pos, Lengths(frames), |buf|), Lengths(frames))
    ensures Post(buf, pos, frames)[k] == buf[k]
    decreases |frames|
  {
    if frames != [] {
      hide Place, Post, Splice, Off;
      Rest(frames);
      PostHead(buf, pos, frames);
      PlaceHead(pos, Lengths(frames), |buf|);
      OffRest(k, Place(pos, Lengths(frames), |buf|), Lengths(frames));
      var at := At(pos, |frames[0]|, |buf|);
      UntouchedAt(Splice(buf, at, frames[0]), at + |frames[0]|, frames[1..], k);
      SpliceReads(buf, at, frames[0]);
    }
  }

  lemma Untouched(buf: seq<Byte>, pos: nat, frames: seq<seq<Byte>>, a: nat, n: nat)
    requires Sized(Lengths(frames), |buf|) && a + n <= |buf|
    requires forall i :: 0 <= i < |frames| ==> Apart(a, n, Place(pos, Lengths(frames), |buf|)[i], |frames[i]|)
    ensures forall k :: a <= k < a + n ==> Post(buf, pos, frames)[k] == buf[k]
  {
    hide Place, Post;
    forall k | a <= k < a + n ensures Post(buf, pos, frames)[k] == buf[k] {
      assert Off(k, Place(pos, Lengths(frames), |buf|), Lengths(frames));
      UntouchedAt(buf, pos, frames, k);
    }
  }

  /** What the send reads. */
  function Sent(buf: seq<Byte>, at: nat, n: nat): (d: seq<Byte>)
    requires at + n <= |buf|
    ensures |d| == n
  {
    buf[at..at + n]
  }

  /** Disjoint messages are all intact once the last of them is written. */
  lemma {:induction false} DisjointIntact(buf: seq<Byte>, pos: nat, frames: seq<seq<Byte>>, i: nat)
    requires Sized(Lengths(frames), |buf|) && i < |frames|
        && Disjoint(Place(pos, Lengths(frames), |buf|), Lengths(frames))
    ensures var at := Place(pos, Lengths(frames), |buf|)[i];
            at + |frames[i]| <= |buf| && Sent(Post(buf, pos, frames), at, |frames[i]|) == frames[i]
    decreases |frames|
  {
    hide Place, Post, Splice, Lengths;
    Rest(frames);
    var at, lens := At(pos, |frames[0]|, |buf|), Lengths(frames);
    var starts := Place(pos, lens, |buf|);
    PlaceHead(pos, lens, |buf|);
    PostHead(buf, pos, frames);
    var buf' := Splice(buf, at, frames[0]);
    if i == 0 {
      forall k | 0 <= k < |frames[1..]| ensures Apart(at, |frames[0]|, starts[1..][k], |frames[1..][k]|) {
        LengthAt(frames, k + 1);
        assert Apart(starts[0], lens[0], starts[k + 1], lens[k + 1]);
      }
      Untouched(buf', at + |frames[0]|, frames[1..], at, |frames[0]|);
      SpliceReads(buf, at, frames[0]);
    } else {
      forall x, y | 0 <= x < y < |frames[1..]| ensures Apart(starts[1..][x], lens[1..][x], starts[1..][y],
          lens[1..][y]) {
        assert Apart(starts[x + 1], lens[x + 1], starts[y + 1], lens[y + 1]);
      }
      DisjointIntact(buf', at + |frames[0]|, frames[1..], i - 1);
    }
  }

  lemma LengthAt(frames: seq<seq<Byte>>, i: nat)
    requires i < |frames|
    ensures Lengths(frames)[i] == |frames[i]|
  {}

  lemma PostHead(buf: seq<Byte>, pos: nat, frames: seq<seq<Byte>>)
    requires Sized(Lengths(frames), |buf|) && frames != []
    ensures var at := At(pos, |frames[0]|, |buf|);
            && at + |frames[0]| <= |buf| && Sized(Lengths(frames[1..]), |buf|)
            && Post(buf, pos, frames) == Post(Splice(buf, at, frames[0]), at + |frames[0]|, frames[1..])
  {
    Rest(frames);
  }

  lemma LengthsSum(a: seq<seq<Byte>>, b: seq<seq<Byte>>, size: nat)
    ensures Lengths(a + b) == Lengths(a) + Lengths(b)
    ensures Sized(Lengths(a), size) && Sized(Lengths(b), size) ==> Sized(Lengths(a + b), size)
  {
    assert Lengths(a + b) == Lengths(a) + Lengths(b);
  }

  lemma PostCons(buf: seq<Byte>, pos: nat, f: seq<Byte>, rest: seq<seq<Byte>>)
    requires Sized(Lengths([f] + rest), |buf|)
    ensures Lengths([f] + rest) == [|f|] + Lengths(rest) && Sized(Lengths(rest), |buf|)
    ensures At(pos, |f|, |buf|) + |f| <= |buf|
    ensures var at := At(pos, |f|, |buf|);
            Post(buf, pos, [f] + rest) == Post(Splice(buf, at, f), at + |f|, rest)
  {
    assert ([f] + rest)[1..] == rest;
    Rest([f] + rest);
  }

  lemma EndCons(pos: nat, x: nat, rest: seq<nat>, size: nat)
    ensures End(pos, [x] + rest, size) == End(At(pos, x, size) + x, rest, size)
  {
    assert ([x] + rest)[1..] == rest;
  }

  /** The first message of two series with a common head. */
  lemma PostFirst(buf: seq<Byte>, pos: nat, f: seq<Byte>, rest: seq<seq<Byte>>, b: seq<seq<Byte>>)
    returns (buf': seq<Byte>, pos': nat)
    requires Sized(Lengths([f] + rest), |buf|) && Sized(Lengths([f] + (rest + b)), |buf|)
    ensures |buf'| == |buf| && Sized(Lengths(rest), |buf|) && Sized(Lengths(rest + b), |buf|)
    ensures Post(buf, pos, [f] + rest) == Post(buf', pos', rest)
    ensures Post(buf, pos, [f] + (rest + b)) == Post(buf', pos', rest + b)
    ensures End(pos, Lengths([f] + rest), |buf|) == End(pos', Lengths(rest), |buf|)
  {
    hide Post, End, Splice, Lengths, Sized;
    PostCons(buf, pos, f, rest);
    PostCons(buf, pos, f, rest + b);
    EndCons(pos, |f|, Lengths(rest), |buf|);
    pos' := At(pos, |f|, |buf|);
    buf' := Splice(buf, pos', f);
    pos' := pos' + |f|;
  }

  lemma {:induction false} PostSplit(buf: seq<Byte>, pos: nat, a: seq<seq<Byte>>, b: seq<seq<Byte>>)
    requires Sized(Lengths(a), |buf|) && Sized(Lengths(b), |buf|)
    ensures Sized(Lengths(a + b), |buf|)
    ensures Post(buf, pos, a + b) == Post(Post(buf, pos, a), End(pos, Lengths(a), |buf|), b)
    decreases |a|
  {
    LengthsSum(a, b, |buf|);
    if a == [] {
      assert a + b == b;
    } else {
      hide Post, End, Lengths, Sized;
      var f, rest := a[0], a[1..];
      assert a == [f] + rest && a + b == [f] + (rest + b);
      var buf', pos' := PostFirst(buf, pos, f, rest, b);
      PostSplit(buf', pos', rest, b);
    }
  }

  lemma WindowFrom(buf: seq<Byte>, pos: nat, window: seq<seq<Byte>>, i: nat)
    requires Sized(Lengths(window), |buf|) && Window(Lengths(window), |buf|) && i < |window|
    ensures var at := Place(pos, Lengths(window), |buf|)[i];
            at + |window[i]| <= |buf| && Sent(Post(buf, pos, window), at, |window[i]|) == window[i]
  {
    WindowDisjoint(pos, Lengths(window), |buf|);
    DisjointIntact(buf, pos, window, i);
  }

  lemma StartOf(before: seq<seq<Byte>>, window: seq<seq<Byte>>, i: nat, size: nat)
    requires i < |window|
    ensures Place(0, Lengths(before + window), size)[|before| + i]
        == Place(End(0, Lengths(before), size), Lengths(window), size)[i]
  {
    LengthsSum(before, window, size);
    PlaceSplit(0, Lengths(before), Lengths(window), size);
  }

  /** Whatever was sent before, the messages of a window are all intact after the last of them. */
  lemma WindowIntact(buf: seq<Byte>, before: seq<seq<Byte>>, window: seq<seq<Byte>>, i: nat)
    requires Sized(Lengths(before), |buf|) && Sized(Lengths(window), |buf|) && Window(Lengths(window), |buf|)
        && i < |window|
    ensures Sized(Lengths(before + window), |buf|)
    ensures var at := Place(0, Lengths(before + window), |buf|)[|before| + i];
            at + |window[i]| <= |buf| && Sent(Post(buf, 0, before + window), at, |window[i]|) == window[i]
  {
    hide Sent;
    PostSplit(buf, 0, before, window);
    StartOf(before, window, i, |buf|);
    WindowFrom(Post(buf, 0, before), End(0, Lengths(before), |buf|), window, i);
  }

  /** The region of one connection. */
  class Region {
    const buf: array<Byte>
    var curPos: nat

    constructor (size: nat)
      ensures fresh(buf) && buf.Length == size && curPos == 0
    {
      buf := new Byte[size];
      curPos := 0;
    }

    /** dhmp_send_task_create: place the message, advance the cursor, copy type, size and data. */
    method SendTask(kind: BatchCodec.Kind, data: seq<Byte>) returns (at: nat, length: nat)
      requires 12 + |data| < WORD && 12 + |data| <= buf.Length
      modifies this`curPos, buf
      ensures length == |BatchCodec.Frame(kind, data)| && at + length <= buf.Length
      ensures at == Place(old(curPos), [length], buf.Length)[0] && curPos == End(old(curPos), [length], buf.Length)
      ensures Sized(Lengths([BatchCodec.Frame(kind, data)]), buf.Length)
      ensures buf[..] == Post(old(buf[..]), old(curPos), [BatchCodec.Frame(kind, data)])
    {
      length := 4 + 8 + |data|;
      if curPos + length > buf.Length {
        curPos := 0;
      }
      at := curPos;
      curPos := curPos + length;
      ghost var was := buf[..];
      Copy(buf, at, Digits(kind, 4));
      Copy(buf, at + 4, Enc(|data|));
      SpliceJoin(was, at, Digits(kind, 4), Enc(|data|));
      Copy(buf, at + 12, data);
      SpliceJoin(was, at, Digits(kind, 4) + Enc(|data|), data);
    }
  }
}
