/** The FaRM request ring (WFLUSH form): `n` slots, any number of calling threads, one client
    worker, one server poller and one client poller, each with its own cursor. Every atomic
    action is a step; a run is any interleaving of steps. */
module FarmRing {
  import opened Modular
  import opened Sequences
  import opened Wrappers

  /** One call: what it asks and the slot it was given. `ticket` numbers the acquisitions; no
      step looks at it. */
  datatype Call = Call(payload: int, cur: nat, ticket: nat)

  datatype ServerAt = Polling | Replying | Advancing
  datatype ClientAt = Watching | Releasing | Moving

  datatype Ring = Ring(
    n: nat,
    avail: seq<bool>, scur: nat,                          // client, under mutex_request_num
    held: set<Call>, workList: seq<Call>,                 // calls acquired; calls on the work list
    slots: seq<Option<Call>>, server: ServerAt, si: nat,  // server; Some when the valid byte is set
    replies: seq<bool>, client: ClientAt, ccur: nat,      // reply flags and the client's poller
    acquired: seq<Call>, served: seq<Call>, released: seq<nat>)  // history

  function Start(n: nat): Ring {
    Ring(n, seq(n, _ => true), 0, {}, [], seq(n, _ => None), Polling, 0, seq(n, _ => false), Watching, 0, [], [], [])
  }

  datatype Step =
    | Acquire(payload: int)  // model_FaRM takes a slot
    | Enqueue(call: Call)    // ... and, in any order, appends its work
    | Write                  // the worker takes the first work and writes its request
    | Serve | Reply | ServerAdvance
    | Watch | Release | ClientAdvance

  predicate Shaped(s: Ring) {
    && s.n >= 1 && |s.avail| == |s.slots| == |s.replies| == s.n
    && s.scur < s.n && s.si < s.n && s.ccur < s.n
    && (forall c :: c in s.workList ==> c.cur < s.n)
  }

  predicate Enabled(s: Ring, t: Step)
    requires Shaped(s)
  {
    match t
    case Acquire(_) => s.avail[s.scur]
    case Enqueue(c) => c in s.held && c.cur < s.n
    case Write => s.workList != []
    case Serve => s.server == Polling && s.slots[s.si].Some?
    case Reply => s.server == Replying
    case ServerAdvance => s.server == Advancing
    case Watch => s.client == Watching && s.replies[s.ccur]
    case Release => s.client == Releasing
    case ClientAdvance => s.client == Moving
  }

  function Next(s: Ring, t: Step): Ring
    requires Shaped(s) && Enabled(s, t)
  {
    match t
    case Acquire(p) =>
      var c := Call(p, s.scur, |s.acquired|);
      s.(avail := s.avail[s.scur := false], scur := (s.scur + 1) % s.n,
         held := s.held + {c}, acquired := s.acquired + [c])
    case Enqueue(c) => s.(held := s.held - {c}, workList := s.workList + [c])
    case Write => s.(workList := s.workList[1..], slots := s.slots[s.workList[0].cur := Some(s.workList[0])])
    case Serve =>
      s.(slots := s.slots[s.si := None], server := Replying, served := s.served + [s.slots[s.si].value])
    case Reply => s.(replies := s.replies[s.si := true], server := Advancing)
    case ServerAdvance => s.(si := (s.si + 1) % s.n, server := Polling)
    case Watch => s.(replies := s.replies[s.ccur := false], client := Releasing)
    case Release => s.(avail := s.avail[s.ccur := true], client := Moving, released := s.released + [s.ccur])
    case ClientAdvance => s.(ccur := (s.ccur + 1) % s.n, client := Watching)
  }

  // ---- Windows of ticket numbers, seen as slots ----

  /** Some number in [lo, hi) falls on slot `j`. */
  predicate InWindow(j: nat, lo: nat, hi: nat, n: nat)
    requires n >= 1
  {
    lo < hi && (j == (hi - 1) % n || InWindow(j, lo, hi - 1, n))
  }

  lemma {:induction false} WindowHas(k: nat, lo: nat, hi: nat, n: nat)
    requires n >= 1 && lo <= k < hi
    ensures InWindow(k % n, lo, hi, n)
    decreases hi
  {
    if k < hi - 1 { WindowHas(k, lo, hi - 1, n); }
  }

  lemma {:induction false} WindowWitness(j: nat, lo: nat, hi: nat, n: nat) returns (k: nat)
    requires n >= 1 && InWindow(j, lo, hi, n)
    ensures lo <= k < hi && k % n == j
    decreases hi
  {
    if j == (hi - 1) % n { k := hi - 1; } else { k := WindowWitness(j, lo, hi - 1, n); }
  }

  /** Dropping the oldest number of a window of at most `n` frees exactly its slot. */
  lemma WindowPop(j: nat, lo: nat, hi: nat, n: nat)
    requires n >= 1 && lo < hi <= lo + n
    ensures InWindow(j, lo + 1, hi, n) <==> InWindow(j, lo, hi, n) && j != lo % n
  {
    if InWindow(j, lo + 1, hi, n) {
      var k := WindowWitness(j, lo + 1, hi, n);
      WindowHas(k, lo, hi, n);
      if j == lo % n { SameSlot(lo, k, n); }
    }
    if InWindow(j, lo, hi, n) && j != lo % n {
      var k := WindowWitness(j, lo, hi, n);
      WindowHas(k, lo + 1, hi, n);
    }
  }

  // ---- The invariant ----

  /** Requests acquired, consumed by the server, answered, seen answered, and released. */
  function A(s: Ring): nat { |s.acquired| }
  function S(s: Ring): nat { |s.served| }
  function P(s: Ring): int { S(s) - if s.server == Replying then 1 else 0 }
  function Q(s: Ring): nat { R(s) + if s.client == Releasing then 1 else 0 }
  function R(s: Ring): nat { |s.released| }

  /** Rounds the two pollers have completed. */
  function ServerRounds(s: Ring): int { S(s) - if s.server == Polling then 0 else 1 }
  function ClientRounds(s: Ring): int { R(s) - if s.client == Moving then 1 else 0 }

  ghost predicate Counts(s: Ring) {
    && 0 <= ServerRounds(s) && 0 <= ClientRounds(s)
    && Q(s) <= P(s) && S(s) <= A(s) <= R(s) + s.n
  }

  ghost predicate Cursors(s: Ring)
    requires s.n >= 1 && Counts(s)
  {
    && s.scur == A(s) % s.n
    && s.si == ServerRounds(s) % s.n
    && s.ccur == ClientRounds(s) % s.n
  }

  /** Flags read as windows: a slot is taken between acquisition and release, and carries a reply
      flag between the server's answer and the client's poll. */
  ghost predicate Flags(s: Ring)
    requires Shaped(s) && Counts(s)
  {
    forall j :: 0 <= j < s.n ==>
      && (s.avail[j] <==> !InWindow(j, R(s), A(s), s.n))
      && (s.replies[j] <==> InWindow(j, Q(s), P(s), s.n))
  }

  /** Acquired and not yet consumed. */
  ghost predicate Waiting(s: Ring, c: Call) {
    S(s) <= c.ticket < A(s) && s.acquired[c.ticket] == c
  }

  ghost predicate InSlot(s: Ring, c: Call)
    requires Shaped(s)
  {
    c.cur < s.n && s.slots[c.cur] == Some(c)
  }

  /** Every waiting call is in exactly one place: held by its thread, on the work list, or in its slot. */
  ghost predicate Places(s: Ring)
    requires Shaped(s)
  {
    && (forall k :: 0 <= k < A(s) ==> s.acquired[k].ticket == k && s.acquired[k].cur == k % s.n)
    && (forall c :: c in s.held ==> Waiting(s, c) && c !in s.workList && !InSlot(s, c))
    && (forall c :: c in s.workList ==> Waiting(s, c) && !InSlot(s, c))
    && (forall i, j :: 0 <= i < j < |s.workList| ==> s.workList[i] != s.workList[j])
    && (forall j :: 0 <= j < s.n && s.slots[j].Some? ==> Waiting(s, s.slots[j].value) && s.slots[j].value.cur == j)
    && (forall c :: Waiting(s, c) ==> c in s.held || c in s.workList || InSlot(s, c))
  }

  /** What was consumed and what was released, each once, in the order of acquisition. */
  ghost predicate InOrder(s: Ring)
    requires s.n >= 1 && Counts(s)
  {
    && s.served == s.acquired[..S(s)]
    && (forall k :: 0 <= k < R(s) ==> s.released[k] == k % s.n)
  }

  ghost predicate Inv(s: Ring) {
    Shaped(s) && Counts(s) && Cursors(s) && Flags(s) && Places(s) && InOrder(s)
  }

  lemma StartInv(n: nat)
    requires n >= 1
    ensures Inv(Start(n))
  {}

  /** The next slot is free exactly when fewer than `n` calls are outstanding. */
  lemma AvailableIff(s: Ring)
    requires Inv(s)
    ensures s.avail[s.scur] <==> |s.acquired| - |s.released| < s.n
  {
    if A(s) == R(s) + s.n {
      ModShift(R(s), s.n);
      WindowHas(R(s), R(s), A(s), s.n);
    } else if InWindow(s.scur, R(s), A(s), s.n) {
      var k := WindowWitness(s.scur, R(s), A(s), s.n);
      SameSlot(k, A(s), s.n);
    }
  }

  lemma AcquireKeepsPlaces(s: Ring, p: int)
    requires Inv(s) && Enabled(s, Acquire(p))
    ensures Places(Next(s, Acquire(p)))
  {
    var s' := Next(s, Acquire(p));
    assert forall c :: Waiting(s', c) ==> Waiting(s, c) || c == s'.acquired[A(s)];
    assert forall c :: InSlot(s', c) <==> InSlot(s, c);
  }

  lemma AcquireKeepsFlags(s: Ring, p: int)
    requires Inv(s) && Enabled(s, Acquire(p))
    ensures var s' := Next(s, Acquire(p)); Shaped(s') && (Counts(s') ==> Flags(s'))
  {
    hide Places, InOrder;
    var s' := Next(s, Acquire(p));
    forall j | 0 <= j < s.n ensures InWindow(j, R(s'), A(s'), s.n) <==> InWindow(j, R(s), A(s), s.n) || j == s.scur {
      assert A(s') == A(s) + 1;
    }
  }

  lemma AcquireKeeps(s: Ring, p: int)
    requires Inv(s) && Enabled(s, Acquire(p))
    ensures Inv(Next(s, Acquire(p)))
  {
    AvailableIff(s);
    AcquireKeepsPlaces(s, p);
    AcquireKeepsFlags(s, p);
    hide Places, Flags, InWindow;
    NextSlot(A(s), s.n);
    var s' := Next(s, Acquire(p));
    assert s'.served == s'.acquired[..S(s')];
  }

  lemma EnqueueKeepsPlaces(s: Ring, c: Call)
    requires Inv(s) && Enabled(s, Enqueue(c))
    ensures Places(Next(s, Enqueue(c)))
  {
    var s' := Next(s, Enqueue(c));
    assert forall d :: d in s'.workList <==> d in s.workList || d == c;
    assert forall d :: InSlot(s', d) <==> InSlot(s, d);
    assert forall d :: Waiting(s', d) <==> Waiting(s, d);
  }

  lemma EnqueueKeeps(s: Ring, c: Call)
    requires Inv(s) && Enabled(s, Enqueue(c))
    ensures Inv(Next(s, Enqueue(c)))
  {
    EnqueueKeepsPlaces(s, c);
    hide Places, InWindow;
    assert forall d :: d in Next(s, Enqueue(c)).workList ==> d in s.workList || d == c;
  }

  /** Two waiting calls never share a slot. */
  lemma WaitingSlotsDiffer(s: Ring, c: Call, d: Call)
    requires Inv(s) && Waiting(s, c) && Waiting(s, d) && c.cur == d.cur
    ensures c == d
  {
    if c.ticket <= d.ticket { SameSlot(c.ticket, d.ticket, s.n); } else { SameSlot(d.ticket, c.ticket, s.n); }
  }

  /** The worker never writes over a request whose valid byte is still set. */
  lemma WriteFindsSlotConsumed(s: Ring)
    requires Inv(s) && Enabled(s, Write)
    ensures s.slots[s.workList[0].cur].None?
  {
    var c := s.workList[0];
    assert c in s.workList;
    if s.slots[c.cur].Some? { WaitingSlotsDiffer(s, c, s.slots[c.cur].value); }
  }

  lemma WriteKeepsPlaces(s: Ring)
    requires Inv(s) && Enabled(s, Write)
    ensures Places(Next(s, Write))
  {
    WriteFindsSlotConsumed(s);
    var c := s.workList[0];
    var s' := Next(s, Write);
    assert c in s.workList && s.workList == [c] + s'.workList;
    assert forall d :: d in s'.workList ==> d in s.workList && d != c;
    assert forall d :: d in s.workList ==> d in s'.workList || d == c;
    assert forall d :: InSlot(s', d) <==> InSlot(s, d) || d == c;
    assert forall d :: Waiting(s', d) <==> Waiting(s, d);
  }

  lemma WriteKeeps(s: Ring)
    requires Inv(s) && Enabled(s, Write)
    ensures Inv(Next(s, Write))
  {
    WriteKeepsPlaces(s);
    hide Places, InWindow;
    assert forall d :: d in Next(s, Write).workList ==> d in s.workList;
  }

  /** The server finds in its slot exactly the next call in order of acquisition. */
  lemma ServeFindsNext(s: Ring)
    requires Inv(s) && Enabled(s, Serve)
    ensures S(s) < A(s) && s.slots[s.si].value == s.acquired[S(s)]
  {
    var c := s.slots[s.si].value;
    SameSlot(S(s), c.ticket, s.n);
  }

  lemma ServeKeepsPlaces(s: Ring)
    requires Inv(s) && Enabled(s, Serve)
    ensures Places(Next(s, Serve))
  {
    ServeFindsNext(s);
    var s', c := Next(s, Serve), s.slots[s.si].value;
    assert forall d :: InSlot(s', d) <==> InSlot(s, d) && d != c;
    assert forall d :: Waiting(s', d) <==> Waiting(s, d) && d != c;
  }

  lemma ServeKeeps(s: Ring)
    requires Inv(s) && Enabled(s, Serve)
    ensures Inv(Next(s, Serve))
  {
    ServeFindsNext(s);
    ServeKeepsPlaces(s);
    hide Places, InWindow;
    var s' := Next(s, Serve);
    assert s'.served == s'.acquired[..S(s')];
  }

  lemma SamePlaces(s: Ring, s': Ring)
    requires Inv(s) && s' == s.(replies := s'.replies, server := s'.server, client := s'.client, si := s'.si,
                                ccur := s'.ccur, avail := s'.avail, released := s'.released)
    requires Shaped(s')
    ensures Places(s')
  {
    assert forall d :: Waiting(s', d) <==> Waiting(s, d);
    assert forall d :: InSlot(s', d) <==> InSlot(s, d);
  }

  lemma ReplyKeeps(s: Ring)
    requires Inv(s) && Enabled(s, Reply)
    ensures Inv(Next(s, Reply))
  {
    var s' := Next(s, Reply);
    SamePlaces(s, s');
    hide Places;
    forall j | 0 <= j < s.n ensures InWindow(j, Q(s'), P(s'), s.n) <==> InWindow(j, Q(s), P(s), s.n) || j == s.si {
      assert P(s') == P(s) + 1 && s.si == P(s) % s.n;
    }
    assert Flags(s');
  }

  lemma AdvancesKeep(s: Ring, t: Step)
    requires Inv(s) && Enabled(s, t) && (t == ServerAdvance || t == ClientAdvance)
    ensures Inv(Next(s, t))
  {
    SamePlaces(s, Next(s, t));
    hide Places, InWindow;
    NextSlot(if t == ServerAdvance then ServerRounds(s) else ClientRounds(s), s.n);
  }

  lemma WatchKeeps(s: Ring)
    requires Inv(s) && Enabled(s, Watch)
    ensures Inv(Next(s, Watch))
  {
    var s' := Next(s, Watch);
    SamePlaces(s, s');
    hide Places, InWindow;
    var k := WindowWitness(s.ccur, Q(s), P(s), s.n);
    forall j | 0 <= j < s.n ensures InWindow(j, Q(s'), P(s'), s.n) <==> InWindow(j, Q(s), P(s), s.n) && j != s.ccur {
      WindowPop(j, Q(s), P(s), s.n);
    }
  }

  lemma ReleaseKeeps(s: Ring)
    requires Inv(s) && Enabled(s, Release)
    ensures Inv(Next(s, Release))
  {
    var s' := Next(s, Release);
    SamePlaces(s, s');
    hide Places, InWindow;
    forall j | 0 <= j < s.n ensures InWindow(j, R(s'), A(s'), s.n) <==> InWindow(j, R(s), A(s), s.n) && j != s.ccur {
      WindowPop(j, R(s), A(s), s.n);
    }
  }

  lemma InvShaped(s: Ring)
    requires Inv(s)
    ensures Shaped(s)
  {}

  lemma NextKeepsInv(s: Ring, t: Step)
    requires Inv(s) && Enabled(s, t)
    ensures Inv(Next(s, t))
  {
    match t
    case Acquire(p) => AcquireKeeps(s, p);
    case Enqueue(c) => EnqueueKeeps(s, c);
    case Write => WriteKeeps(s);
    case Serve => ServeKeeps(s);
    case Release => ReleaseKeeps(s);
    case Reply => ReplyKeeps(s);
    case Watch => WatchKeeps(s);
    case ServerAdvance => AdvancesKeep(s, t);
    case ClientAdvance => AdvancesKeep(s, t);
  }

  // ---- Runs ----

  ghost predicate Run(s: Ring, steps: seq<Step>, s': Ring)
    decreases |steps|
  {
    if steps == [] then s' == s
    else Shaped(s) && Enabled(s, steps[0]) && Run(Next(s, steps[0]), steps[1..], s')
  }

  lemma {:induction false} RunKeepsInv(s: Ring, steps: seq<Step>, s': Ring)
    requires Inv(s) && Run(s, steps, s')
    ensures Inv(s')
    decreases |steps|
  {
    if steps != [] {
      NextKeepsInv(s, steps[0]);
      RunKeepsInv(Next(s, steps[0]), steps[1..], s');
    }
  }

  // ---- What the callers asked for ----

  function Payloads(calls: seq<Call>): (p: seq<int>)
    ensures |p| == |calls|
  {
    seq(|calls|, i requires 0 <= i < |calls| => calls[i].payload)
  }

  /** What the acquiring steps of a run ask for, in order. */
  function Asked(steps: seq<Step>): seq<int> {
    if steps == [] then []
    else (if steps[0].Acquire? then [steps[0].payload] else []) + Asked(steps[1..])
  }

  lemma StepAsks(s: Ring, t: Step)
    requires Shaped(s) && Enabled(s, t)
    ensures Payloads(Next(s, t).acquired) == Payloads(s.acquired) + if t.Acquire? then [t.payload] else []
  {}

  /** The calls acquired in a run carry what its callers asked for, one for each acquisition and in order. */
  lemma {:induction false} RunAcquiresWhatWasAsked(s: Ring, steps: seq<Step>, s': Ring)
    requires Run(s, steps, s')
    ensures Payloads(s'.acquired) == Payloads(s.acquired) + Asked(steps)
    decreases |steps|
  {
    if steps != [] {
      StepAsks(s, steps[0]);
      hide Next, Enabled, Payloads;
      RunAcquiresWhatWasAsked(Next(s, steps[0]), steps[1..], s');
      Assoc(Payloads(s.acquired), if steps[0].Acquire? then [steps[0].payload] else [], Asked(steps[1..]));
    }
  }

  /** Safety of every run from the start, for any ring size and any number of callers: at most `n`
      calls are outstanding, the server consumes exactly what the callers asked for, each call once and
      in the order of acquisition, and the client releases their slots in the same order, never before
      the server consumed them. */
  lemma RingSafety(n: nat, steps: seq<Step>, s: Ring)
    requires n >= 1 && Run(Start(n), steps, s)
    ensures |s.released| <= |s.served| <= |s.acquired| <= |s.released| + n
    ensures s.served == s.acquired[..|s.served|] && Payloads(s.acquired) == Asked(steps)
    ensures |s.served| <= |Asked(steps)| && Payloads(s.served) == Asked(steps)[..|s.served|]
    ensures forall k :: 0 <= k < |s.released| ==> s.released[k] == s.acquired[k].cur == k % n
    ensures Shaped(s) && (s.workList != [] ==> s.slots[s.workList[0].cur].None?)
  {
    StartInv(n);
    RunKeepsInv(Start(n), steps, s);
    RunKeepsSize(Start(n), steps, s);
    RunAcquiresWhatWasAsked(Start(n), steps, s);
    assert Payloads(s.acquired) == Asked(steps);
    if s.workList != [] { WriteFindsSlotConsumed(s); }
  }

  lemma {:induction false} RunKeepsSize(s: Ring, steps: seq<Step>, s': Ring)
    requires Run(s, steps, s')
    ensures s'.n == s.n
    decreases |steps|
  {
    if steps != [] { RunKeepsSize(Next(s, steps[0]), steps[1..], s'); }
  }

  // ---- Progress ----

  /** Steps still owed to the acquired calls. */
  function Owed(s: Ring): int {
    |s.held| + (|s.held| + |s.workList|) + (A(s) - S(s)) + (A(s) - P(s)) + (A(s) - ServerRounds(s))
    + (A(s) - Q(s)) + (A(s) - R(s)) + (A(s) - ClientRounds(s))
  }

  /** Every step but an acquisition pays one owed step, and as long as a call is outstanding some
      such step can be taken: the ring never deadlocks and always drains. */
  lemma RingDrains(s: Ring)
    requires Inv(s)
    ensures Owed(s) >= 0
    ensures forall t :: Enabled(s, t) && !t.Acquire? ==> Owed(Next(s, t)) == Owed(s) - 1
    ensures Owed(s) > 0 ==> exists t :: Enabled(s, t) && !t.Acquire?
  {
    forall t | Enabled(s, t) && !t.Acquire? ensures Owed(Next(s, t)) == Owed(s) - 1 { StepPays(s, t); }
    if Owed(s) > 0 {
      var t := SomeStep(s);
    }
  }

  lemma StepPays(s: Ring, t: Step)
    requires Shaped(s) && Enabled(s, t) && !t.Acquire?
    ensures Owed(Next(s, t)) == Owed(s) - 1
  {
    if t.Enqueue? { assert |s.held - {t.call}| == |s.held| - 1; }
  }

  lemma SomeStep(s: Ring) returns (t: Step)
    requires Inv(s) && Owed(s) > 0
    ensures Enabled(s, t) && !t.Acquire?
  {
    if s.held != {} {
      var c :| c in s.held;
      return Enqueue(c);
    }
    if s.workList != [] { return Write; }
    if s.server == Replying { return Reply; }
    if s.server == Advancing { return ServerAdvance; }
    if s.client == Releasing { return Release; }
    if s.client == Moving { return ClientAdvance; }
    if S(s) < A(s) {
      var c := s.acquired[S(s)];
      assert Waiting(s, c) && InSlot(s, c);
      return Serve;
    }
    WindowHas(R(s), R(s), S(s), s.n);
    return Watch;
  }

  lemma WorkIsWaiting(s: Ring)
    requires Inv(s) && s.workList != []
    ensures S(s) < A(s)
  {
    assert s.workList[0] in s.workList;
  }

  /** When a sweep over the slots finds all of them available, every call has been consumed,
      answered and released, and nothing is left anywhere. */
  lemma AllAvailableMeansDone(s: Ring)
    requires Inv(s) && forall j :: 0 <= j < s.n ==> s.avail[j]
    ensures |s.acquired| == |s.served| == |s.released| && s.held == {} && s.workList == []
    ensures forall j :: 0 <= j < s.n ==> s.slots[j].None? && !s.replies[j]
  {
    if R(s) < A(s) { WindowHas(R(s), R(s), A(s), s.n); }
    if s.workList != [] { WorkIsWaiting(s); }
  }

  // ---- The two processes, updating their state in place ----

  class Endpoints {
    var n: nat
    var avail: seq<bool>
    var scur: nat
    var held: set<Call>
    var workList: seq<Call>
    var slots: seq<Option<Call>>
    var server: ServerAt
    var si: nat
    var replies: seq<bool>
    var client: ClientAt
    var ccur: nat
    var acquired: seq<Call>
    var served: seq<Call>
    var released: seq<nat>

    ghost function View(): Ring
      reads this
    {
      Ring(n, avail, scur, held, workList, slots, server, si, replies, client, ccur, acquired, served, released)
    }

    ghost predicate Valid()
      reads this
    {
      Inv(View())
    }

    constructor (n: nat)
      requires n >= 1
      ensures Valid() && View() == Start(n)
    {
      this.n := n;
      avail, slots, replies := seq(n, _ => true), seq(n, _ => None), seq(n, _ => false);
      scur, si, ccur := 0, 0, 0;
      held, workList := {}, [];
      server, client := Polling, Watching;
      acquired, served, released := [], [], [];
      new;
      StartInv(n);
    }

    /** model_FaRM, one turn of its loop: under the mutex, take the slot at the cursor if it is available. */
    method TryAcquire(payload: int) returns (got: bool)
      requires Valid()
      modifies this
      ensures Valid() && got == old(Enabled(View(), Acquire(payload)))
      ensures View() == if got then Next(old(View()), Acquire(payload)) else old(View())
      ensures got == (old(|acquired| - |released|) < n)
      ensures got ==> var c := Call(payload, old(scur), old(|acquired|));
                acquired == old(acquired) + [c] && held == old(held) + {c} && scur == (old(scur) + 1) % n
    {
      AvailableIff(View());
      hide Inv;
      InvShaped(View());
      if !avail[scur] { return false; }
      AcquireKeeps(View(), payload);
      var c := Call(payload, scur, |acquired|);
      avail := avail[scur := false];
      scur := (scur + 1) % n;
      held, acquired := held + {c}, acquired + [c];
      return true;
    }

    method Append(c: Call)
      requires Valid() && c in held
      modifies this
      ensures Valid() && old(Enabled(View(), Enqueue(c))) && View() == Next(old(View()), Enqueue(c))
    {
      assert Waiting(View(), c);
      EnqueueKeeps(View(), c);
      held := held - {c};
      workList := workList + [c];
    }

    /** The work thread: pop the first work, write its request into its slot, valid byte last. */
    method WorkerTurn() returns (wrote: bool)
      requires Valid()
      modifies this
      ensures Valid() && wrote == old(Enabled(View(), Write))
      ensures View() == if wrote then Next(old(View()), Write) else old(View())
    {
      if workList == [] { return false; }
      WriteKeeps(View());
      var c := workList[0];
      workList := workList[1..];
      slots := slots[c.cur := Some(c)];
      return true;
    }

    ghost function ServerStep(): Step
      reads this
    {
      if server == Polling then Serve else if server == Replying then Step.Reply else ServerAdvance
    }

    /** FaRM_run, one action: consume a valid byte, write the reply flag, or move to the next slot. */
    method ServerTurn() returns (acted: bool)
      requires Valid()
      modifies this
      ensures Valid() && acted == old(Enabled(View(), ServerStep()))
      ensures View() == if acted then Next(old(View()), old(ServerStep())) else old(View())
    {
      hide Inv;
      InvShaped(View());
      if server == Polling && slots[si].None? { return false; }
      NextKeepsInv(View(), ServerStep());
      match server {
        case Polling =>
          served := served + [slots[si].value];
          slots := slots[si := None];
          server := Replying;
        case Replying =>
          replies := replies[si := true];
          server := Advancing;
        case Advancing =>
          si := (si + 1) % n;
          server := Polling;
      }
      return true;
    }

    ghost function ClientStep(): Step
      reads this
    {
      if client == Watching then Watch else if client == Releasing then Release else ClientAdvance
    }

    /** FaRM_run_client, one action: consume a reply flag, release its slot, or move to the next slot. */
    method ClientTurn() returns (acted: bool)
      requires Valid()
      modifies this
      ensures Valid() && acted == old(Enabled(View(), ClientStep()))
      ensures View() == if acted then Next(old(View()), old(ClientStep())) else old(View())
    {
      hide Inv;
      InvShaped(View());
      if client == Watching && !replies[ccur] { return false; }
      NextKeepsInv(View(), ClientStep());
      match client {
        case Watching =>
          replies := replies[ccur := false];
          client := Releasing;
        case Releasing =>
          avail := avail[ccur := true];
          released := released + [ccur];
          client := Moving;
        case Moving =>
          ccur := (ccur + 1) % n;
          client := Watching;
      }
      return true;
    }
  }
}
