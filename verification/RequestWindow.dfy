/** The request window (SFLUSH form): a caller takes a credit before it queues a request and the
    response handler gives it back; and the sweep with which a caller waits for everything sent so
    far, over the credits and over the slots of the FaRM ring. */
module RequestWindow {
  import FarmRing
  import opened Sequences

  /** Requests are numbered by the credits taken. They wait with their caller, on the work list, on
      the wire, or as responses under way. */
  datatype Window = Window(
    n: nat, credits: int, held: set<nat>, queue: seq<nat>, wire: seq<nat>, answers: seq<nat>,
    taken: nat, completed: seq<nat>)

  function Start(n: nat): Window { Window(n, n, {}, [], [], [], 0, []) }

  datatype Step = Take | Enqueue(id: nat) | Post | Serve | Complete

  predicate Enabled(w: Window, t: Step) {
    match t
    case Take => w.credits != 0
    case Enqueue(id) => id in w.held
    case Post => w.queue != []
    case Serve => w.wire != []
    case Complete => w.answers != []
  }

  function Next(w: Window, t: Step): Window
    requires Enabled(w, t)
  {
    match t
    case Take => w.(credits := w.credits - 1, held := w.held + {w.taken}, taken := w.taken + 1)
    case Enqueue(id) => w.(held := w.held - {id}, queue := w.queue + [id])
    case Post => w.(queue := w.queue[1..], wire := w.wire + [w.queue[0]])
    case Serve => w.(wire := w.wire[1..], answers := w.answers + [w.wire[0]])
    case Complete => w.(answers := w.answers[1..], credits := w.credits + 1, completed := w.completed + [w.answers[0]])
  }

  function InFlight(w: Window): nat { |w.held| + |w.queue| + |w.wire| + |w.answers| }

  /** How often request `id` is anywhere. */
  ghost function Seen(w: Window, id: nat): nat {
    (if id in w.held then 1 else 0) + multiset(w.queue)[id] + multiset(w.wire)[id] + multiset(w.answers)[id]
    + multiset(w.completed)[id]
  }

  ghost predicate Inv(w: Window) {
    && w.credits + InFlight(w) == w.n && w.credits >= 0
    && forall id: nat :: Seen(w, id) == if id < w.taken then 1 else 0
  }

  lemma Popped(s: seq<nat>)
    requires s != []
    ensures multiset(s) == multiset{s[0]} + multiset(s[1..])
  {
    assert s == [s[0]] + s[1..];
  }

  /** A request moves from one place to the next, or is new. */
  lemma StepSees(w: Window, t: Step, id: nat)
    requires Enabled(w, t) && (t == Take ==> w.taken !in w.held)
    ensures Seen(Next(w, t), id) == Seen(w, id) + if t == Take && id == w.taken then 1 else 0
  {
    match t
    case Take =>
    case Enqueue(_) =>
    case Post => Popped(w.queue);
    case Serve => Popped(w.wire);
    case Complete => Popped(w.answers);
  }

  lemma NextKeepsInv(w: Window, t: Step)
    requires Inv(w) && Enabled(w, t)
    ensures Inv(Next(w, t))
  {
    assert Seen(w, w.taken) == 0;
    forall id: nat ensures Seen(Next(w, t), id) == if id < Next(w, t).taken then 1 else 0 {
      StepSees(w, t, id);
      assert Seen(w, id) == if id < w.taken then 1 else 0;
    }
    if t.Enqueue? { assert |w.held - {t.id}| == |w.held| - 1; }
  }

  ghost predicate Run(w: Window, steps: seq<Step>, w': Window)
    decreases |steps|
  {
    if steps == [] then w' == w else Enabled(w, steps[0]) && Run(Next(w, steps[0]), steps[1..], w')
  }

  lemma {:induction false} RunKeepsInv(w: Window, steps: seq<Step>, w': Window)
    requires Inv(w) && Run(w, steps, w')
    ensures Inv(w') && w'.n == w.n
    decreases |steps|
  {
    if steps != [] {
      NextKeepsInv(w, steps[0]);
      RunKeepsInv(Next(w, steps[0]), steps[1..], w');
    }
  }

  /** The requests the enqueueing steps of a run queue, in order, and how many credits it takes. */
  function Queued(steps: seq<Step>): seq<nat> {
    if steps == [] then [] else (if steps[0].Enqueue? then [steps[0].id] else []) + Queued(steps[1..])
  }

  function Takes(steps: seq<Step>): nat {
    if steps == [] then 0 else (if steps[0] == Take then 1 else 0) + Takes(steps[1..])
  }

  /** Every request queued so far, in the order it will complete. */
  function Line(w: Window): seq<nat> { w.completed + w.answers + w.wire + w.queue }

  lemma StepKeepsLine(w: Window, t: Step)
    requires Enabled(w, t)
    ensures Line(Next(w, t)) == Line(w) + if t.Enqueue? then [t.id] else []
    ensures Next(w, t).taken == w.taken + if t == Take then 1 else 0
  {}

  lemma {:induction false} RunKeepsLine(w: Window, steps: seq<Step>, w': Window)
    requires Run(w, steps, w')
    ensures Line(w') == Line(w) + Queued(steps) && w'.taken == w.taken + Takes(steps)
    decreases |steps|
  {
    if steps != [] {
      StepKeepsLine(w, steps[0]);
      hide Line, Enabled, Next;
      RunKeepsLine(Next(w, steps[0]), steps[1..], w');
      var first := if steps[0].Enqueue? then [steps[0].id] else [];
      Assoc(Line(w), first, Queued(steps[1..]));
    }
  }

  lemma LineIsQueued(n: nat, steps: seq<Step>, w: Window)
    requires Run(Start(n), steps, w)
    ensures w.taken == Takes(steps) && Line(w) == Queued(steps) && w.completed <= Queued(steps)
  {
    hide Queued, Takes, Run;
    RunKeepsLine(Start(n), steps, w);
    NothingFirst(Queued(steps));
  }

  /** In every run the counter and the requests in flight together are `n`, the counter stays within
      0 and `n`, a credit can be taken exactly while fewer than `n` requests are in flight, every request
      taken is in flight or completed, once, and requests complete in the order in which they were queued. */
  lemma WindowSafety(n: nat, steps: seq<Step>, w: Window)
    requires Run(Start(n), steps, w)
    ensures w.credits + InFlight(w) == n && 0 <= w.credits <= n && (Enabled(w, Take) <==> InFlight(w) < n)
    ensures w.taken == Takes(steps) && Line(w) == Queued(steps) && w.completed <= Queued(steps)
    ensures forall id: nat :: id < w.taken ==> Seen(w, id) == 1
    ensures forall id :: id in w.completed ==> id < w.taken
    ensures forall i, j :: 0 <= i < j < |w.completed| ==> w.completed[i] != w.completed[j]
  {
    hide Queued, Takes;
    RunKeepsInv(Start(n), steps, w);
    LineIsQueued(n, steps, w);
    forall id | id in w.completed ensures id < w.taken { assert id in multiset(w.completed) && Seen(w, id) >= 1; }
    forall i, j | 0 <= i < j < |w.completed| ensures w.completed[i] != w.completed[j] {
      Twice(w.completed, i, j);
      assert Seen(w, w.completed[i]) <= 1;
    }
  }

  /** Steps still owed to the requests in flight. */
  function Owed(w: Window): nat { 4 * |w.held| + 3 * |w.queue| + 2 * |w.wire| + |w.answers| }

  /** Every step but a take pays one owed step, and while a request is in flight one can be taken; any
      request taken may be queued next. So all credits come back. */
  lemma WindowDrains(w: Window)
    ensures forall t :: Enabled(w, t) && t != Take ==> Owed(Next(w, t)) == Owed(w) - 1
    ensures InFlight(w) > 0 ==> exists t :: Enabled(w, t) && t != Take
    ensures forall id :: id in w.held ==> Enabled(w, Enqueue(id))
    ensures Owed(w) == 0 <==> InFlight(w) == 0
  {
    forall t | Enabled(w, t) && t != Take ensures Owed(Next(w, t)) == Owed(w) - 1 { StepPays(w, t); }
    if InFlight(w) > 0 { var t := SomeStep(w); }
  }

  lemma StepPays(w: Window, t: Step)
    requires Enabled(w, t) && t != Take
    ensures Owed(Next(w, t)) == Owed(w) - 1
  {
    if t.Enqueue? { assert w.held == (w.held - {t.id}) + {t.id}; }
  }

  lemma SomeStep(w: Window) returns (t: Step)
    requires InFlight(w) > 0
    ensures Enabled(w, t) && t != Take
  {
    if w.answers != [] {
      t := Complete;
    } else if w.wire != [] {
      t := Serve;
    } else if w.queue != [] {
      t := Post;
    } else {
      var id :| id in w.held;
      t := Enqueue(id);
    }
  }

  lemma Twice(s: seq<nat>, i: nat, j: nat)
    requires i < j < |s|
    ensures s[i] == s[j] ==> multiset(s)[s[i]] >= 2
  {
    assert s == s[..i] + [s[i]] + s[i + 1..j] + [s[j]] + s[j + 1..];
  }

  /** With all credits back, everything taken so far is completed. */
  lemma AllBackMeansCompleted(w: Window, id: nat)
    requires Inv(w) && w.credits == w.n && id < w.taken
    ensures id in w.completed
  {
    assert w.held == {} && w.queue == [] && w.wire == [] && w.answers == [];
    assert Seen(w, id) == 1;
    assert id in multiset(w.completed);
  }

  // ---- check_request over the credits: pass `n` times where all credits are back ----

  datatype Event = Other(step: Step) | Pass

  ghost predicate Sweep(w: Window, pos: nat, events: seq<Event>, w': Window, pos': nat)
    decreases |events|
  {
    if events == [] then w' == w && pos' == pos
    else
      match events[0]
      case Other(t) => Enabled(w, t) && Sweep(Next(w, t), pos, events[1..], w', pos')
      case Pass => pos < w.n && w.credits == w.n && Sweep(w, pos + 1, events[1..], w', pos')
  }

  lemma {:induction false} SweepCompletes(w: Window, pos: nat, events: seq<Event>, w': Window, pos': nat,
      before: nat, id: nat)
    requires Inv(w) && Sweep(w, pos, events, w', pos') && id < before <= w.taken
    requires pos > 0 ==> id in w.completed
    ensures Inv(w') && w'.n == w.n && (pos' > 0 ==> id in w'.completed)
    decreases |events|
  {
    if events != [] {
      match events[0]
      case Other(t) =>
        NextKeepsInv(w, t);
        SweepCompletes(Next(w, t), pos, events[1..], w', pos', before, id);
      case Pass =>
        AllBackMeansCompleted(w, id);
        SweepCompletes(w, pos + 1, events[1..], w', pos', before, id);
    }
  }

  /** Whatever other callers do meanwhile, when the sweep ends every request taken before it began is completed. */
  lemma CreditSweepWaitsForAll(n: nat, steps: seq<Step>, w: Window, events: seq<Event>, w': Window, id: nat)
    requires n >= 1 && Run(Start(n), steps, w) && Sweep(w, 0, events, w', n) && id < w.taken
    ensures id in w'.completed
  {
    RunKeepsInv(Start(n), steps, w);
    SweepCompletes(w, 0, events, w', n, w.taken, id);
  }

  ghost predicate NoTake(events: seq<Event>) { forall i :: 0 <= i < |events| ==> events[i] != Other(Take) }

  lemma {:induction false} CreditsStay(w: Window, pos: nat, events: seq<Event>, w': Window, pos': nat)
    requires Inv(w) && NoTake(events) && Sweep(w, pos, events, w', pos') && (pos > 0 ==> w.credits == w.n)
    ensures w'.n == w.n && (pos' > 0 ==> w'.credits == w'.n)
    decreases |events|
  {
    if events != [] {
      forall i | 0 <= i < |events[1..]| ensures events[1..][i] != Other(Take) { assert events[i + 1] != Other(Take); }
      match events[0]
      case Other(t) =>
        NextKeepsInv(w, t);
        CreditsStay(Next(w, t), pos, events[1..], w', pos');
      case Pass => CreditsStay(w, pos + 1, events[1..], w', pos');
    }
  }

  /** If no credit is taken meanwhile, the sweep ends with all of them back. */
  lemma QuietSweepEndsFull(n: nat, steps: seq<Step>, w: Window, events: seq<Event>, w': Window)
    requires n >= 1 && Run(Start(n), steps, w) && NoTake(events) && Sweep(w, 0, events, w', n)
    ensures w'.credits == n && InFlight(w') == 0
  {
    RunKeepsInv(Start(n), steps, w);
    CreditsStay(w, 0, events, w', n);
    SweepInv(w, 0, events, w', n);
  }

  lemma {:induction false} SweepInv(w: Window, pos: nat, events: seq<Event>, w': Window, pos': nat)
    requires Inv(w) && Sweep(w, pos, events, w', pos')
    ensures Inv(w')
    decreases |events|
  {
    if events != [] {
      match events[0]
      case Other(t) =>
        NextKeepsInv(w, t);
        SweepInv(Next(w, t), pos, events[1..], w', pos');
      case Pass => SweepInv(w, pos + 1, events[1..], w', pos');
    }
  }

  // ---- check_request over the slots of the FaRM ring: pass slot after slot as it is found available ----

  datatype RingEvent = RingStep(step: FarmRing.Step) | PassSlot

  ghost predicate RingSweep(s: FarmRing.Ring, pos: nat, events: seq<RingEvent>, s': FarmRing.Ring, pos': nat)
    decreases |events|
  {
    if events == [] then s' == s && pos' == pos
    else
      match events[0]
      case RingStep(t) =>
        FarmRing.Shaped(s) && FarmRing.Enabled(s, t) && RingSweep(FarmRing.Next(s, t), pos, events[1..], s', pos')
      case PassSlot =>
        FarmRing.Shaped(s) && pos < s.n && s.avail[pos] && RingSweep(s, pos + 1, events[1..], s', pos')
  }

  /** The calls numbered below `before` that used a slot below `pos` are released. */
  ghost predicate Returned(s: FarmRing.Ring, pos: nat, before: nat)
    requires s.n >= 1
  {
    forall k: nat :: k < before && k % s.n < pos ==> k < FarmRing.R(s)
  }

  lemma PassReturns(s: FarmRing.Ring, pos: nat, before: nat)
    requires FarmRing.Inv(s) && pos < s.n && s.avail[pos] && before <= FarmRing.A(s) && Returned(s, pos, before)
    ensures Returned(s, pos + 1, before)
  {
    forall k: nat | k < before && k % s.n < pos + 1 ensures k < FarmRing.R(s) {
      if k % s.n == pos && k >= FarmRing.R(s) { FarmRing.WindowHas(k, FarmRing.R(s), FarmRing.A(s), s.n); }
    }
  }

  lemma {:induction false} RingSweepReturns(s: FarmRing.Ring, pos: nat, events: seq<RingEvent>, s': FarmRing.Ring,
      pos': nat, before: nat)
    requires FarmRing.Inv(s) && RingSweep(s, pos, events, s', pos') && before <= FarmRing.A(s)
        && Returned(s, pos, before)
    ensures FarmRing.Inv(s') && s'.n == s.n && Returned(s', pos', before)
    decreases |events|
  {
    if events != [] {
      match events[0]
      case RingStep(t) =>
        FarmRing.NextKeepsInv(s, t);
        var next := FarmRing.Next(s, t);
        assert FarmRing.R(s) <= FarmRing.R(next) && FarmRing.A(s) <= FarmRing.A(next) && next.n == s.n;
        RingSweepReturns(next, pos, events[1..], s', pos', before);
      case PassSlot =>
        PassReturns(s, pos, before);
        RingSweepReturns(s, pos + 1, events[1..], s', pos', before);
    }
  }

  /** Whatever other callers do meanwhile, when the sweep over the slots ends every call acquired before
      it began has been served and released. */
  lemma SlotSweepWaitsForAll(s: FarmRing.Ring, events: seq<RingEvent>, s': FarmRing.Ring)
    requires FarmRing.Inv(s) && RingSweep(s, 0, events, s', s.n)
    ensures |s.acquired| <= |s'.released| <= |s'.served|
  {
    RingSweepReturns(s, 0, events, s', s.n, FarmRing.A(s));
    if FarmRing.R(s') < FarmRing.A(s) {
      ModBelow(FarmRing.R(s'), s.n);
    }
  }

  lemma ModBelow(k: nat, n: nat)
    requires n >= 1
    ensures k % n < n
  {}

  /** The calls acquired and not released when the sweep ends are among those acquired during it; with
      none acquired meanwhile the ring is empty. */
  lemma QuietSlotSweepEndsEmpty(s: FarmRing.Ring, events: seq<RingEvent>, s': FarmRing.Ring)
    requires FarmRing.Inv(s) && RingSweep(s, 0, events, s', s.n)
    ensures |s'.acquired| - |s'.released| <= |s'.acquired| - |s.acquired|
    ensures |s'.acquired| == |s.acquired| ==>
              && |s'.acquired| == |s'.released| && s'.held == {} && s'.workList == []
              && forall j :: 0 <= j < s'.n ==> j < |s'.avail| && s'.avail[j]
  {
    SlotSweepWaitsForAll(s, events, s');
    RingSweepReturns(s, 0, events, s', s.n, FarmRing.A(s));
    if |s'.acquired| == |s.acquired| {
      forall j | 0 <= j < s'.n ensures s'.avail[j] {
        assert !FarmRing.InWindow(j, FarmRing.R(s'), FarmRing.A(s'), s'.n);
      }
      FarmRing.AllAvailableMeansDone(s');
    }
  }

  /** With a call acquired meanwhile the sweep can end with a slot taken: one it had already passed. */
  lemma BusySweepMissesACall(n: nat) returns (events: seq<RingEvent>, s: FarmRing.Ring)
    requires n >= 2
    ensures RingSweep(FarmRing.Start(n), 0, events, s, n) && events[|events| - 1] == PassSlot
    ensures |s.acquired| == 1 && |s.released| == 0
  {
    var s0 := FarmRing.Start(n);
    var acquire := FarmRing.Acquire(0);
    s := FarmRing.Next(s0, acquire);
    SweepTheRest(s, 1);
    var rest := Passes(n - 1);
    assert ([RingStep(acquire)] + rest)[1..] == rest;
    assert RingSweep(s0, 1, [RingStep(acquire)] + rest, s, n);
    events := [PassSlot] + ([RingStep(acquire)] + rest);
    assert events[1..] == [RingStep(acquire)] + rest;
  }

  ghost predicate AllAvailable(s: FarmRing.Ring) {
    |s.avail| == s.n && forall j :: 0 <= j < s.n ==> s.avail[j]
  }

  /** A sweep from the start that ends as it passes its last slot. */
  ghost predicate Passing(n: nat, events: seq<RingEvent>, s: FarmRing.Ring) {
    RingSweep(FarmRing.Start(n), 0, events, s, n) && events != [] && events[|events| - 1] == PassSlot
  }

  lemma {:induction false} LastPass(s: FarmRing.Ring, pos: nat, events: seq<RingEvent>, s': FarmRing.Ring, pos': nat)
    requires RingSweep(s, pos, events, s', pos') && events != [] && events[|events| - 1] == PassSlot
    ensures FarmRing.Shaped(s') && 1 <= pos' <= s'.n && s'.avail[pos' - 1]
    decreases |events|
  {
    if |events| == 1 {
      assert events[1..] == [];
    } else {
      assert events[1..][|events| - 2] == PassSlot;
      match events[0]
      case RingStep(t) => LastPass(FarmRing.Next(s, t), pos, events[1..], s', pos');
      case PassSlot => LastPass(s, pos + 1, events[1..], s', pos');
    }
  }

  /** Whatever other callers do, such a sweep ends with all slots available exactly in a ring of one. */
  lemma PassingSweepsEndAvailableIff(n: nat)
    requires n >= 1
    ensures (forall events, s :: Passing(n, events, s) ==> AllAvailable(s)) <==> n == 1
  {
    FarmRing.StartInv(n);
    if n == 1 {
      forall events, s | Passing(n, events, s) ensures AllAvailable(s) {
        RingSweepReturns(FarmRing.Start(n), 0, events, s, n, 0);
        LastPass(FarmRing.Start(n), 0, events, s, n);
      }
    } else {
      var events, s := BusySweepMissesACall(n);
      assert Passing(n, events, s);
      RingSweepReturns(FarmRing.Start(n), 0, events, s, n, 0);
      if AllAvailable(s) { FarmRing.AllAvailableMeansDone(s); }
    }
  }

  function Passes(k: nat): (e: seq<RingEvent>)
    ensures |e| == k && (k > 0 ==> e[k - 1] == PassSlot)
  {
    if k == 0 then [] else [PassSlot] + Passes(k - 1)
  }

  lemma {:induction false} SweepTheRest(s: FarmRing.Ring, pos: nat)
    requires FarmRing.Shaped(s) && pos <= s.n && forall j :: pos <= j < s.n ==> s.avail[j]
    ensures RingSweep(s, pos, Passes(s.n - pos), s, s.n)
    decreases s.n - pos
  {
    if pos < s.n {
      assert Passes(s.n - pos)[1..] == Passes(s.n - pos - 1);
      SweepTheRest(s, pos + 1);
    }
  }

  // ---- The counter, updated in place ----

  class Client {
    const n: nat
    var paraRequestNum: int
    var held: set<nat>
    var queue: seq<nat>
    var wire: seq<nat>
    var answers: seq<nat>
    var taken: nat
    var completed: seq<nat>

    ghost function View(): Window
      reads this
    {
      Window(n, paraRequestNum, held, queue, wire, answers, taken, completed)
    }

    ghost predicate Valid()
      reads this
    {
      Inv(View())
    }

    constructor (n: nat)
      ensures Valid() && View() == Start(n)
    {
      this.n, paraRequestNum := n, n;
      held, queue, wire, answers, taken, completed := {}, [], [], [], 0, [];
    }

    /** amper_sendRPC_DaRPC, one turn of its loop under the mutex. */
    method TryTake() returns (got: bool)
      requires Valid()
      modifies this
      ensures Valid() && got == old(Enabled(View(), Take))
      ensures View() == if got then Next(old(View()), Take) else old(View())
    {
      if paraRequestNum == 0 { return false; }
      NextKeepsInv(View(), Take);
      paraRequestNum := paraRequestNum - 1;
      held, taken := held + {taken}, taken + 1;
      return true;
    }

    /** amper_DaRPC_response_handler on the oldest response. */
    method OnResponse()
      requires Valid() && answers != []
      modifies this
      ensures Valid() && old(Enabled(View(), Complete)) && View() == Next(old(View()), Complete)
    {
      NextKeepsInv(View(), Complete);
      completed, answers := completed + [answers[0]], answers[1..];
      paraRequestNum := paraRequestNum + 1;
    }
  }
}
