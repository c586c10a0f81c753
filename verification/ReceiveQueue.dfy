/** The receive queue of a connection: slots posted in order, consumed in order by arriving messages,
    and posted again by the handler of each completion; and the sender's idea of the next slot. */
module ReceiveQueue {
  import opened Modular
  import opened Sequences
  import opened Wrappers

  /** `k` is RECV_REGION_SIZE / SINGLE_NORM_RECV_REGION. `posted` holds the free receives, `completed`
      the filled ones whose completions are not handled yet, `wire` what is under way. */
  datatype Queue = Queue(
    k: nat, posted: seq<nat>, completed: seq<nat>, slots: seq<Option<int>>, wire: seq<int>,
    count: nat,                       // the sender's counter
    sent: seq<int>, handled: seq<int>)

  function Start(k: nat): Queue {
    Queue(k, seq(k, i => i), [], seq(k, _ => None), [], 0, [], [])
  }

  datatype Step =
    | Send(message: int)  // dhmp_post_send
    | Arrive              // the adapter fills the oldest posted receive
    | Handle              // the completion handler reads the message and posts its slot again

  predicate Shaped(q: Queue) {
    && q.k >= 1 && |q.slots| == q.k
    && (forall i :: 0 <= i < |q.posted| ==> q.posted[i] < q.k)
    && (forall i :: 0 <= i < |q.completed| ==> q.completed[i] < q.k)
  }

  predicate Enabled(q: Queue, t: Step)
    requires Shaped(q)
  {
    match t
    case Send(_) => true
    case Arrive => q.wire != [] && q.posted != []
    case Handle => q.completed != [] && q.slots[q.completed[0]].Some?
  }

  function Next(q: Queue, t: Step): Queue
    requires Shaped(q) && Enabled(q, t)
  {
    match t
    case Send(m) => q.(wire := q.wire + [m], sent := q.sent + [m], count := (q.count + 1) % q.k)
    case Arrive =>
      q.(wire := q.wire[1..], posted := q.posted[1..], completed := q.completed + [q.posted[0]],
         slots := q.slots[q.posted[0] := Some(q.wire[0])])
    case Handle =>
      q.(completed := q.completed[1..], posted := q.posted + [q.completed[0]],
         handled := q.handled + [q.slots[q.completed[0]].value])
  }

  /** Messages handled and arrived. */
  function H(q: Queue): nat { |q.handled| }
  function C(q: Queue): nat { |q.handled| + |q.completed| }

  /** The slots from the `from`-th on, round the region. */
  ghost predicate Cycle(slots: seq<nat>, from: nat, k: nat)
    requires k >= 1
  {
    forall i :: 0 <= i < |slots| ==> slots[i] == (from + i) % k
  }

  /** Filled and posted slots together are a rotation of all of them; message `m` is in slot `m` mod
      `k` from its arrival until it is handled; messages are handled in the order of sending; the
      sender's counter is the slot of the next message. */
  ghost predicate Inv(q: Queue) {
    && q.k >= 1 && |q.slots| == q.k && C(q) <= |q.sent|
    && |q.completed| + |q.posted| == q.k && Cycle(q.completed, H(q), q.k) && Cycle(q.posted, C(q), q.k)
    && (forall i :: 0 <= i < |q.completed| ==>
          q.completed[i] < q.k && q.slots[q.completed[i]] == Some(q.sent[H(q) + i]))
    && q.wire == q.sent[C(q)..] && q.handled == q.sent[..H(q)]
    && q.count == |q.sent| % q.k
  }

  lemma InvShaped(q: Queue)
    requires Inv(q)
    ensures Shaped(q)
  {}

  lemma StartCycle(k: nat)
    requires k >= 1
    ensures Cycle(seq(k, i => i), 0, k) && Cycle([], 0, k) && 0 % k == 0
  {
    var all := seq(k, i => i);
    forall i | 0 <= i < k ensures all[i] == (0 + i) % k { ModOf(i, 0, i, k); }
    ModOf(0, 0, 0, k);
  }

  lemma StartInv(k: nat)
    requires k >= 1
    ensures Inv(Start(k))
  {
    hide Cycle;
    StartCycle(k);
  }

  /** The queue is always a rotation of the slots. */
  lemma QueueIsRotation(q: Queue)
    requires Inv(q)
    ensures |q.completed + q.posted| == q.k && Cycle(q.completed + q.posted, H(q), q.k)
    ensures forall i, j :: 0 <= i < j < q.k ==> (q.completed + q.posted)[i] != (q.completed + q.posted)[j]
  {
    var all := q.completed + q.posted;
    forall i | 0 <= i < q.k ensures all[i] == (H(q) + i) % q.k {}
    forall i, j | 0 <= i < j < q.k ensures all[i] != all[j] {
      if all[i] == all[j] { SameSlot(H(q) + i, H(q) + j, q.k); }
    }
  }

  lemma SendKeeps(q: Queue, m: int)
    requires Inv(q) && Shaped(q)
    ensures Inv(Next(q, Send(m)))
  {
    NextSlot(|q.sent|, q.k);
  }

  lemma ArriveKeeps(q: Queue)
    requires Inv(q) && Shaped(q) && Enabled(q, Arrive)
    ensures Inv(Next(q, Arrive))
  {
    var q', at := Next(q, Arrive), q.posted[0];
    assert at == (C(q) + 0) % q.k == C(q) % q.k;
    forall i | 0 <= i < |q'.completed| ensures q'.slots[q'.completed[i]] == Some(q'.sent[H(q) + i]) {
      if i < |q.completed| && q.completed[i] == at { SameSlot(H(q) + i, C(q), q.k); }
    }
    forall i | 0 <= i < |q'.posted| ensures q'.posted[i] == (C(q') + i) % q.k {
      assert q'.posted[i] == q.posted[i + 1] == (C(q) + (i + 1)) % q.k;
    }
  }

  /** The next completion the handler takes is for the slot of the oldest unhandled message, which is still there. */
  lemma HandleReadsNext(q: Queue)
    requires Inv(q) && q.completed != []
    ensures q.completed[0] == H(q) % q.k && H(q) < |q.sent| && q.slots[H(q) % q.k] == Some(q.sent[H(q)])
  {
    assert q.completed[0] == (H(q) + 0) % q.k;
  }

  lemma HandleKeeps(q: Queue)
    requires Inv(q) && Shaped(q) && Enabled(q, Handle)
    ensures Inv(Next(q, Handle))
  {
    var q' := Next(q, Handle);
    HandleReadsNext(q);
    forall i | 0 <= i < |q'.completed|
      ensures q'.completed[i] == (H(q') + i) % q.k && q'.completed[i] < q.k
          && q'.slots[q'.completed[i]] == Some(q'.sent[H(q') + i])
    {
      assert q'.completed[i] == q.completed[i + 1] == (H(q) + (i + 1)) % q.k;
    }
    HandlePosts(q);
  }

  lemma HandlePosts(q: Queue)
    requires Inv(q) && Shaped(q) && Enabled(q, Handle)
    ensures Cycle(Next(q, Handle).posted, C(Next(q, Handle)), q.k)
  {
    HandleReadsNext(q);
    ModShift(H(q), q.k);
    assert C(q) + |q.posted| == H(q) + q.k;
  }

  lemma NextKeepsInv(q: Queue, t: Step)
    requires Inv(q) && Shaped(q) && Enabled(q, t)
    ensures Inv(Next(q, t))
  {
    match t
    case Send(m) => SendKeeps(q, m);
    case Arrive => ArriveKeeps(q);
    case Handle => HandleKeeps(q);
  }

  ghost predicate Run(q: Queue, steps: seq<Step>, q': Queue)
    decreases |steps|
  {
    if steps == [] then q' == q
    else Shaped(q) && Enabled(q, steps[0]) && Run(Next(q, steps[0]), steps[1..], q')
  }

  lemma {:induction false} RunKeepsInv(q: Queue, steps: seq<Step>, q': Queue)
    requires Inv(q) && Run(q, steps, q')
    ensures Inv(q') && q'.k == q.k
    decreases |steps|
  {
    if steps != [] {
      NextKeepsInv(q, steps[0]);
      RunKeepsInv(Next(q, steps[0]), steps[1..], q');
    }
  }

  /** The messages the sending steps of a run send, in order. */
  function Sent(steps: seq<Step>): seq<int> {
    if steps == [] then [] else (if steps[0].Send? then [steps[0].message] else []) + Sent(steps[1..])
  }

  lemma {:induction false} RunSends(q: Queue, steps: seq<Step>, q': Queue)
    requires Run(q, steps, q')
    ensures q'.sent == q.sent + Sent(steps)
    decreases |steps|
  {
    if steps != [] {
      var first := if steps[0].Send? then [steps[0].message] else [];
      assert Next(q, steps[0]).sent == q.sent + first;
      hide Enabled, Next;
      RunSends(Next(q, steps[0]), steps[1..], q');
      Assoc(q.sent, first, Sent(steps[1..]));
    }
  }

  lemma SentIsAsked(k: nat, steps: seq<Step>, q: Queue)
    requires Run(Start(k), steps, q)
    ensures q.sent == Sent(steps)
  {
    RunSends(Start(k), steps, q);
    NothingFirst(Sent(steps));
  }

  /** In every run: messages are handled as sent, each once and in order, the next completion is for
      slot (number handled) mod k, and the sender's counter names the slot the next message will fill. */
  lemma SlotsInTurn(k: nat, steps: seq<Step>, q: Queue)
    requires k >= 1 && Run(Start(k), steps, q)
    ensures q.sent == Sent(steps) && |q.handled| <= |q.sent| && q.handled == q.sent[..|q.handled|]
    ensures |q.slots| == k
    ensures q.completed != [] ==>
              |q.handled| < |q.sent| && q.completed[0] == |q.handled| % k
                  && q.slots[|q.handled| % k] == Some(q.sent[|q.handled|])
    ensures q.posted != [] && q.wire == [] ==> q.posted[0] == q.count
    ensures q.count == |q.sent| % k
  {
    hide Sent, Run;
    StartInv(k);
    RunKeepsInv(Start(k), steps, q);
    SentIsAsked(k, steps, q);
    if q.completed != [] { HandleReadsNext(q); }
    if q.posted != [] { assert q.posted[0] == (C(q) + 0) % q.k; }
  }

  /** As long as a message is unhandled the receiver can act: arrivals never find the queue empty for good. */
  lemma NeverStuck(q: Queue)
    requires Inv(q) && H(q) < |q.sent|
    ensures Shaped(q) && (Enabled(q, Arrive) || Enabled(q, Handle))
  {
    InvShaped(q);
    if q.completed != [] { HandleReadsNext(q); }
  }

  // ---- The flush after a send ----

  /** Offset the sender's flush reads, after its counter has moved on. */
  function FlushAt(count: nat, slot: nat): int { (count + 1) * slot - 1 }

  /** The flush address always lies in the region, in the last byte of the slot the counter names; in a
      run it is the slot of the message just sent only if there is a single slot. */
  lemma FlushInRegion(k: nat, slot: nat, steps: seq<Step>, q: Queue, i: nat)
    requires k >= 1 && slot >= 1 && Run(Start(k), steps, q) && i < k
    ensures 0 <= FlushAt(q.count, slot) < k * slot
    ensures i * slot <= FlushAt(q.count, slot) < (i + 1) * slot <==> i == |q.sent| % k
    ensures i == |q.sent| % k ==> FlushAt(q.count, slot) == i * slot + slot - 1
    ensures q.sent != [] ==> ((|q.sent| - 1) % k == |q.sent| % k <==> k == 1)
  {
    StartInv(k);
    RunKeepsInv(Start(k), steps, q);
    MulMono(q.count + 1, k, slot);
    MulMono(1, q.count + 1, slot);
    MulMono(i + 1, q.count, slot);
    MulMono(q.count + 1, i, slot);
    assert (q.count + 1) * slot == q.count * slot + slot;
    if q.sent != [] && (|q.sent| - 1) % k == |q.sent| % k && k > 1 { SameSlot(|q.sent| - 1, |q.sent|, k); }
  }

  // ---- The two endpoints, updating their state in place ----

  class Connection {
    const k: nat
    var posted: seq<nat>
    var completed: seq<nat>
    var slots: seq<Option<int>>
    var wire: seq<int>
    var count: nat
    ghost var sent: seq<int>
    ghost var handled: seq<int>

    ghost function View(): Queue
      reads this
    {
      Queue(k, posted, completed, slots, wire, count, sent, handled)
    }

    ghost predicate Valid()
      reads this
    {
      Inv(View())
    }

    constructor (k: nat)
      requires k >= 1
      ensures Valid() && View() == Start(k)
    {
      this.k := k;
      posted, completed, slots, wire, count := [], [], seq(k, _ => None), [], 0;
      sent, handled := [], [];
      new;
      PostAllRecv();
      StartInv(k);
    }

    method PostRecv(slot: nat)
      modifies this`posted
      ensures posted == old(posted) + [slot]
    {
      posted := posted + [slot];
    }

    /** dhmp_post_all_recv */
    method PostAllRecv()
      requires posted == []
      modifies this`posted
      ensures posted == seq(k, i => i)
    {
      var i := 0;
      while i < k
        invariant 0 <= i <= k && posted == seq(i, j => j)
      {
        PostRecv(i);
        i := i + 1;
      }
    }

    method PostSend(message: int)
      requires Valid()
      modifies this
      ensures Valid() && old(Shaped(View())) && View() == Next(old(View()), Send(message))
    {
      InvShaped(View());
      SendKeeps(View(), message);
      wire := wire + [message];
      count := (count + 1) % k;
      sent := sent + [message];
    }

    /** The adapter. */
    method Fill() returns (filled: bool)
      requires Valid()
      modifies this
      ensures Valid() && old(Shaped(View())) && filled == old(Enabled(View(), Arrive))
      ensures View() == if filled then Next(old(View()), Arrive) else old(View())
    {
      InvShaped(View());
      filled := wire != [] && posted != [];
      if filled {
        ArriveKeeps(View());
        slots := slots[posted[0] := Some(wire[0])];
        completed := completed + [posted[0]];
        posted, wire := posted[1..], wire[1..];
      }
    }

    /** dhmp_wc_success_handler on a receive: the message, and its slot posted again. */
    method OnReceive() returns (message: int)
      requires Valid() && completed != []
      modifies this
      ensures Valid() && old(Shaped(View())) && old(Enabled(View(), Handle))
      ensures View() == Next(old(View()), Handle) && message == old(sent[|handled|])
    {
      InvShaped(View());
      HandleReadsNext(View());
      HandleKeeps(View());
      var slot := completed[0];
      message := slots[slot].value;
      completed := completed[1..];
      handled := handled + [message];
      PostRecv(slot);
    }
  }
}
