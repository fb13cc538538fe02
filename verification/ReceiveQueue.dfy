/** The receive queue of a process: the ring of send_mess and recv_mess in proc.c. */
module ReceiveQueue {
  const NUM_MSG: nat := 32

  type Message = seq<bv8>

  datatype Mail = Mail(sender: int, message: Message)

  /** The ring; head == tail is taken to mean that it is empty. */
  datatype Queue = Queue(slots: seq<Mail>, head: nat, tail: nat) {
    ghost predicate Shaped() {
      |slots| == NUM_MSG && head < NUM_MSG && tail < NUM_MSG
    }
  }

  function Push(q: Queue, m: Mail): (r: Queue)
    requires q.Shaped()
    ensures r.Shaped()
  {
    q.(slots := q.slots[q.tail := m], tail := (q.tail + 1) % NUM_MSG)
  }

  predicate Empty(q: Queue) { q.head == q.tail }

  function First(q: Queue): Mail
    requires q.Shaped()
  {
    q.slots[q.head]
  }

  function Pop(q: Queue): (r: Queue)
    requires q.Shaped()
    ensures r.Shaped()
  {
    q.(head := (q.head + 1) % NUM_MSG)
  }

  // ----- the ring and the messages not yet delivered -----

  function Index(head: nat, k: nat): (i: nat)
    ensures i < NUM_MSG
  {
    (head + k) % NUM_MSG
  }

  /** The ring holds the undelivered messages, oldest first. */
  ghost predicate Holds(q: Queue, waiting: seq<Mail>) {
    && q.Shaped() && |waiting| < NUM_MSG && q.tail == Index(q.head, |waiting|)
    && forall k :: 0 <= k < |waiting| ==> q.slots[Index(q.head, k)] == waiting[k]
  }

  lemma EmptyIff(q: Queue, waiting: seq<Mail>)
    requires Holds(q, waiting)
    ensures Empty(q) <==> waiting == []
  {
  }

  lemma IndexFresh(head: nat, k: nat, n: nat)
    requires k < n < NUM_MSG
    ensures Index(head, k) != Index(head, n)
  {
  }

  /** One message more is held exactly if it is not the NUM_MSG-th. */
  lemma PushHoldsIff(q: Queue, waiting: seq<Mail>, m: Mail)
    requires Holds(q, waiting)
    ensures Holds(Push(q, m), waiting + [m]) <==> |waiting| + 1 < NUM_MSG
    ensures |waiting| + 1 == NUM_MSG ==> Empty(Push(q, m))
  {
    var r, w := Push(q, m), waiting + [m];
    IndexLast(q.head, |waiting|);
    forall k | 0 <= k < |w|
      ensures r.slots[Index(q.head, k)] == w[k]
    {
      if k < |waiting| {
        IndexFresh(q.head, k, |waiting|);
      }
    }
  }

  lemma IndexLast(head: nat, n: nat)
    requires head < NUM_MSG && n < NUM_MSG
    ensures (Index(head, n) + 1) % NUM_MSG == if n + 1 == NUM_MSG then head else Index(head, n + 1)
  {
  }

  lemma IndexNext(head: nat, k: nat)
    requires head < NUM_MSG
    ensures Index((head + 1) % NUM_MSG, k) == Index(head, k + 1)
    ensures Index(head, 0) == head
  {
  }

  lemma PopHolds(q: Queue, waiting: seq<Mail>)
    requires Holds(q, waiting) && waiting != []
    ensures First(q) == waiting[0] && Holds(Pop(q), waiting[1..])
  {
    var r, w := Pop(q), waiting[1..];
    forall k | 0 <= k < |w|
      ensures r.slots[Index(r.head, k)] == w[k]
    {
      IndexNext(q.head, k);
      assert q.slots[Index(q.head, k + 1)] == waiting[k + 1];
    }
    IndexNext(q.head, |w|);
  }

  // ----- whole runs -----

  /** Calls of send_mess, and calls of recv_mess that do not sleep. */
  datatype Event = Send(m: Mail) | Receive

  datatype History = History(q: Queue, sent: seq<Mail>, received: seq<Mail>)

  /** recv_mess returns when the ring is not empty. */
  ghost predicate Enabled(h: History, e: Event) { e.Receive? ==> !Empty(h.q) }

  function Do(h: History, e: Event): History
    requires h.q.Shaped()
  {
    match e
    case Send(m) => h.(q := Push(h.q, m), sent := h.sent + [m])
    case Receive => h.(q := Pop(h.q), received := h.received + [First(h.q)])
  }

  /** No more received than sent, and the rest is what the ring holds. */
  ghost predicate InOrder(h: History) {
    h.received <= h.sent && Holds(h.q, h.sent[|h.received|..])
  }

  /** Receives return the messages sent, each once and in order, as long as fewer than NUM_MSG are
      undelivered, and the message that makes it NUM_MSG makes the ring look empty. */
  lemma StepInOrderIff(h: History, e: Event)
    requires InOrder(h) && Enabled(h, e)
    ensures InOrder(Do(h, e)) <==> !(e.Send? && |h.sent| - |h.received| + 1 == NUM_MSG)
    ensures e.Send? && |h.sent| - |h.received| + 1 == NUM_MSG ==> Empty(Do(h, e).q)
  {
    var waiting := h.sent[|h.received|..];
    match e
    case Send(m) => {
      PushHoldsIff(h.q, waiting, m);
      assert (h.sent + [m])[|h.received|..] == waiting + [m];
    }
    case Receive => {
      EmptyIff(h.q, waiting);
      PopHolds(h.q, waiting);
      assert h.sent[|h.received| + 1..] == waiting[1..];
    }
  }

  /** A run from an empty queue; each event could happen. */
  ghost predicate IsRun(hs: seq<History>, es: seq<Event>) {
    && |hs| == |es| + 1 && hs[0].q.Shaped() && Empty(hs[0].q) && hs[0].sent == hs[0].received == []
    && forall k :: 0 <= k < |es| ==> hs[k].q.Shaped() && Enabled(hs[k], es[k]) && hs[k + 1] == Do(hs[k], es[k])
  }

  /** Over every run in which fewer than NUM_MSG messages are ever undelivered. */
  lemma {:induction false} RunInOrder(hs: seq<History>, es: seq<Event>, k: nat)
    requires IsRun(hs, es) && k <= |es|
    requires forall i :: 0 <= i <= k ==> |hs[i].sent| - |hs[i].received| < NUM_MSG
    ensures InOrder(hs[k])
  {
    if k > 0 {
      RunInOrder(hs, es, k - 1);
      StepInOrderIff(hs[k - 1], es[k - 1]);
    }
  }

  /** With NUM_MSG undelivered messages the ring has lost them: the next receive sleeps. */
  lemma OverflowLooksEmpty(hs: seq<History>, es: seq<Event>, k: nat)
    requires IsRun(hs, es) && k < |es| && es[k].Send?
    requires forall i :: 0 <= i <= k ==> |hs[i].sent| - |hs[i].received| < NUM_MSG
    requires |hs[k + 1].sent| - |hs[k + 1].received| == NUM_MSG
    ensures !Enabled(hs[k + 1], Receive)
  {
    RunInOrder(hs, es, k);
    StepInOrderIff(hs[k], es[k]);
  }
}
