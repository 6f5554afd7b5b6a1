/** The two hand-off queues: PacketQueue (compressed packets, with a "finished" flag) and
    SafeQueue (PCM byte buffers). Each call is modelled by its sequential effect; a call
    that would suspend its thread returns an explicit would-block outcome instead and
    changes nothing. */
module PacketQueues {
  import opened Media

  /** What one PacketQueue::pop reports: the head packet (pop returns true), "no data"
      (pop returns false), or that the calling thread would wait on the condition variable. */
  datatype PopOutcome = Popped(pkt: Packet) | NoData | WouldBlock

  /** The abstract state of a PacketQueue: its packets, head first, and its flag. */
  datatype QueueState = QueueState(items: seq<Packet>, finished: bool)

  /** The effect of push on the abstract state. */
  function Pushed(s: QueueState, pkt: Packet): (t: QueueState)
    ensures |t.items| == |s.items| + 1 && t.items[|s.items|] == pkt
    ensures t.items[..|s.items|] == s.items && t.finished == s.finished
  {
    s.(items := s.items + [pkt])
  }

  /** The effect of pop on the abstract state, and what the caller sees. */
  function PopStep(s: QueueState): (r: (PopOutcome, QueueState))
    ensures r.0.Popped? <==> s.items != []
    ensures r.0.Popped? ==> r.0.pkt == s.items[0] && r.1.items == s.items[1..]
    ensures r.0 == NoData <==> s.items == [] && s.finished
    ensures r.0 == WouldBlock <==> s.items == [] && !s.finished
    ensures !r.0.Popped? ==> r.1 == s
    ensures r.1.finished == s.finished
  {
    if s.items == [] && !s.finished then (WouldBlock, s)
    else if s.items != [] then (Popped(s.items[0]), s.(items := s.items[1..]))
    else (NoData, s)
  }

  /** One call on a queue, as a producer or a consumer issues it. */
  datatype QueueOp = PushOp(pkt: Packet) | PopOp | SetFinishedOp(flag: bool)

  /** The packet one call hands to the consumer, if any. */
  function HandedOut(s: QueueState, op: QueueOp): seq<Packet>
  {
    if op == PopOp && s.items != [] then [s.items[0]] else []
  }

  /** The packet one call hands to the queue, if any. */
  function TakenIn(op: QueueOp): seq<Packet>
  {
    if op.PushOp? then [op.pkt] else []
  }

  /** The state one call leaves. Seen from the packets, a call hands out at most the head
      and takes in at most the pushed packet; only setFinished touches the flag. */
  function Apply(s: QueueState, op: QueueOp): (t: QueueState)
    ensures HandedOut(s, op) + t.items == s.items + TakenIn(op)
    ensures t.finished == if op.SetFinishedOp? then op.flag else s.finished
  {
    match op
    case PushOp(p) => Pushed(s, p)
    case PopOp => PopStep(s).1
    case SetFinishedOp(b) => s.(finished := b)
  }

  /** What one call reports to its caller: an outcome for a pop, nothing otherwise. */
  function Reported(s: QueueState, op: QueueOp): seq<PopOutcome>
  {
    if op == PopOp then [PopStep(s).0] else []
  }

  /** The outcomes of the pops among `ops`, in call order. */
  function Outcomes(s: QueueState, ops: seq<QueueOp>): seq<PopOutcome>
    decreases |ops|
  {
    if ops == [] then []
    else Reported(s, ops[0]) + Outcomes(Apply(s, ops[0]), ops[1..])
  }

  /** The packets the pops among `ops` hand to the consumer, in call order. */
  function Delivered(s: QueueState, ops: seq<QueueOp>): seq<Packet>
    decreases |ops|
  {
    if ops == [] then []
    else HandedOut(s, ops[0]) + Delivered(Apply(s, ops[0]), ops[1..])
  }

  /** The state after all of `ops`. */
  function Final(s: QueueState, ops: seq<QueueOp>): QueueState
    decreases |ops|
  {
    if ops == [] then s else Final(Apply(s, ops[0]), ops[1..])
  }

  /** The packets the pushes among `ops` hand to the queue, in call order. */
  function PushedBy(ops: seq<QueueOp>): seq<Packet>
    decreases |ops|
  {
    if ops == [] then []
    else TakenIn(ops[0]) + PushedBy(ops[1..])
  }

  function Pushes(ps: seq<Packet>): (ops: seq<QueueOp>)
    ensures |ops| == |ps|
    decreases |ps|
  {
    if ps == [] then [] else [PushOp(ps[0])] + Pushes(ps[1..])
  }

  function Pops(n: nat): (ops: seq<QueueOp>)
    ensures |ops| == n
  {
    if n == 0 then [] else [PopOp] + Pops(n - 1)
  }

  /** No packet is lost or duplicated and the order is kept, whatever the interleaving of
      pushes, pops and flag changes: what has been delivered, followed by what is still
      queued, is exactly what was queued at the start followed by everything pushed. */
  lemma {:induction false} NoLossNoDuplication(s: QueueState, ops: seq<QueueOp>)
    ensures Delivered(s, ops) + Final(s, ops).items == s.items + PushedBy(ops)
    decreases |ops|
  {
    if ops != [] {
      var op, rest := ops[0], ops[1..];
      var s' := Apply(s, op);
      NoLossNoDuplication(s', rest);
      var out, inp := HandedOut(s, op), TakenIn(op);
      var d', f' := Delivered(s', rest), Final(s', rest).items;
      assert Delivered(s, ops) == out + d' && Final(s, ops).items == f';
      assert PushedBy(ops) == inp + PushedBy(rest);
      Regroup(out, d', f', s.items, inp, s'.items, PushedBy(rest));
    }
  }

  /** The sequence step of NoLossNoDuplication: one call's conservation composed with that
      of the calls after it. */
  lemma Regroup(out: seq<Packet>, d: seq<Packet>, f: seq<Packet>, items: seq<Packet>,
                inp: seq<Packet>, mid: seq<Packet>, later: seq<Packet>)
    requires d + f == mid + later
    requires out + mid == items + inp
    ensures (out + d) + f == items + (inp + later)
  {
    calc {
      (out + d) + f;
      out + (d + f);
      out + (mid + later);
      (out + mid) + later;
      (items + inp) + later;
      items + (inp + later);
    }
  }

  lemma Assoc<T>(x: seq<T>, y: seq<T>, z: seq<T>)
    ensures (x + y) + z == x + (y + z)
  {
  }

  /** Running `a` and then `b` delivers what `a` delivers followed by what `b` delivers. */
  lemma {:induction false} DeliveredAppend(s: QueueState, a: seq<QueueOp>, b: seq<QueueOp>)
    ensures Delivered(s, a + b) == Delivered(s, a) + Delivered(Final(s, a), b)
    ensures Final(s, a + b) == Final(Final(s, a), b)
    ensures Outcomes(s, a + b) == Outcomes(s, a) + Outcomes(Final(s, a), b)
    decreases |a|
  {
    if a != [] {
      var s' := Apply(s, a[0]);
      assert (a + b)[0] == a[0];
      assert (a + b)[1..] == a[1..] + b;
      DeliveredAppend(s', a[1..], b);
      var mid := Final(s', a[1..]);
      Assoc(HandedOut(s, a[0]), Delivered(s', a[1..]), Delivered(mid, b));
      Assoc(Reported(s, a[0]), Outcomes(s', a[1..]), Outcomes(mid, b));
    } else {
      assert a + b == b;
    }
  }

  /** Pushes deliver nothing, report nothing and append their packets; the flag stays. */
  lemma {:induction false} PushesAppend(s: QueueState, ps: seq<Packet>)
    ensures Delivered(s, Pushes(ps)) == [] && Outcomes(s, Pushes(ps)) == []
    ensures Final(s, Pushes(ps)) == QueueState(s.items + ps, s.finished)
    decreases |ps|
  {
    if ps != [] {
      PushesAppend(Pushed(s, ps[0]), ps[1..]);
      assert s.items + ps == (s.items + [ps[0]]) + ps[1..];
    }
  }

  /** Popping as many times as there are packets hands them all out, head first, and
      leaves the queue empty with its flag untouched, finished or not (drain before finish). */
  lemma {:induction false} PopsDrain(s: QueueState)
    ensures Delivered(s, Pops(|s.items|)) == s.items
    ensures Final(s, Pops(|s.items|)) == QueueState([], s.finished)
    decreases |s.items|
  {
    if s.items != [] {
      var s' := s.(items := s.items[1..]);
      assert Pops(|s.items|)[1..] == Pops(|s'.items|);
      PopsDrain(s');
      assert s.items == [s.items[0]] + s'.items;
    }
  }

  /** FIFO: on an empty queue, pushing p1..pn and then popping n times yields p1..pn in
      order and empties the queue again. */
  lemma {:induction false} Fifo(ps: seq<Packet>, finished: bool)
    ensures Delivered(QueueState([], finished), Pushes(ps) + Pops(|ps|)) == ps
    ensures Final(QueueState([], finished), Pushes(ps) + Pops(|ps|)) == QueueState([], finished)
  {
    var s := QueueState([], finished);
    DeliveredAppend(s, Pushes(ps), Pops(|ps|));
    PushesAppend(s, ps);
    assert Final(s, Pushes(ps)).items == ps;
    PopsDrain(Final(s, Pushes(ps)));
  }

  /** Once the queue is drained, the next pop reports "no data" if the producer has
      finished and would wait otherwise. */
  lemma {:induction false} DrainThenEnd(s: QueueState)
    ensures Outcomes(s, Pops(|s.items|) + [PopOp])
            == Outcomes(s, Pops(|s.items|)) + [if s.finished then NoData else WouldBlock]
  {
    var drain := Pops(|s.items|);
    DeliveredAppend(s, drain, [PopOp]);
    PopsDrain(s);
  }

  /** The packets carried by the Popped outcomes among `os`, in order. */
  function PoppedPackets(os: seq<PopOutcome>): seq<Packet>
    decreases |os|
  {
    if os == [] then [] else (if os[0].Popped? then [os[0].pkt] else []) + PoppedPackets(os[1..])
  }

  /** What the pops deliver is exactly what their outcomes carry: `Delivered`, about which
      NoLossNoDuplication speaks, is the sequence of packets the consumer's pop calls return. */
  lemma {:induction false} DeliveredIsPopped(s: QueueState, ops: seq<QueueOp>)
    ensures Delivered(s, ops) == PoppedPackets(Outcomes(s, ops))
    decreases |ops|
  {
    if ops != [] {
      var rest := Outcomes(Apply(s, ops[0]), ops[1..]);
      DeliveredIsPopped(Apply(s, ops[0]), ops[1..]);
      if ops[0] == PopOp {
        var os := [PopStep(s).0] + rest;
        assert os[0] == PopStep(s).0 && os[1..] == rest;
      } else {
        assert Outcomes(s, ops) == rest;
      }
    }
  }

  /** PacketQueue (PacketQueue.h): a std::queue of packets, a finished flag, and a lock
      and condition variable that the sequential model has no use for. */
  class PacketQueue {
    var queue: seq<Packet>
    var finished: bool

    function State(): QueueState
      reads this
    {
      QueueState(queue, finished)
    }

    /** A new queue is empty and not finished. */
    constructor ()
      ensures queue == [] && !finished
    {
      queue := [];
      finished := false;
    }

    /** Appends (a new reference to) the packet at the tail. */
    method Push(pkt: Packet)
      modifies this
      ensures queue == old(queue) + [pkt]
      ensures finished == old(finished)
      ensures State() == Pushed(old(State()), pkt)
    {
      queue := queue + [pkt];
    }

    /** Hands out the head if there is one, even once finished; reports "no data" on an
        empty finished queue; on an empty open queue the caller would wait. */
    method Pop() returns (outcome: PopOutcome)
      modifies this
      ensures (outcome, State()) == PopStep(old(State()))
      ensures old(queue) != [] ==> outcome == Popped(old(queue)[0]) && queue == old(queue)[1..]
      ensures old(queue) == [] ==> queue == [] && outcome == (if finished then NoData else WouldBlock)
      ensures finished == old(finished)
    {
      if queue == [] && !finished {
        return WouldBlock;
      }
      if queue != [] {
        var front := queue[0];
        queue := queue[1..];
        return Popped(front);
      }
      return NoData;
    }

    /** Sets the flag to exactly `flag`; the packets stay. */
    method SetFinished(flag: bool)
      modifies this`finished
      ensures finished == flag
      ensures queue == old(queue)
    {
      finished := flag;
    }

    method IsFinished() returns (b: bool)
      ensures b == finished
    {
      b := finished;
    }
  }

  /** What SafeQueue::pop hands back: the head buffer, or that the caller would wait. */
  datatype Take = Taken(buffer: seq<byte>) | Blocks

  /** SafeQueue (PacketQueue.h): a std::queue of owned byte buffers. The buffers are held as
      values, so a pushed buffer is a copy that nothing outside the queue can change. */
  class SafeQueue {
    var queue: seq<seq<byte>>

    constructor ()
      ensures queue == []
    {
      queue := [];
    }

    /** Stores a copy of the first `size` bytes of `data` at the tail; the size itself is
        not recorded beside it. */
    method Push(data: array<byte>, size: nat)
      requires size <= data.Length
      modifies this
      ensures queue == old(queue) + [data[..size]]
    {
      var copy := new byte[size];
      var i := 0;
      while i < size
        invariant 0 <= i <= size
        invariant copy[..i] == data[..i]
        invariant queue == old(queue)
      {
        copy[i] := data[i];
        i := i + 1;
      }
      assert copy[..] == data[..size];
      queue := queue + [copy[..]];
    }

    /** Moves the head buffer out of the queue; an empty queue makes the caller wait. */
    method Pop() returns (r: Take)
      modifies this
      ensures old(queue) != [] ==> r == Taken(old(queue)[0]) && queue == old(queue)[1..]
      ensures old(queue) == [] ==> r == Blocks && queue == []
    {
      if queue == [] {
        return Blocks;
      }
      r := Taken(queue[0]);
      queue := queue[1..];
    }

    method Empty() returns (e: bool)
      ensures e <==> |queue| == 0
    {
      e := queue == [];
    }
  }
}
