/** The ring goroutine's buffer as values: what each of its operations does to the
    buffered packets, and the batching rule of sendDue. */
module DelayQueue {
  import opened Options

  /** A captured packet; slot is None when its bytes are on the heap. */
  datatype Packet = Packet(id: int, slot: Option<nat>)

  datatype Entry = Entry(pkt: Packet, deadline: int)

  /** What goes over readyCh. */
  datatype Ready = Ready(pkt: Packet, dropped: nat, lastInBatch: bool)

  /** queue is oldest first; timer is the time at which the armed timer fires. */
  datatype Ring = Ring(queue: seq<Entry>, dropped: nat, timer: Option<int>)

  function Max(a: int, b: int): int { if a >= b then a else b }

  /** The loop condition of sendDue. */
  predicate Due(q: seq<Entry>, now: int, flushAll: bool, size: nat)
  {
    |q| > 0 && (flushAll || now >= q[0].deadline || |q| > size / 2)
  }

  /** A new packet goes in at the tail; a full ring first loses its oldest packet. */
  function Insert(r: Ring, pkt: Packet, deadline: int, size: nat): Ring
  {
    if |r.queue| == size && size > 0 then
      r.(queue := r.queue[1..] + [Entry(pkt, deadline)], dropped := r.dropped + 1)
    else
      r.(queue := r.queue + [Entry(pkt, deadline)])
  }

  function Evicted(r: Ring, size: nat): seq<Packet>
  {
    if |r.queue| == size && size > 0 then [r.queue[0].pkt] else []
  }

  /** Nothing is lost without being counted: the packet that is evicted and those that are
      buffered afterwards are those that were buffered before, and the new one at the end
      with its deadline. The ring never holds more than its size, and evicts only when full. */
  lemma InsertConserves(r: Ring, pkt: Packet, deadline: int, size: nat)
    requires size > 0 && |r.queue| <= size
    ensures var s, gone := Insert(r, pkt, deadline, size), Evicted(r, size);
      && gone + Packets(s.queue) == Packets(r.queue) + [pkt]
      && |s.queue| > 0 && s.queue[|s.queue| - 1] == Entry(pkt, deadline) && |s.queue| <= size
      && (forall i :: 0 <= i < |s.queue| - 1 ==> s.queue[i] == r.queue[|gone| + i])
      && s.dropped == r.dropped + |gone| && s.timer == r.timer
      && (gone != [] <==> |r.queue| == size)
  {
    if |r.queue| == size {
      PacketsShifted(r.queue, Entry(pkt, deadline));
    } else {
      PacketsLonger(r.queue, Entry(pkt, deadline));
    }
  }

  lemma PacketsLonger(q: seq<Entry>, e: Entry)
    ensures [] + Packets(q + [e]) == Packets(q) + [e.pkt]
  {}

  lemma PacketsShifted(q: seq<Entry>, e: Entry)
    requires |q| > 0
    ensures [q[0].pkt] + Packets(q[1..] + [e]) == Packets(q) + [e.pkt]
  {}

  /** The oldest packet leaves, and takes the drop count with it. */
  function Pop(r: Ring): Ring
    requires |r.queue| > 0
  {
    r.(queue := r.queue[1..], dropped := 0)
  }

  function Arm(r: Ring, now: int): Ring
  {
    r.(timer := if |r.queue| == 0 then None else Some(now + Max(r.queue[0].deadline - now, 0)))
  }

  function Packets(q: seq<Entry>): (ps: seq<Packet>)
    ensures |ps| == |q| && forall i :: 0 <= i < |q| ==> ps[i] == q[i].pkt
  {
    seq(|q|, i requires 0 <= i < |q| => q[i].pkt)
  }

  lemma PacketsFrom(q: seq<Entry>, k: nat)
    requires k < |q|
    ensures [q[k].pkt] + Packets(q[k + 1..]) == Packets(q)[k..]
  {}

  /** How many packets a call of sendDue takes off the ring when nothing cancels it. */
  function BatchSize(q: seq<Entry>, now: int, flushAll: bool, size: nat): (n: nat)
    ensures n <= |q|
  {
    if Due(q, now, flushAll, size) then 1 + BatchSize(q[1..], now, flushAll, size) else 0
  }

  /** A batch is the shortest prefix whose removal leaves nothing due. */
  lemma {:induction false} BatchIsShortest(q: seq<Entry>, now: int, flushAll: bool, size: nat, k: nat)
    requires k <= |q|
    ensures k < BatchSize(q, now, flushAll, size) ==> Due(q[k..], now, flushAll, size)
    ensures k == BatchSize(q, now, flushAll, size) ==> !Due(q[k..], now, flushAll, size)
  {
    if k == 0 {
      assert q[0..] == q;
    } else if Due(q, now, flushAll, size) {
      BatchIsShortest(q[1..], now, flushAll, size, k - 1);
      assert q[1..][k - 1..] == q[k..];
    }
  }

  /** The batch one uncancelled call sends: the drop count goes with its first
      packet, the end mark with its last, and with no other. */
  function Batch(r: Ring, now: int, flushAll: bool, size: nat): (b: seq<Ready>)
    ensures |b| == BatchSize(r.queue, now, flushAll, size)
    ensures forall i :: 0 <= i < |b| ==>
      b[i] == Ready(r.queue[i].pkt, if i == 0 then r.dropped else 0, i == |b| - 1)
  {
    var n := BatchSize(r.queue, now, flushAll, size);
    seq(n, i requires 0 <= i < n => Ready(r.queue[i].pkt, if i == 0 then r.dropped else 0, i == n - 1))
  }

  /** What the passes of sendDue's loop hand over one by one: each takes the oldest packet
      off the ring, sends the drops counted so far along, and looks whether another pass
      follows. */
  function Passes(r: Ring, now: int, flushAll: bool, size: nat): seq<Ready>
    decreases |r.queue|
  {
    if !Due(r.queue, now, flushAll, size) then []
    else
      [Ready(r.queue[0].pkt, r.dropped, !Due(r.queue[1..], now, flushAll, size))] + Passes(Pop(r), now, flushAll, size)
  }

  /** Together they are the batch: the drops are told once, with the first packet, and the
      mark that makes the writer flush the file is on the last packet and no other. */
  lemma {:induction false} PassesAreBatch(r: Ring, now: int, flushAll: bool, size: nat)
    ensures Passes(r, now, flushAll, size) == Batch(r, now, flushAll, size)
    decreases |r.queue|
  {
    if Due(r.queue, now, flushAll, size) { PassesAreBatch(Pop(r), now, flushAll, size); }
  }

  /** The packet that one pass of the loop hands over is the next one of the batch. */
  lemma BatchStep(r: Ring, now: int, flushAll: bool, size: nat, k: nat)
    requires k < BatchSize(r.queue, now, flushAll, size)
    ensures !Due(r.queue[k..][1..], now, flushAll, size) <==> k + 1 == BatchSize(r.queue, now, flushAll, size)
    ensures Batch(r, now, flushAll, size)[k]
            == Ready(r.queue[k..][0].pkt, if k == 0 then r.dropped else 0, !Due(r.queue[k..][1..], now, flushAll, size))
  {
    assert r.queue[k..][1..] == r.queue[k + 1..];
    BatchIsShortest(r.queue, now, flushAll, size, k + 1);
  }

  /** Closing the input empties the ring. */
  lemma {:induction false} FlushTakesAll(q: seq<Entry>, now: int, size: nat)
    ensures BatchSize(q, now, true, size) == |q|
  {
    if |q| > 0 { FlushTakesAll(q[1..], now, size); }
  }

  /** Deadlines never decrease along the queue. */
  ghost predicate Ordered(q: seq<Entry>)
  {
    forall i, j :: 0 <= i < j < |q| ==> q[i].deadline <= q[j].deadline
  }

  /** Without flushing, a batch leaves at most half the ring, and nothing whose
      deadline has passed. A packet goes out ahead of its deadline only to get the
      ring down to half. */
  lemma {:induction false} BatchMeets(q: seq<Entry>, now: int, size: nat)
    requires Ordered(q)
    ensures |q| - BatchSize(q, now, false, size) <= size / 2
    ensures forall i :: BatchSize(q, now, false, size) <= i < |q| ==> now < q[i].deadline
    ensures forall i :: 0 <= i < BatchSize(q, now, false, size) ==> q[i].deadline <= now || |q| - i > size / 2
  {
    var n := BatchSize(q, now, false, size);
    BatchIsShortest(q, now, false, size, n);
    forall i | 0 <= i < n
      ensures q[i].deadline <= now || |q| - i > size / 2
    {
      BatchIsShortest(q, now, false, size, i);
    }
  }
}
