/** The ring goroutine's circular buffer, updated in place. */
module CaptureRing {
  import opened Options
  import opened DelayQueue

  /** A place in the ring; Vacant is the zeroed entry. */
  datatype Cell = Vacant | Held(entry: Entry)

  /** Where the i-th oldest entry lies. */
  function Place(head: nat, i: nat, size: nat): nat
    requires head < size && i < size
  {
    if head + i < size then head + i else head + i - size
  }

  lemma Modulo(x: nat, size: nat)
    requires x < 2 * size
    ensures x % size == if x < size then x else x - size
  {
    if x >= size { Reduce(x - size, size); }
  }

  lemma Reduce(i: nat, size: nat)
    requires i < size
    ensures (size + i) % size == i
  {}

  class DelayRing {
    const entries: array<Cell>
    var head: nat
    var count: nat
    var dropped: nat
    var timer: Option<int>
    ghost var queue: seq<Entry> // what is buffered, oldest first

    ghost predicate Valid()
      reads this, entries
    {
      && head < entries.Length && count <= entries.Length && |queue| == count
      && (forall i :: 0 <= i < count ==> entries[Place(head, i, entries.Length)] == Held(queue[i]))
      && (forall i :: count <= i < entries.Length ==> entries[Place(head, i, entries.Length)] == Vacant)
    }

    ghost function View(): Ring
      reads this
    {
      Ring(queue, dropped, timer)
    }

    constructor (size: nat)
      requires 0 < size
      ensures Valid() && fresh(entries) && entries.Length == size
      ensures View() == Ring([], 0, None)
    {
      entries := new Cell[size](_ => Vacant);
      head, count, dropped, timer, queue := 0, 0, 0, None, [];
    }

    /** Takes the oldest entry off the ring and zeroes its place. */
    method TakeHead() returns (e: Entry)
      requires Valid() && count > 0
      modifies this`head, this`count, this`queue, entries
      ensures Valid() && count == old(count) - 1
      ensures e == old(queue)[0] && queue == old(queue)[1..]
    {
      assert entries[Place(head, 0, entries.Length)] == Held(queue[0]);
      e := entries[head].entry;
      entries[head] := Vacant;
      Modulo(head + 1, entries.Length);
      head := (head + 1) % entries.Length;
      count := count - 1;
      queue := queue[1..];
      assert forall i :: 0 <= i < entries.Length - 1 ==>
        Place(head, i, entries.Length) == Place(old(head), i + 1, entries.Length);
    }

    /** The receive case of the select: a packet from pktCh is buffered with its
        deadline, dropping the oldest one when the ring is full. */
    method Receive(pkt: Packet, deadline: int) returns (evicted: seq<Packet>)
      requires Valid()
      modifies this`head, this`count, this`dropped, this`queue, entries
      ensures Valid()
      ensures View() == Insert(old(View()), pkt, deadline, entries.Length)
      ensures evicted == Evicted(old(View()), entries.Length)
    {
      evicted := [];
      if count == entries.Length {
        var e := TakeHead();
        evicted := [e.pkt];
        dropped := dropped + 1;
      }
      Modulo(head + count, entries.Length);
      entries[(head + count) % entries.Length] := Held(Entry(pkt, deadline));
      count := count + 1;
      queue := queue + [Entry(pkt, deadline)];
    }

    /** The condition of sendDue's loop, as the code evaluates it on the array. */
    method MustSend(now: int, flushAll: bool) returns (due: bool)
      requires Valid()
      ensures due == Due(queue, now, flushAll, entries.Length)
    {
      assert count > 0 ==> entries[Place(head, 0, entries.Length)] == Held(queue[0]);
      due := count > 0 && (flushAll || now >= entries[head].entry.deadline || count > entries.Length / 2);
    }

    /** One pass of the loop, up to the hand-off: the oldest packet with the drops
        before it, marked as the last of its batch when nothing stays due. */
    method NextReady(now: int, flushAll: bool) returns (r: Ready)
      requires Valid() && count > 0
      modifies this`head, this`count, this`dropped, this`queue, entries
      ensures Valid()
      ensures View() == Pop(old(View()))
      ensures r == Ready(old(queue)[0].pkt, old(dropped), !Due(old(queue)[1..], now, flushAll, entries.Length))
    {
      var e := TakeHead();
      var d := dropped;
      dropped := 0;
      assert count > 0 ==> entries[Place(head, 0, entries.Length)] == Held(queue[0]);
      var last := count == 0 || (!flushAll && now < entries[head].entry.deadline && count <= entries.Length / 2);
      r := Ready(e.pkt, d, last);
    }

    /** The k-th pass of the loop hands over the k-th packet of the batch that was due
        when sendDue began, and finds out whether there is another one. */
    method Pass(now: int, flushAll: bool, ghost was: Ring, ghost k: nat) returns (r: Ready, due: bool)
      requires Valid()
      requires k < |Batch(was, now, flushAll, entries.Length)|
      requires queue == was.queue[k..] && dropped == if k == 0 then was.dropped else 0
      modifies this`head, this`count, this`dropped, this`queue, entries
      ensures Valid()
      ensures queue == was.queue[k + 1..] && dropped == 0
      ensures r == Batch(was, now, flushAll, entries.Length)[k]
      ensures due == (k + 1 < |Batch(was, now, flushAll, entries.Length)|)
    {
      BatchStep(was, now, flushAll, entries.Length, k);
      r := NextReady(now, flushAll);
      assert queue == was.queue[k + 1..];
      due := MustSend(now, flushAll);
    }

    /** The passes of the loop that end in a hand-off, at most accepts of them. */
    method SendSome(now: int, flushAll: bool, accepts: nat) returns (sent: seq<Ready>, due: bool)
      requires Valid()
      modifies this`head, this`count, this`dropped, this`queue, entries
      ensures Valid()
      ensures sent <= Batch(old(View()), now, flushAll, entries.Length)
      ensures |sent| == accepts || (|sent| <= accepts && !due)
      ensures due == (|sent| < |Batch(old(View()), now, flushAll, entries.Length)|)
      ensures queue == old(queue)[|sent|..]
      ensures dropped == if |sent| == 0 then old(dropped) else 0
    {
      ghost var was := View();
      ghost var batch := Batch(was, now, flushAll, entries.Length);
      sent := [];
      BatchIsShortest(queue, now, flushAll, entries.Length, 0);
      due := MustSend(now, flushAll);
      while due && |sent| < accepts
        invariant Valid() && |sent| <= accepts && sent <= batch
        invariant queue == was.queue[|sent|..]
        invariant dropped == if |sent| == 0 then was.dropped else 0
        invariant due == (|sent| < |batch|)
        decreases |batch| - |sent|
      {
        var r;
        r, due := Pass(now, flushAll, was, |sent|);
        sent := sent + [r];
      }
    }

    /** Sends what is due. accepts is how many hand-offs the writer takes before the
        select sees the shutdown; a cancelled call releases everything that is left. */
    method SendDue(now: int, flushAll: bool, accepts: nat)
      returns (sent: seq<Ready>, released: seq<Packet>, completed: bool)
      requires Valid()
      modifies this`head, this`count, this`dropped, this`queue, entries
      ensures Valid()
      ensures completed == (BatchSize(old(queue), now, flushAll, entries.Length) <= accepts)
      ensures |sent| == if completed then BatchSize(old(queue), now, flushAll, entries.Length) else accepts
      ensures sent <= Batch(old(View()), now, flushAll, entries.Length)
      ensures released == if completed then [] else Packets(old(queue))[accepts..]
      ensures queue == if completed then old(queue)[|sent|..] else []
      ensures dropped == if Due(old(queue), now, flushAll, entries.Length) then 0 else old(dropped)
    {
      ghost var was := queue;
      var due;
      sent, due := SendSome(now, flushAll, accepts);
      released, completed := [], !due;
      if due {
        // the hand-off of the next packet is cancelled
        PacketsFrom(was, accepts);
        var r := NextReady(now, flushAll);
        var rest := Drain();
        released := [r.pkt] + rest;
      }
    }

    /** The shutdown case: every buffered packet is released, oldest first. */
    method Drain() returns (released: seq<Packet>)
      requires Valid()
      modifies this`head, this`count, this`queue, entries
      ensures Valid()
      ensures released == Packets(old(queue))
      ensures queue == []
    {
      ghost var q := queue;
      released := [];
      while count > 0
        invariant Valid()
        invariant |released| <= |q| && queue == q[|released|..]
        invariant released == Packets(q)[..|released|]
        decreases count
      {
        var e := TakeHead();
        released := released + [e.pkt];
      }
    }

    method ScheduleTimer(now: int)
      requires Valid()
      modifies this`timer
      ensures Valid()
      ensures View() == Arm(old(View()), now)
    {
      if count == 0 {
        timer := None;
        return;
      }
      assert entries[Place(head, 0, entries.Length)] == Held(queue[0]);
      timer := Some(now + Max(entries[head].entry.deadline - now, 0));
    }
  }
}
