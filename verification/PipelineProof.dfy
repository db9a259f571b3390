/** What every step of the pipeline keeps. */
module PipelineProof {
  import opened Options
  import opened DelayQueue
  import opened Pipeline
  import opened BufferSize

  // Control: how full the ring is, the batch that is open, the armed timer

  predicate BatchOpen(c: Config, b: Buffer)
  {
    || b.stage.Handing?
    || (b.stage.Checking? && Due(b.ring.queue, b.stage.now, b.stage.flushAll, c.size))
  }

  predicate Flushing(stage: Stage)
  {
    (stage.Starting? || stage.Checking? || stage.Handing?) && stage.flushAll
  }

  ghost predicate BufferInv(c: Config, clock: int, b: Buffer)
  {
    && |b.ring.queue| <= c.size / 2 + 1
    && (b.stage.Selecting? || b.stage.Arming? || b.stage.Handing? ==> |b.ring.queue| <= c.size / 2)
    && b.evicted == [] && b.ring.dropped == 0
    && (b.stage.Handing? ==> (b.stage.last <==> !Due(b.ring.queue, b.stage.now, b.stage.flushAll, c.size)))
    && b.armedAt <= clock
    && (b.stage.Selecting? ==>
          b.ring.timer == if |b.ring.queue| == 0 then None
                          else Some(DelayQueue.Max(b.armedAt, b.ring.queue[0].deadline)))
    && (b.stage.Checking? || b.stage.Handing? ==> b.stage.now <= clock)
  }

  ghost predicate ControlInv(c: Config, s: State)
  {
    var b, w := s.buffer, s.output.writer;
    && BufferInv(c, s.clock, b)
    && (s.input.closed ==> s.input.reader.ReaderDone?)
    && (Flushing(b.stage) ==> s.input.closed && s.input.pktCh == [])
    && (w.Writing? && w.flushed ==> s.input.closed)
    && (w.Writing? && !w.last ==> s.shutdown || BatchOpen(c, b))
    && (w.WriterDone? ==> s.shutdown)
    && (s.output.unwritten != [] ==> w.WriterDone?)
    && (b.discarded != [] ==> b.stage.Draining? || b.stage.RingDone?)
    && (b.stage.Draining? || b.discarded != [] ==> s.shutdown)
    && (b.stage.RingDone? ==> |b.ring.queue| == 0)
    && (b.stage.RingDone? && !s.shutdown ==> s.input.closed && s.input.pktCh == [])
  }

  lemma ControlStep(c: Config, s: State, step: Step)
    requires c.Valid() && ControlInv(c, s) && Enabled(s, step)
    ensures ControlInv(c, Apply(c, s, step))
  {
    match step
    case Outside(_) =>
    case Read(r) => ControlRead(c, s, r);
    case Select(e) => ControlSelect(c, s, e);
    case Send(d) => ControlSend(c, s, d);
    case Write(_) =>
  }

  lemma ControlRead(c: Config, s: State, r: ReaderStep)
    requires c.Valid() && ControlInv(c, s) && CanRead(s, r)
    ensures ControlInv(c, ApplyRead(c, s, r))
  {}

  lemma ControlSelect(c: Config, s: State, e: SelectStep)
    requires c.Valid() && ControlInv(c, s) && s.buffer.stage.Selecting? && CanSelect(s, e)
    ensures ControlInv(c, ApplySelect(c, s, e))
  {}

  lemma ControlSend(c: Config, s: State, d: SendStep)
    requires c.Valid() && ControlInv(c, s) && CanSend(s, d)
    ensures ControlInv(c, ApplySend(c, s, d))
  {}

  // Order and deadlines

  /** The packets written so far, with their deadlines. */
  function Written(blocks: seq<Block>): seq<Entry>
  {
    if |blocks| == 0 then []
    else
      var before := Written(blocks[..|blocks| - 1]);
      match blocks[|blocks| - 1]
      case PacketBlock(e, _, _) => before + [e]
      case SecretBlock(_, _) => before
  }

  function InWriter(w: Writer): seq<Entry> { if w.Writing? then [w.entry] else [] }

  function InHand(g: Stage): seq<Entry> { if g.Handing? then [g.entry] else [] }

  /** The packets that have left the ring goroutine, in order. */
  function Gone(o: Output): seq<Entry>
  {
    Written(o.blocks) + o.unwritten + InWriter(o.writer)
  }

  /** The packets that the ring goroutine still has or has thrown away, in order. */
  function Kept(b: Buffer): seq<Entry>
  {
    InHand(b.stage) + b.discarded + b.ring.queue
  }

  /** Every packet that has reached the ring, in the order in which it left or will leave. */
  function Line(s: State): seq<Entry> { Gone(s.output) + Kept(s.buffer) }

  /** What the line must be: the packets sent, each due one delay after its arrival. */
  function Stamped(sent: seq<Packet>, arrivals: seq<int>, delay: nat): (q: seq<Entry>)
    requires |arrivals| <= |sent|
    ensures |q| == |arrivals|
    ensures forall k :: 0 <= k < |q| ==> q[k] == Entry(sent[k], arrivals[k] + delay)
  {
    seq(|arrivals|, k requires 0 <= k < |arrivals| => Entry(sent[k], arrivals[k] + delay))
  }

  ghost predicate OrderInv(c: Config, s: State)
  {
    && |s.buffer.arrivals| <= |s.input.sent|
    && Line(s) == Stamped(s.input.sent, s.buffer.arrivals, c.delay)
    && s.input.pktCh == s.input.sent[|s.buffer.arrivals|..]
  }

  lemma OrderStep(c: Config, s: State, step: Step)
    requires c.Valid() && ControlInv(c, s) && OrderInv(c, s) && Enabled(s, step)
    ensures OrderInv(c, Apply(c, s, step))
  {
    match step
    case Outside(_) =>
    case Read(r) => OrderRead(c, s, r);
    case Select(e) => OrderSelect(c, s, e);
    case Send(d) => OrderSend(c, s, d);
    case Write(w) => OrderWrite(c, s, w);
  }

  lemma OrderRead(c: Config, s: State, r: ReaderStep)
    requires OrderInv(c, s) && CanRead(s, r)
    ensures OrderInv(c, ApplyRead(c, s, r))
  {
    var t := ApplyRead(c, s, r);
    assert Stamped(t.input.sent, t.buffer.arrivals, c.delay) == Stamped(s.input.sent, s.buffer.arrivals, c.delay);
  }

  lemma OrderSelect(c: Config, s: State, e: SelectStep)
    requires c.Valid() && ControlInv(c, s) && OrderInv(c, s) && s.buffer.stage.Selecting? && CanSelect(s, e)
    ensures OrderInv(c, ApplySelect(c, s, e))
  {
    if e.Receive? { OrderReceive(c, s); }
  }

  lemma OrderReceive(c: Config, s: State)
    requires c.Valid() && ControlInv(c, s) && OrderInv(c, s)
    requires s.buffer.stage.Selecting? && CanSelect(s, Receive)
    ensures OrderInv(c, ApplySelect(c, s, Receive))
  {
    var t := ApplySelect(c, s, Receive);
    var x := Entry(s.input.pktCh[0], s.clock + c.delay);
    assert Kept(t.buffer) == Kept(s.buffer) + [x];
    assert Line(t) == Line(s) + [x];
    var was := Stamped(s.input.sent, s.buffer.arrivals, c.delay);
    assert Stamped(t.input.sent, t.buffer.arrivals, c.delay) == was + [x];
  }

  /** Inside sendDue and the shutdown loop a packet moves along the line without changing it. */
  lemma OrderSend(c: Config, s: State, d: SendStep)
    requires ControlInv(c, s) && OrderInv(c, s) && CanSend(s, d)
    ensures OrderInv(c, ApplySend(c, s, d))
  {
    match d
    case Check => KeptCheck(c, s.buffer);
    case HandOff => LineHandOff(c, s);
    case AbortHandOff => assert Kept(ApplySend(c, s, d).buffer) == Kept(s.buffer);
    case DrainOne => KeptDrain(c, s);
    case _ =>
  }

  lemma KeptCheck(c: Config, b: Buffer)
    requires b.stage.Checking? && b.discarded == []
    ensures Kept(ApplyCheck(c, b)) == Kept(b)
  {
    var q := b.ring.queue;
    if |q| > 0 { assert [q[0]] + [] + q[1..] == q; }
  }

  lemma KeptDrain(c: Config, s: State)
    requires s.buffer.stage.Draining?
    ensures Kept(ApplySend(c, s, DrainOne).buffer) == Kept(s.buffer)
  {
    var d, q := s.buffer.discarded, s.buffer.ring.queue;
    if |q| > 0 { assert (d + [q[0]]) + q[1..] == d + q; }
  }

  lemma LineHandOff(c: Config, s: State)
    requires CanSend(s, HandOff) && s.buffer.discarded == [] && s.output.unwritten == []
    ensures Line(ApplySend(c, s, HandOff)) == Line(s)
  {
    var t := ApplySend(c, s, HandOff);
    var w, e, q := Written(s.output.blocks), s.buffer.stage.entry, s.buffer.ring.queue;
    assert Kept(s.buffer) == [e] + q && Kept(t.buffer) == q;
    assert Gone(s.output) == w && Gone(t.output) == w + [e];
  }

  lemma OrderWrite(c: Config, s: State, w: WriterStep)
    requires ControlInv(c, s) && OrderInv(c, s) && Enabled(s, Write(w))
    ensures OrderInv(c, ApplyWrite(s, w))
  {
    match w
    case WriteSecret(_) => GoneSecret(s, w);
    case WritePacket(_) => GonePacket(s, w);
    case StopWriting =>
  }

  lemma GoneSecret(s: State, w: WriterStep)
    requires w.WriteSecret?
    ensures Gone(ApplyWrite(s, w).output) == Gone(s.output)
  {
    var blocks := ApplyWrite(s, w).output.blocks;
    assert blocks[..|blocks| - 1] == s.output.blocks;
  }

  lemma GonePacket(s: State, w: WriterStep)
    requires w.WritePacket? && s.output.writer.Writing? && s.output.unwritten == []
    ensures Gone(ApplyWrite(s, w).output) == Gone(s.output)
  {
    var t := ApplyWrite(s, w).output;
    var e := s.output.writer.entry;
    if w.ok { assert t.blocks[..|t.blocks| - 1] == s.output.blocks; }
    assert Gone(s.output) == Written(s.output.blocks) + [e];
    assert Gone(t) == Written(s.output.blocks) + [e];
  }

  /** A buffered packet is due one delay after its arrival. */
  lemma QueueStamp(c: Config, s: State, i: nat)
    requires OrderInv(c, s) && i < |s.buffer.ring.queue|
    ensures |s.buffer.ring.queue| <= |s.buffer.arrivals|
    ensures s.buffer.ring.queue[i].deadline
            == s.buffer.arrivals[|s.buffer.arrivals| - |s.buffer.ring.queue| + i] + c.delay
  {
    var n := |Line(s)|;
    assert Line(s)[n - |s.buffer.ring.queue| + i] == s.buffer.ring.queue[i];
  }

  // Time

  ghost predicate Sorted(a: seq<int>, clock: int)
  {
    && (forall i, j :: 0 <= i < j < |a| ==> a[i] <= a[j])
    && (forall i :: 0 <= i < |a| ==> a[i] <= clock)
  }

  ghost predicate Chronological(o: seq<Block>, clock: int)
  {
    && (forall i, j :: 0 <= i < j < |o| ==> o[i].at <= o[j].at)
    && (forall i :: 0 <= i < |o| ==> o[i].at <= clock)
  }

  ghost predicate TimeInv(s: State)
  {
    && Sorted(s.buffer.arrivals, s.clock)
    && Chronological(s.output.blocks, s.clock)
    && (s.buffer.stage.Checking? || s.buffer.stage.Handing? ==> Sorted(s.buffer.arrivals, s.buffer.stage.now))
  }

  lemma TimeStep(c: Config, s: State, step: Step)
    requires c.Valid() && TimeInv(s) && Enabled(s, step)
    ensures TimeInv(Apply(c, s, step))
  {
    match step
    case Outside(_) =>
    case Read(_) =>
    case Select(e) => TimeSelect(c, s, e);
    case Send(d) => TimeSend(c, s, d);
    case Write(w) => TimeWrite(s, w);
  }

  lemma TimeSelect(c: Config, s: State, e: SelectStep)
    requires TimeInv(s) && CanSelect(s, e)
    ensures TimeInv(ApplySelect(c, s, e))
  {}

  lemma TimeWrite(s: State, w: WriterStep)
    requires TimeInv(s) && Enabled(s, Write(w))
    ensures TimeInv(ApplyWrite(s, w))
  {}

  lemma TimeSend(c: Config, s: State, d: SendStep)
    requires TimeInv(s) && CanSend(s, d)
    ensures TimeInv(ApplySend(c, s, d))
  {}

  /** Deadlines never decrease along the ring: its head is the earliest. */
  lemma QueueOrdered(c: Config, s: State)
    requires OrderInv(c, s) && TimeInv(s)
    ensures Ordered(s.buffer.ring.queue)
  {
    forall i, j | 0 <= i < j < |s.buffer.ring.queue|
      ensures s.buffer.ring.queue[i].deadline <= s.buffer.ring.queue[j].deadline
    {
      QueueStamp(c, s, i);
      QueueStamp(c, s, j);
    }
  }

  // What is in the file

  ghost predicate NoneFlushed(o: seq<Block>)
  {
    forall i :: 0 <= i < |o| && o[i].PacketBlock? ==> !o[i].flushed
  }

  ghost predicate PacketsSynced(o: seq<Block>, synced: nat)
  {
    synced <= |o| && forall i :: synced <= i < |o| ==> !o[i].PacketBlock?
  }

  /** Flushed packets need a closed input; packets that ngw still buffers need a batch
      that is still open. */
  ghost predicate FileInv(c: Config, s: State)
  {
    && (s.input.closed || NoneFlushed(s.output.blocks))
    && (PacketsSynced(s.output.blocks, s.output.synced) || s.shutdown || s.output.writer.Writing? || BatchOpen(c, s.buffer))
  }

  lemma FileStep(c: Config, s: State, step: Step)
    requires c.Valid() && ControlInv(c, s) && FileInv(c, s) && Enabled(s, step)
    ensures FileInv(c, Apply(c, s, step))
  {
    match step
    case Outside(_) =>
    case Read(_) =>
    case Select(e) =>
    case Send(d) => FileSend(c, s, d);
    case Write(w) => FileWrite(c, s, w);
  }

  lemma FileSend(c: Config, s: State, d: SendStep)
    requires ControlInv(c, s) && FileInv(c, s) && CanSend(s, d)
    ensures FileInv(c, ApplySend(c, s, d))
  {}

  lemma FileWrite(c: Config, s: State, w: WriterStep)
    requires ControlInv(c, s) && FileInv(c, s) && Enabled(s, Write(w))
    ensures FileInv(c, ApplyWrite(s, w))
  {
    var t := ApplyWrite(s, w);
    assert NoneFlushed(s.output.blocks) && !t.input.closed ==> NoneFlushed(t.output.blocks);
  }

  // The delay guarantee

  ghost predicate OnTime(o: seq<Block>)
  {
    forall i :: 0 <= i < |o| && o[i].PacketBlock? && !o[i].flushed ==> o[i].entry.deadline <= o[i].at
  }

  /** Nothing that left the ring without a flush did so ahead of its deadline. */
  ghost predicate DelayInv(s: State)
  {
    var g, w := s.buffer.stage, s.output.writer;
    && (g.Handing? && !g.flushAll ==> g.entry.deadline <= s.clock)
    && (w.Writing? && !w.flushed ==> w.entry.deadline <= s.clock)
    && OnTime(s.output.blocks)
  }

  /** The arrival bound rules out the half-full rule: if more than half the ring is
      occupied, the oldest packet is due. */
  lemma OverHalfIsDue(c: Config, s: State)
    requires OrderInv(c, s) && TimeInv(s) && s.buffer.stage.Checking?
    requires ArrivalBound(s.buffer.arrivals, c.delay, c.size / 2)
    requires |s.buffer.ring.queue| > c.size / 2
    ensures s.buffer.ring.queue[0].deadline <= s.buffer.stage.now
  {
    QueueStamp(c, s, 0);
    var half := c.size / 2;
    var first, last := |s.buffer.arrivals| - |s.buffer.ring.queue|, |s.buffer.arrivals| - 1;
    assert s.buffer.arrivals[last] - s.buffer.arrivals[first] < c.delay ==> last - first + 1 <= half;
  }

  lemma DelayStep(c: Config, s: State, step: Step)
    requires c.Valid() && ControlInv(c, s) && OrderInv(c, s) && TimeInv(s) && Enabled(s, step)
    requires ArrivalBound(s.buffer.arrivals, c.delay, c.size / 2) && DelayInv(s)
    ensures DelayInv(Apply(c, s, step))
  {
    match step
    case Outside(_) => DelayElsewhere(c, s, step);
    case Read(_) => DelayElsewhere(c, s, step);
    case Select(_) => DelayElsewhere(c, s, step);
    case Send(d) => DelaySend(c, s, d);
    case Write(w) => DelayWrite(s, w);
  }

  lemma DelayElsewhere(c: Config, s: State, step: Step)
    requires DelayInv(s) && Enabled(s, step) && !step.Send? && !step.Write?
    ensures DelayInv(Apply(c, s, step))
  {
    var t := Apply(c, s, step);
    assert t.output == s.output && t.clock >= s.clock && (t.buffer.stage.Handing? ==> t.buffer.stage == s.buffer.stage);
  }

  lemma DelayWrite(s: State, w: WriterStep)
    requires DelayInv(s) && Enabled(s, Write(w))
    ensures DelayInv(ApplyWrite(s, w))
  {}

  lemma DelaySend(c: Config, s: State, d: SendStep)
    requires ControlInv(c, s) && OrderInv(c, s) && TimeInv(s) && CanSend(s, d)
    requires ArrivalBound(s.buffer.arrivals, c.delay, c.size / 2) && DelayInv(s)
    ensures DelayInv(ApplySend(c, s, d))
  {
    if d.Check? && |s.buffer.ring.queue| > c.size / 2 { OverHalfIsDue(c, s); }
  }

  lemma ArrivalsGrow(c: Config, s: State, step: Step)
    requires Enabled(s, step)
    ensures s.buffer.arrivals <= Apply(c, s, step).buffer.arrivals
  {}

  lemma BoundOfPrefix(a: seq<int>, b: seq<int>, delay: int, n: int)
    requires a <= b && ArrivalBound(b, delay, n)
    ensures ArrivalBound(a, delay, n)
  {
    assert forall i :: 0 <= i < |a| ==> a[i] == b[i];
  }

  // Ownership of the slots

  function Slots(pkts: seq<Packet>): multiset<nat>
  {
    if |pkts| == 0 then multiset{}
    else Slots(pkts[1..]) + (if pkts[0].slot.Some? then multiset{pkts[0].slot.value} else multiset{})
  }

  lemma {:induction false} SlotsConcat(a: seq<Packet>, b: seq<Packet>)
    ensures Slots(a + b) == Slots(a) + Slots(b)
  {
    if |a| == 0 {
      assert a + b == b;
    } else {
      SlotsConcat(a[1..], b);
      assert (a + b)[1..] == a[1..] + b;
    }
  }

  function InReader(r: Reader): seq<Packet> { if r.Offering? then [r.pkt] else [] }

  /** Who holds a slot, goroutine by goroutine and channel by channel. */
  function Outstanding(s: State): multiset<nat>
  {
    HeldByInput(s.input) + HeldByBuffer(s.buffer) + HeldByOutput(s.output)
  }

  function HeldByInput(i: Input): multiset<nat> { Slots(InReader(i.reader)) + Slots(i.pktCh) }

  function HeldByBuffer(b: Buffer): multiset<nat> { Slots(Packets(b.ring.queue)) + Slots(Packets(InHand(b.stage))) }

  function HeldByOutput(o: Output): multiset<nat> { Slots(Packets(InWriter(o.writer))) }

  function AllSlots(n: nat): multiset<nat> { multiset(seq(n, i => i)) }

  /** Each slot is in the pool or has exactly one holder. */
  ghost predicate SlotInv(c: Config, s: State)
  {
    && multiset(s.memory.pool.free) + Outstanding(s) == AllSlots(c.size)
    && s.memory.pool.n == c.size && !s.memory.panicked && !s.memory.blocked
  }

  lemma {:induction false} AllSlotsOnce(n: nat)
    ensures forall i :: AllSlots(n)[i] == if 0 <= i < n then 1 else 0
    ensures |AllSlots(n)| == n
  {
    if n > 0 {
      AllSlotsOnce(n - 1);
      assert seq(n, i => i) == seq(n - 1, i => i) + [n - 1];
    }
  }

  /** Giving back a slot that somebody holds neither panics nor blocks. */
  lemma GiveHeld(n: nat, m: Memory, pkt: Packet, rest: multiset<nat>)
    requires multiset(m.pool.free) + (Slots([pkt]) + rest) == AllSlots(n) && m.pool.n == n
    ensures var t := Release(m, pkt);
      && multiset(t.pool.free) + rest == AllSlots(n)
      && t == m.(pool := t.pool) && t.pool.n == n
  {
    AllSlotsOnce(n);
    if pkt.slot.Some? {
      var x := pkt.slot.value;
      assert Slots([pkt]) == multiset{x};
      assert AllSlots(n)[x] == multiset(m.pool.free)[x] + (multiset{x} + rest)[x];
      assert x !in multiset(m.pool.free);
      assert |multiset(m.pool.free)| + (1 + |rest|) == n;
    }
  }

  lemma SlotStep(c: Config, s: State, step: Step)
    requires c.Valid() && ControlInv(c, s) && SlotInv(c, s) && Enabled(s, step)
    ensures SlotInv(c, Apply(c, s, step))
  {
    match step
    case Outside(o) => SlotOutside(c, s, o);
    case Read(r) => SlotRead(c, s, r);
    case Select(e) => SlotSelect(c, s, e);
    case Send(d) => SlotSend(c, s, d);
    case Write(w) => SlotWrite(c, s, w);
  }

  lemma SlotOutside(c: Config, s: State, o: OutsideStep)
    requires SlotInv(c, s)
    ensures SlotInv(c, ApplyOutside(s, o))
  {
    assert Outstanding(ApplyOutside(s, o)) == Outstanding(s);
  }

  lemma SlotRead(c: Config, s: State, r: ReaderStep)
    requires SlotInv(c, s) && CanRead(s, r)
    ensures SlotInv(c, ApplyRead(c, s, r))
  {
    match r
    case Capture(id, len) => SlotCapture(c, s, id, len);
    case OfferPacket => SlotOffer(c, s);
    case AbortOffer => SlotAbortOffer(c, s);
    case StopReading => assert Outstanding(ApplyRead(c, s, r)) == Outstanding(s);
  }

  lemma SlotOffer(c: Config, s: State)
    requires SlotInv(c, s) && CanRead(s, OfferPacket)
    ensures SlotInv(c, ApplyRead(c, s, OfferPacket))
  {
    var t := ApplyRead(c, s, OfferPacket);
    SlotsConcat(s.input.pktCh, [s.input.reader.pkt]);
    assert HeldByInput(t.input) == HeldByInput(s.input);
    assert Outstanding(t) == Outstanding(s);
  }

  lemma SlotAbortOffer(c: Config, s: State)
    requires SlotInv(c, s) && CanRead(s, AbortOffer)
    ensures SlotInv(c, ApplyRead(c, s, AbortOffer))
  {
    var t, p := ApplyRead(c, s, AbortOffer), s.input.reader.pkt;
    assert HeldByInput(s.input) == Slots([p]) + HeldByInput(t.input);
    GiveHeld(c.size, s.memory, p, Outstanding(t));
  }

  lemma SlotCapture(c: Config, s: State, id: int, len: nat)
    requires SlotInv(c, s) && CanRead(s, Capture(id, len))
    ensures SlotInv(c, ApplyRead(c, s, Capture(id, len)))
  {
    var t := ApplyRead(c, s, Capture(id, len));
    var free := s.memory.pool.free;
    if t.input.reader.pkt.slot.Some? {
      assert free == [free[0]] + free[1..];
      assert Slots([t.input.reader.pkt]) == multiset{free[0]};
    }
  }

  lemma SlotSelect(c: Config, s: State, e: SelectStep)
    requires c.Valid() && ControlInv(c, s) && SlotInv(c, s) && s.buffer.stage.Selecting? && CanSelect(s, e)
    ensures SlotInv(c, ApplySelect(c, s, e))
  {
    if e.Receive? { SlotReceive(c, s); }
  }

  lemma SlotReceive(c: Config, s: State)
    requires c.Valid() && ControlInv(c, s) && s.buffer.stage.Selecting? && CanSelect(s, Receive)
    ensures ApplySelect(c, s, Receive).memory == s.memory
    ensures Outstanding(ApplySelect(c, s, Receive)) == Outstanding(s)
  {
    var t := ApplySelect(c, s, Receive);
    InputGives(s.input);
    BufferTakes(s.buffer, t.buffer, Entry(s.input.pktCh[0], s.clock + c.delay));
    var x, i := Slots([s.input.pktCh[0]]), HeldByInput(t.input);
    assert (i + x) + HeldByBuffer(s.buffer) == i + (HeldByBuffer(s.buffer) + x);
  }

  lemma InputGives(i: Input)
    requires |i.pktCh| > 0
    ensures HeldByInput(i) == HeldByInput(i.(pktCh := i.pktCh[1..])) + Slots([i.pktCh[0]])
  {
    HeadSlot(i.pktCh);
  }

  lemma BufferTakes(b: Buffer, b': Buffer, e: Entry)
    requires b'.ring.queue == b.ring.queue + [e]
    requires !b.stage.Handing? && !b'.stage.Handing?
    ensures HeldByBuffer(b') == HeldByBuffer(b) + Slots([e.pkt])
  {
    TailSlot(b.ring.queue, e);
  }

  lemma HeadSlot(ps: seq<Packet>)
    requires |ps| > 0
    ensures Slots(ps) == Slots([ps[0]]) + Slots(ps[1..])
  {
    assert ps == [ps[0]] + ps[1..];
    SlotsConcat([ps[0]], ps[1..]);
  }

  lemma TailSlot(q: seq<Entry>, e: Entry)
    ensures Slots(Packets(q + [e])) == Slots(Packets(q)) + Slots([e.pkt])
  {
    assert Packets(q + [e]) == Packets(q) + [e.pkt];
    SlotsConcat(Packets(q), [e.pkt]);
  }

  lemma SlotSend(c: Config, s: State, d: SendStep)
    requires SlotInv(c, s) && CanSend(s, d)
    ensures SlotInv(c, ApplySend(c, s, d))
  {
    match d
    case Check => SlotCheck(c, s.buffer);
    case HandOff => SlotHandOff(c, s);
    case AbortHandOff => SlotAbort(c, s);
    case DrainOne => SlotDrain(c, s);
    case _ =>
  }

  lemma SlotCheck(c: Config, b: Buffer)
    requires b.stage.Checking?
    ensures HeldByBuffer(ApplyCheck(c, b)) == HeldByBuffer(b)
  {
    if |b.ring.queue| > 0 { HeadOut(b.ring.queue); }
  }

  lemma SlotHandOff(c: Config, s: State)
    requires CanSend(s, HandOff)
    ensures Outstanding(ApplySend(c, s, HandOff)) == Outstanding(s)
  {
    var t, x := ApplySend(c, s, HandOff), Slots(Packets([s.buffer.stage.entry]));
    assert HeldByBuffer(s.buffer) == HeldByBuffer(t.buffer) + x;
    assert HeldByOutput(s.output) == multiset{} && HeldByOutput(t.output) == x;
  }

  lemma SlotAbort(c: Config, s: State)
    requires SlotInv(c, s) && CanSend(s, AbortHandOff)
    ensures SlotInv(c, ApplySend(c, s, AbortHandOff))
  {
    var t, x := ApplySend(c, s, AbortHandOff), Slots(Packets([s.buffer.stage.entry]));
    assert HeldByBuffer(s.buffer) == x + HeldByBuffer(t.buffer);
    MoveOut(HeldByInput(s.input), x, HeldByBuffer(t.buffer), HeldByOutput(s.output));
    SlotEntry(c, s, t, s.buffer.stage.entry);
  }

  lemma MoveOut(i: multiset<nat>, x: multiset<nat>, b: multiset<nat>, o: multiset<nat>)
    ensures i + (x + b) + o == x + (i + b + o)
  {}

  lemma SlotDrain(c: Config, s: State)
    requires SlotInv(c, s) && CanSend(s, DrainOne)
    ensures SlotInv(c, ApplySend(c, s, DrainOne))
  {
    if |s.buffer.ring.queue| > 0 { SlotDrainHead(c, s); }
  }

  lemma SlotDrainHead(c: Config, s: State)
    requires SlotInv(c, s) && CanSend(s, DrainOne) && |s.buffer.ring.queue| > 0
    ensures SlotInv(c, ApplySend(c, s, DrainOne))
  {
    var t, e := ApplySend(c, s, DrainOne), s.buffer.ring.queue[0];
    HeadOut(s.buffer.ring.queue);
    assert HeldByBuffer(s.buffer) == Slots(Packets([e])) + HeldByBuffer(t.buffer);
    MoveOut(HeldByInput(s.input), Slots(Packets([e])), HeldByBuffer(t.buffer), HeldByOutput(s.output));
    SlotEntry(c, s, t, e);
  }

  lemma SlotWrite(c: Config, s: State, w: WriterStep)
    requires SlotInv(c, s) && Enabled(s, Write(w))
    ensures SlotInv(c, ApplyWrite(s, w))
  {
    if w.WritePacket? { SlotWritePacket(c, s, w.ok); }
  }

  lemma SlotWritePacket(c: Config, s: State, ok: bool)
    requires SlotInv(c, s) && s.output.writer.Writing?
    ensures SlotInv(c, ApplyWrite(s, WritePacket(ok)))
  {
    var t := ApplyWrite(s, WritePacket(ok));
    var rest, x := HeldByInput(s.input) + HeldByBuffer(s.buffer), Slots(Packets([s.output.writer.entry]));
    assert HeldByOutput(s.output) == x && Outstanding(s) == rest + x;
    assert HeldByOutput(t.output) == multiset{};
    assert Outstanding(t) == rest;
    SlotEntry(c, s, t, s.output.writer.entry);
  }

  /** A step that releases one entry, and takes it from whoever held it. */
  lemma SlotEntry(c: Config, s: State, t: State, e: Entry)
    requires SlotInv(c, s) && t.memory == Release(s.memory, e.pkt)
    requires Outstanding(s) == Slots(Packets([e])) + Outstanding(t)
    ensures SlotInv(c, t)
  {
    assert Packets([e]) == [e.pkt];
    GiveHeld(c.size, s.memory, e.pkt, Outstanding(t));
  }

  lemma HeadOut(q: seq<Entry>)
    requires |q| > 0
    ensures Slots(Packets(q)) == Slots(Packets([q[0]])) + Slots(Packets(q[1..]))
  {
    assert Packets(q) == Packets([q[0]]) + Packets(q[1..]);
    SlotsConcat(Packets([q[0]]), Packets(q[1..]));
  }
}
