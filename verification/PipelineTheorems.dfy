/** The properties of the delayed packet pipeline, over all of its runs. */
module PipelineTheorems {
  import opened Options
  import opened DelayQueue
  import opened Pipeline
  import opened PipelineProof
  import opened BufferSize

  ghost predicate Inv(c: Config, s: State)
  {
    ControlInv(c, s) && OrderInv(c, s) && TimeInv(s) && FileInv(c, s) && SlotInv(c, s)
  }

  lemma InitInv(c: Config)
    requires c.Valid()
    ensures Inv(c, Init(c)) && DelayInv(Init(c))
  {
    var s := Init(c);
    assert Line(s) == [] && Stamped(s.input.sent, s.buffer.arrivals, c.delay) == [];
    assert Outstanding(s) == multiset{};
  }

  lemma InvStep(c: Config, s: State, step: Step)
    requires c.Valid() && Inv(c, s) && Enabled(s, step)
    ensures Inv(c, Apply(c, s, step))
  {
    ControlStep(c, s, step);
    OrderStep(c, s, step);
    TimeStep(c, s, step);
    FileStep(c, s, step);
    SlotStep(c, s, step);
  }

  lemma {:induction false} RunInv(c: Config, run: seq<State>, steps: seq<Step>, i: nat)
    requires IsRun(c, run, steps) && i < |run|
    ensures Inv(c, run[i])
  {
    if i == 0 {
      InitInv(c);
    } else {
      RunInv(c, run, steps, i - 1);
      InvStep(c, run[i - 1], steps[i - 1]);
    }
  }

  lemma {:induction false} ArrivalsOfPrefix(c: Config, run: seq<State>, steps: seq<Step>, i: nat)
    requires IsRun(c, run, steps) && i < |run|
    ensures run[i].buffer.arrivals <= run[|run| - 1].buffer.arrivals
    decreases |run| - i
  {
    if i < |run| - 1 {
      ArrivalsGrow(c, run[i], steps[i]);
      ArrivalsOfPrefix(c, run, steps, i + 1);
    }
  }

  lemma {:induction false} RunDelayInv(c: Config, run: seq<State>, steps: seq<Step>, i: nat)
    requires IsRun(c, run, steps) && i < |run|
    requires ArrivalBound(run[|run| - 1].buffer.arrivals, c.delay, c.size / 2)
    ensures DelayInv(run[i])
  {
    if i == 0 {
      InitInv(c);
    } else {
      RunDelayInv(c, run, steps, i - 1);
      RunInv(c, run, steps, i - 1);
      ArrivalsOfPrefix(c, run, steps, i - 1);
      BoundOfPrefix(run[i - 1].buffer.arrivals, run[|run| - 1].buffer.arrivals, c.delay, c.size / 2);
      DelayStep(c, run[i - 1], steps[i - 1]);
    }
  }

  // Order and loss

  function PacketsWritten(s: State): seq<Packet> { Packets(Written(s.output.blocks)) }

  /** In every run the ring is at most half full whenever its goroutine waits, so no
      packet is ever dropped for want of room; and what is in the file is, in order,
      the beginning of what the reader sent. */
  lemma RunKeepsOrder(c: Config, run: seq<State>, steps: seq<Step>)
    requires IsRun(c, run, steps)
    ensures var s := run[|run| - 1];
      && (s.buffer.stage.Selecting? ==> |s.buffer.ring.queue| <= c.size / 2)
      && s.buffer.evicted == [] && s.buffer.ring.dropped == 0
      && PacketsWritten(s) <= s.input.sent
  {
    var s := run[|run| - 1];
    RunInv(c, run, steps, |run| - 1);
    var n := |Written(s.output.blocks)|;
    assert Line(s)[..n] == Written(s.output.blocks);
  }

  /** When the ring goroutine has returned without a shutdown or a failed write, and the
      writer has taken what it was handed, every packet sent is in the file. */
  lemma RunWritesAll(c: Config, run: seq<State>, steps: seq<Step>)
    requires IsRun(c, run, steps)
    requires var s := run[|run| - 1]; !s.shutdown && s.buffer.stage.RingDone? && s.output.writer.Waiting?
    ensures PacketsWritten(run[|run| - 1]) == run[|run| - 1].input.sent
    ensures run[|run| - 1].input.closed
  {
    var s := run[|run| - 1];
    RunInv(c, run, steps, |run| - 1);
    assert Line(s) == Written(s.output.blocks);
  }

  /** No packet is duplicated, reordered or lost track of: at any time the packets sent
      are those in the file, then the one whose write failed, the one in the writer, the
      one being handed over, the ones thrown away after a shutdown, the ones in the
      ring and the ones in the channel. */
  lemma RunAccountsForAll(c: Config, run: seq<State>, steps: seq<Step>)
    requires IsRun(c, run, steps)
    ensures var s := run[|run| - 1];
      s.input.sent == Packets(Line(s)) + s.input.pktCh
  {
    var s := run[|run| - 1];
    RunInv(c, run, steps, |run| - 1);
    assert Packets(Line(s)) == s.input.sent[..|s.buffer.arrivals|];
  }

  // Shutdown

  /** The ring goroutine sees the shutdown: in its select, or while it hands a packet over. */
  predicate Sees(step: Step) { step == Select(SeeShutdown) || step == Send(AbortHandOff) }

  predicate WriteFails(step: Step) { step == Write(WritePacket(false)) }

  /** The ring goroutine has packets, in the ring or in its hand. */
  predicate Holds(b: Buffer) { InHand(b.stage) != [] || b.ring.queue != [] }

  ghost predicate NoWriteFails(steps: seq<Step>, n: nat)
    requires n <= |steps|
  {
    forall j :: 0 <= j < n ==> !WriteFails(steps[j])
  }

  ghost predicate SeesNothingHeld(run: seq<State>, steps: seq<Step>, n: nat)
    requires n <= |steps| <= |run|
  {
    forall j :: 0 <= j < n && Sees(steps[j]) ==> !Holds(run[j].buffer)
  }

  lemma UnwrittenStep(c: Config, s: State, step: Step)
    requires Enabled(s, step)
    ensures Apply(c, s, step).output.unwritten != [] <==> s.output.unwritten != [] || WriteFails(step)
  {}

  lemma {:induction false} UnwrittenExact(c: Config, run: seq<State>, steps: seq<Step>, n: nat)
    requires IsRun(c, run, steps) && n < |run|
    ensures run[n].output.unwritten == [] <==> NoWriteFails(steps, n)
  {
    if n > 0 {
      UnwrittenExact(c, run, steps, n - 1);
      UnwrittenStep(c, run[n - 1], steps[n - 1]);
      assert NoWriteFails(steps, n) <==> NoWriteFails(steps, n - 1) && !WriteFails(steps[n - 1]);
    }
  }

  /** Nothing was thrown away, and nothing is about to be. */
  predicate Spared(b: Buffer) { b.discarded == [] && (b.stage.Draining? ==> b.ring.queue == []) }

  lemma SparedStep(c: Config, s: State, step: Step)
    requires ControlInv(c, s) && Enabled(s, step)
    ensures Spared(Apply(c, s, step).buffer) <==> Spared(s.buffer) && !(Sees(step) && Holds(s.buffer))
  {}

  lemma {:induction false} SparedExact(c: Config, run: seq<State>, steps: seq<Step>, n: nat)
    requires IsRun(c, run, steps) && n < |run|
    ensures Spared(run[n].buffer) <==> SeesNothingHeld(run, steps, n)
  {
    if n > 0 {
      SparedExact(c, run, steps, n - 1);
      RunInv(c, run, steps, n - 1);
      SparedStep(c, run[n - 1], steps[n - 1]);
      assert SeesNothingHeld(run, steps, n)
        <==> SeesNothingHeld(run, steps, n - 1) && !(Sees(steps[n - 1]) && Holds(run[n - 1].buffer));
    }
  }

  /** Once the ring goroutine has returned and the writer holds nothing, every packet that
      reached the ring is in the file exactly if the ring goroutine had no packet when it
      saw the shutdown, if it saw one, and no write failed. The comment on PcapNG
      promises that the packets it has are always written. */
  lemma CancellationExact(c: Config, run: seq<State>, steps: seq<Step>)
    requires IsRun(c, run, steps)
    requires run[|run| - 1].buffer.stage.RingDone? && !run[|run| - 1].output.writer.Writing?
    ensures var s := run[|run| - 1];
      && |s.buffer.arrivals| <= |s.input.sent|
      && (PacketsWritten(s) == s.input.sent[..|s.buffer.arrivals|]
          <==> SeesNothingHeld(run, steps, |steps|) && NoWriteFails(steps, |steps|))
  {
    var s := run[|run| - 1];
    RunInv(c, run, steps, |run| - 1);
    UnwrittenExact(c, run, steps, |steps|);
    SparedExact(c, run, steps, |steps|);
    var w, rest := Written(s.output.blocks), s.output.unwritten + s.buffer.discarded;
    assert Line(s) == w + rest;
    assert Packets(w + rest) == Packets(w) + Packets(rest);
    assert Packets(Line(s)) == s.input.sent[..|s.buffer.arrivals|];
    assert PacketsWritten(s) == s.input.sent[..|s.buffer.arrivals|] ==> |Packets(rest)| == 0;
  }

  lemma RunGrows(c: Config, run: seq<State>, steps: seq<Step>, step: Step) returns (run': seq<State>, steps': seq<Step>)
    requires IsRun(c, run, steps) && Enabled(run[|run| - 1], step)
    ensures IsRun(c, run', steps') && run'[|run'| - 1] == Apply(c, run[|run| - 1], step)
  {
    run', steps' := run + [Apply(c, run[|run| - 1], step)], steps + [step];
  }

  /** One packet, on the heap, waits in the ring for its deadline. */
  lemma OneBuffered(c: Config) returns (run: seq<State>, steps: seq<Step>)
    requires c.Valid() && c.size >= 2
    ensures IsRun(c, run, steps)
    ensures var s := run[|run| - 1];
      && s.buffer.stage.Selecting? && s.buffer.ring.queue == [Entry(Packet(1, None), c.delay)]
      && s.buffer.discarded == [] && s.input.sent == [Packet(1, None)] && |s.buffer.arrivals| == 1
      && s.output == Init(c).output && s.input.reader.Reading? && s.input.pktCh == []
      && s.clock == 0 && !s.shutdown && !s.handleClosed
      && s.buffer.ring.timer == Some(c.delay)
  {
    run, steps := [Init(c)], [];
    run, steps := RunGrows(c, run, steps, Read(Capture(1, c.packetSize + 1)));
    run, steps := RunGrows(c, run, steps, Read(OfferPacket));
    run, steps := RunGrows(c, run, steps, Select(Receive));
    run, steps := RunGrows(c, run, steps, Send(TakeTime));
    run, steps := RunGrows(c, run, steps, Send(Check));
    run, steps := RunGrows(c, run, steps, Send(ArmTimer));
  }

  /** And packets are lost in this way: one that waits for its deadline when the program
      is told to stop is thrown away, and the file ends without it. */
  lemma CancellationDiscards(c: Config) returns (run: seq<State>, steps: seq<Step>)
    requires c.Valid() && c.size >= 2
    ensures IsRun(c, run, steps)
    ensures var s := run[|run| - 1];
      && s.buffer.stage.RingDone? && s.output.writer.WriterDone?
      && s.input.sent == [Packet(1, None)] && |s.buffer.arrivals| == 1
      && Packets(s.buffer.discarded) == [Packet(1, None)] && s.output.blocks == []
  {
    run, steps := OneBuffered(c);
    run, steps := RunGrows(c, run, steps, Outside(Stop));
    run, steps := RunGrows(c, run, steps, Select(SeeShutdown));
    run, steps := RunGrows(c, run, steps, Send(DrainOne));
    run, steps := RunGrows(c, run, steps, Send(DrainOne));
    run, steps := RunGrows(c, run, steps, Write(StopWriting));
  }

  // The delay guarantee

  /** The k-th packet of the file is due one delay after it reached the ring, and a
      packet is in the file ahead of its time only because the input had closed, if no
      window as long as the delay has more arrivals than half the ring. */
  lemma DelayGuarantee(c: Config, run: seq<State>, steps: seq<Step>)
    requires IsRun(c, run, steps)
    requires ArrivalBound(run[|run| - 1].buffer.arrivals, c.delay, c.size / 2)
    ensures var s := run[|run| - 1];
      && |Written(s.output.blocks)| <= |s.buffer.arrivals|
      && (forall k :: 0 <= k < |Written(s.output.blocks)| ==>
            Written(s.output.blocks)[k].deadline == s.buffer.arrivals[k] + c.delay)
      && OnTime(s.output.blocks)
      && (!s.input.closed ==> NoneFlushed(s.output.blocks))
  {
    var s := run[|run| - 1];
    RunInv(c, run, steps, |run| - 1);
    RunDelayInv(c, run, steps, |run| - 1);
    forall k | 0 <= k < |Written(s.output.blocks)|
      ensures Written(s.output.blocks)[k].deadline == s.buffer.arrivals[k] + c.delay
    {
      assert Line(s)[k] == Written(s.output.blocks)[k];
    }
  }

  /** What the file format needs: a secret that the writer handled before a packet was
      due comes before that packet. */
  lemma SecretsComeFirst(c: Config, run: seq<State>, steps: seq<Step>, i: nat, j: nat)
    requires IsRun(c, run, steps)
    requires ArrivalBound(run[|run| - 1].buffer.arrivals, c.delay, c.size / 2)
    requires var o := run[|run| - 1].output.blocks;
      && i < |o| && o[i].PacketBlock? && !o[i].flushed
      && j < |o| && o[j].SecretBlock? && o[j].at < o[i].entry.deadline
    ensures j < i
  {
    DelayGuarantee(c, run, steps);
    RunInv(c, run, steps, |run| - 1);
  }

  /** A buffer sized by the formula gives the guarantee to traffic within the limits it
      was sized for. */
  lemma SizedForTraffic(c: Config, run: seq<State>, steps: seq<Step>, bitsPerSecond: int, packetsPerSecond: int)
    requires IsRun(c, run, steps)
    requires Arguments(c.delay, c.packetSize, bitsPerSecond, packetsPerSecond)
    requires DominantTermFits(c.delay, c.packetSize, bitsPerSecond, packetsPerSecond)
    requires Compute(c.delay, c.packetSize, bitsPerSecond, packetsPerSecond) == Some(c.size)
    requires WithinLimits(run[|run| - 1].buffer.arrivals, c.delay, c.packetSize, bitsPerSecond, packetsPerSecond)
    ensures OnTime(run[|run| - 1].output.blocks)
  {
    LimitsMeetArrivalBound(run[|run| - 1].buffer.arrivals, c.delay, c.packetSize, bitsPerSecond, packetsPerSecond);
    DelayGuarantee(c, run, steps);
  }

  // Slots

  /** In every run each slot of the slab is either in the pool or held by exactly one
      of the reader, the two channels, the ring and the writer; giving a slot back has
      never found it free, and has never found the pool full. */
  lemma SlotsHaveOneOwner(c: Config, run: seq<State>, steps: seq<Step>, slot: nat)
    requires IsRun(c, run, steps) && slot < c.size
    ensures var s := run[|run| - 1];
      && multiset(s.memory.pool.free)[slot] + Outstanding(s)[slot] == 1
      && |s.memory.pool.free| + |Outstanding(s)| == c.size
      && !s.memory.panicked && !s.memory.blocked
  {
    var s := run[|run| - 1];
    RunInv(c, run, steps, |run| - 1);
    AllSlotsOnce(c.size);
    assert (multiset(s.memory.pool.free) + Outstanding(s))[slot] == 1;
    assert |multiset(s.memory.pool.free) + Outstanding(s)| == c.size;
  }

  /** A captured packet is kept outside the slab exactly if it is longer than a slot or all
      slots are in use; otherwise it gets one that nobody holds. */
  lemma HeapOnlyWhenFull(c: Config, run: seq<State>, steps: seq<Step>, id: int, len: nat)
    requires IsRun(c, run, steps) && Enabled(run[|run| - 1], Read(Capture(id, len)))
    ensures var s := run[|run| - 1];
      var r := Apply(c, s, Read(Capture(id, len))).input.reader;
      && r.Offering? && r.pkt.id == id
      && (r.pkt.slot.None? <==> len > c.packetSize || |Outstanding(s)| == c.size)
      && (r.pkt.slot.Some? ==> r.pkt.slot.value < c.size && Outstanding(s)[r.pkt.slot.value] == 0)
  {
    var s := run[|run| - 1];
    RunInv(c, run, steps, |run| - 1);
    AllSlotsOnce(c.size);
    assert |multiset(s.memory.pool.free) + Outstanding(s)| == c.size;
    if |s.memory.pool.free| > 0 {
      var slot := s.memory.pool.free[0];
      assert (multiset(s.memory.pool.free) + Outstanding(s))[slot] == AllSlots(c.size)[slot] <= 1;
      assert slot in multiset(s.memory.pool.free);
    }
  }

  // The reader and its channel

  predicate InputOk(i: Input) { |i.pktCh| <= 8 && (i.closed <==> i.reader.ReaderDone?) }

  lemma InputStep(c: Config, s: State, step: Step)
    requires InputOk(s.input) && Enabled(s, step)
    ensures InputOk(Apply(c, s, step).input)
    ensures s.handleClosed || step == Outside(CloseHandle) <==> Apply(c, s, step).handleClosed
  {}

  /** The channel of packets is bounded, it is closed exactly when the reader has returned, and
      the capture handle is closed exactly if something closed it. */
  lemma {:induction false} ReaderCloses(c: Config, run: seq<State>, steps: seq<Step>, i: nat)
    requires IsRun(c, run, steps) && i < |run|
    ensures InputOk(run[i].input)
    ensures run[i].handleClosed <==> exists j :: 0 <= j < i && steps[j] == Outside(CloseHandle)
  {
    if i > 0 {
      ReaderCloses(c, run, steps, i - 1);
      InputStep(c, run[i - 1], steps[i - 1]);
    }
  }

  /** Nothing is captured after that. */
  lemma NoCaptureAfterClose(c: Config, run: seq<State>, steps: seq<Step>, i: nat, j: nat)
    requires IsRun(c, run, steps) && i < j < |steps| && steps[i] == Outside(CloseHandle)
    ensures !(steps[j].Read? && steps[j].read.Capture?)
  {
    ReaderCloses(c, run, steps, j);
    assert Enabled(run[j], steps[j]);
  }

  /** A packet that waits for its deadline is flushed to the file when the input closes, and
      nothing is shut down. */
  lemma ClosingFlushes(c: Config) returns (run: seq<State>, steps: seq<Step>)
    requires c.Valid() && c.size >= 2
    ensures IsRun(c, run, steps)
    ensures var s := run[|run| - 1];
      && s.buffer.stage.RingDone? && s.output.writer.Waiting? && !s.shutdown && !s.handleClosed
      && s.output.blocks == [PacketBlock(Entry(Packet(1, None), c.delay), true, 0)] && s.output.synced == 1
  {
    run, steps := OneBuffered(c);
    run, steps := RunGrows(c, run, steps, Read(StopReading));
    run, steps := RunGrows(c, run, steps, Select(SeeClosed));
    run, steps := RunGrows(c, run, steps, Send(TakeTime));
    run, steps := HandedOver(c, run, steps);
  }

  /** And one whose deadline has come is written then. */
  lemma DelayWrites(c: Config) returns (run: seq<State>, steps: seq<Step>)
    requires c.Valid() && c.size >= 2
    ensures IsRun(c, run, steps)
    ensures var s := run[|run| - 1];
      && s.buffer.stage.Arming? && s.output.writer.Waiting? && !s.shutdown && !s.handleClosed
      && s.output.blocks == [PacketBlock(Entry(Packet(1, None), c.delay), false, c.delay)] && s.output.synced == 1
  {
    run, steps := OneBuffered(c);
    run, steps := RunGrows(c, run, steps, Outside(Tick(c.delay)));
    run, steps := RunGrows(c, run, steps, Select(TimerFires));
    run, steps := RunGrows(c, run, steps, Send(TakeTime));
    run, steps := HandedOver(c, run, steps);
  }

  /** The rest of a batch of one packet. */
  lemma HandedOver(c: Config, run0: seq<State>, steps0: seq<Step>) returns (run: seq<State>, steps: seq<Step>)
    requires IsRun(c, run0, steps0)
    requires var s := run0[|run0| - 1];
      && s.buffer.stage.Checking? && |s.buffer.ring.queue| == 1 && s.output.writer.Waiting? && s.output.blocks == []
      && (s.buffer.stage.flushAll || s.buffer.stage.now >= s.buffer.ring.queue[0].deadline)
    ensures IsRun(c, run, steps)
    ensures var s, t := run0[|run0| - 1], run[|run| - 1];
      && t.buffer.stage == (if s.buffer.stage.flushAll then RingDone else Arming) && t.output.writer.Waiting?
      && t.shutdown == s.shutdown && t.handleClosed == s.handleClosed
      && t.output.blocks == [PacketBlock(s.buffer.ring.queue[0], s.buffer.stage.flushAll, s.clock)] && t.output.synced == 1
  {
    run, steps := RunGrows(c, run0, steps0, Send(Check));
    run, steps := RunGrows(c, run, steps, Send(HandOff));
    run, steps := RunGrows(c, run, steps, Write(WritePacket(true)));
    run, steps := RunGrows(c, run, steps, Send(Check));
  }

  // Wake-up and batches

  /** Whenever the ring goroutine waits with packets buffered, the first of them has the
      earliest deadline, and the timer fires at that deadline, or at once if the timer
      was set after it. */
  lemma TimerArmed(c: Config, run: seq<State>, steps: seq<Step>)
    requires IsRun(c, run, steps)
    requires run[|run| - 1].buffer.stage.Selecting? && |run[|run| - 1].buffer.ring.queue| > 0
    ensures var b := run[|run| - 1].buffer;
      && Ordered(b.ring.queue) && b.armedAt <= run[|run| - 1].clock
      && b.ring.timer == Some(if b.armedAt >= b.ring.queue[0].deadline then b.armedAt else b.ring.queue[0].deadline)
  {
    RunInv(c, run, steps, |run| - 1);
    QueueOrdered(c, run[|run| - 1]);
  }

  /** And when that time has come, firing hands the first packet to the writer: no packet
      stays in the ring. */
  lemma TimerSends(c: Config, run: seq<State>, steps: seq<Step>)
    requires IsRun(c, run, steps)
    requires var s := run[|run| - 1];
      && s.buffer.stage.Selecting? && |s.buffer.ring.queue| > 0
      && s.buffer.ring.timer.Some? && s.buffer.ring.timer.value <= s.clock
    ensures var s0 := run[|run| - 1];
      && Enabled(s0, Select(TimerFires))
      && var s1 := Apply(c, s0, Select(TimerFires));
      && Enabled(s1, Send(TakeTime))
      && var s2 := Apply(c, s1, Send(TakeTime));
      && Enabled(s2, Send(Check))
      && var s3 := Apply(c, s2, Send(Check));
      && s3.buffer.stage.Handing? && s3.buffer.stage.entry == s0.buffer.ring.queue[0]
  {
    RunInv(c, run, steps, |run| - 1);
  }

  /** Whenever both goroutines wait and nothing was shut down, every packet written has
      been flushed to the file: the last packet of each batch carries the mark. */
  lemma BatchesAreFlushed(c: Config, run: seq<State>, steps: seq<Step>)
    requires IsRun(c, run, steps)
    requires var s := run[|run| - 1];
      s.buffer.stage.Selecting? && s.output.writer.Waiting? && !s.shutdown
    ensures PacketsSynced(run[|run| - 1].output.blocks, run[|run| - 1].output.synced)
  {
    RunInv(c, run, steps, |run| - 1);
  }

  // The steps and the in-place method

  /** The buffer after k hand-offs of one call of sendDue. */
  function HandOffs(c: Config, b: Buffer, k: nat): (r: Buffer)
    requires b.stage.Checking? && k <= BatchSize(b.ring.queue, b.stage.now, b.stage.flushAll, c.size)
    ensures r.stage == b.stage && r.ring.queue == b.ring.queue[k..]
    ensures r.ring.dropped == if k == 0 then b.ring.dropped else 0
    decreases k
  {
    if k == 0 then b
    else
      var before := HandOffs(c, b, k - 1);
      BatchIsShortest(b.ring.queue, b.stage.now, b.stage.flushAll, c.size, k - 1);
      ApplyCheck(c, before).(stage := b.stage)
  }

  /** Step by step, the ring goroutine hands over exactly the batch that the in-place
      SendDue is proved to send: the same packets with the same drop counts and marks,
      and then it leaves sendDue. */
  lemma StepsSendBatch(c: Config, b: Buffer, k: nat)
    requires b.stage.Checking?
    requires k <= BatchSize(b.ring.queue, b.stage.now, b.stage.flushAll, c.size)
    ensures var now, all := b.stage.now, b.stage.flushAll;
      var next := ApplyCheck(c, HandOffs(c, b, k));
      if k < BatchSize(b.ring.queue, now, all, c.size) then
        && next.stage.Handing?
        && Ready(next.stage.entry.pkt, next.stage.dropped, next.stage.last) == Batch(b.ring, now, all, c.size)[k]
      else next.stage == if all then RingDone else Arming
  {
    var now, all := b.stage.now, b.stage.flushAll;
    BatchIsShortest(b.ring.queue, now, all, c.size, k);
    if k < BatchSize(b.ring.queue, now, all, c.size) {
      DelayQueue.BatchStep(b.ring, now, all, c.size, k);
    }
  }
}
