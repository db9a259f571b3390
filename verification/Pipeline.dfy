/** PcapNG as interleaved atomic steps of its goroutines: the packet reader, the ring
    goroutine that delays packets, and the loop that writes packets and secrets. */
module Pipeline {
  import opened Options
  import opened DelayQueue
  import SlabPool

  const CHANNEL_CAPACITY := 8 // of pktCh

  /** size is the number of ring entries and of slab slots, delay is in nanoseconds. */
  datatype Config = Config(size: nat, delay: nat, packetSize: nat)
  {
    predicate Valid() { size >= 1 && delay >= 1 }
  }

  datatype Reader = Reading | Offering(pkt: Packet) | ReaderDone

  /** Where the ring goroutine is: in its select; about to take sendDue's timestamp; at
      the loop condition of sendDue; blocked on readyCh; about to set the timer;
      releasing everything after a shutdown; returned. */
  datatype Stage =
    | Selecting
    | Starting(flushAll: bool)
    | Checking(now: int, flushAll: bool)
    | Handing(now: int, flushAll: bool, entry: Entry, dropped: nat, last: bool)
    | Arming
    | Draining
    | RingDone

  datatype Writer = Waiting | Writing(entry: Entry, flushed: bool, last: bool) | WriterDone

  /** A block of the file with the time it was written; flushed marks a packet that
      left the ring because the input had closed. */
  datatype Block = PacketBlock(entry: Entry, flushed: bool, at: int) | SecretBlock(id: int, at: int)

  /** The reader and pktCh; sent is everything that was ever put on the channel. */
  datatype Input = Input(reader: Reader, pktCh: seq<Packet>, closed: bool, sent: seq<Packet>)

  /** The ring goroutine, with what it did so far: when each packet reached the ring,
      what it released unsent after a shutdown, what it dropped because the ring was
      full, and when it last set the timer. */
  datatype Buffer = Buffer(ring: Ring, stage: Stage, arrivals: seq<int>, discarded: seq<Entry>,
                           evicted: seq<Packet>, armedAt: int)

  /** The writer and the file; synced counts the blocks that ngw.Flush has pushed out,
      unwritten holds the packet whose write failed. */
  datatype Output = Output(writer: Writer, blocks: seq<Block>, synced: nat, unwritten: seq<Entry>)

  datatype Memory = Memory(pool: SlabPool.Pool, panicked: bool, blocked: bool)

  datatype State = State(clock: int, shutdown: bool, handleClosed: bool,
                         input: Input, buffer: Buffer, output: Output, memory: Memory)

  datatype Step =
    | Outside(outside: OutsideStep)
    | Read(read: ReaderStep)
    | Select(select: SelectStep)
    | Send(send: SendStep)
    | Write(write: WriterStep)

  datatype OutsideStep = Tick(d: nat) | Stop | CloseHandle
  datatype ReaderStep = Capture(id: int, len: nat) | OfferPacket | AbortOffer | StopReading
  datatype SelectStep = Receive | SeeClosed | TimerFires | SeeShutdown
  datatype SendStep = TakeTime | Check | HandOff | AbortHandOff | ArmTimer | DrainOne
  datatype WriterStep = WriteSecret(id: int) | WritePacket(ok: bool) | StopWriting

  function Init(c: Config): State
  {
    State(0, false, false,
          Input(Reading, [], false, []),
          Buffer(Ring([], 0, None), Selecting, [], [], [], 0),
          Output(Waiting, [], 0, []),
          Memory(SlabPool.Pool(c.size, seq(c.size, i => i)), false, false))
  }

  predicate Enabled(s: State, step: Step)
  {
    match step
    case Outside(o) => o.CloseHandle? ==> s.shutdown
    case Read(r) => CanRead(s, r)
    case Select(e) => s.buffer.stage.Selecting? && CanSelect(s, e)
    case Send(d) => CanSend(s, d)
    case Write(w) => if w.WritePacket? then s.output.writer.Writing? else s.output.writer.Waiting?
  }

  predicate CanRead(s: State, r: ReaderStep)
  {
    match r
    case Capture(_, _) => s.input.reader.Reading? && !s.handleClosed
    case OfferPacket => s.input.reader.Offering? && |s.input.pktCh| < CHANNEL_CAPACITY
    case AbortOffer => s.input.reader.Offering? && s.shutdown
    case StopReading => s.input.reader.Reading?
  }

  predicate CanSelect(s: State, e: SelectStep)
  {
    match e
    case Receive => |s.input.pktCh| > 0
    case SeeClosed => |s.input.pktCh| == 0 && s.input.closed
    case TimerFires => s.buffer.ring.timer.Some? && s.buffer.ring.timer.value <= s.clock
    case SeeShutdown => s.shutdown
  }

  predicate CanSend(s: State, d: SendStep)
  {
    match d
    case TakeTime => s.buffer.stage.Starting?
    case Check => s.buffer.stage.Checking?
    case HandOff => s.buffer.stage.Handing? && s.output.writer.Waiting?
    case AbortHandOff => s.buffer.stage.Handing? && s.shutdown
    case ArmTimer => s.buffer.stage.Arming?
    case DrainOne => s.buffer.stage.Draining?
  }

  /** A goroutine gives the slot of a packet back. */
  function Release(m: Memory, pkt: Packet): Memory
  {
    var (r, p) := SlabPool.Give(m.pool, pkt.slot);
    Memory(p, m.panicked || r.Panicked?, m.blocked || r.Blocked?)
  }

  function Apply(c: Config, s: State, step: Step): State
    requires Enabled(s, step)
  {
    match step
    case Outside(o) => ApplyOutside(s, o)
    case Read(r) => ApplyRead(c, s, r)
    case Select(e) => ApplySelect(c, s, e)
    case Send(d) => ApplySend(c, s, d)
    case Write(w) => ApplyWrite(s, w)
  }

  function ApplyOutside(s: State, o: OutsideStep): State
  {
    match o
    case Tick(d) => s.(clock := s.clock + d)
    case Stop => s.(shutdown := true)
    case CloseHandle => s.(handleClosed := true)
  }

  function ApplyRead(c: Config, s: State, r: ReaderStep): State
    requires CanRead(s, r)
  {
    var i := s.input;
    match r
    case Capture(id, len) =>
      var (slot, p) := SlabPool.Take(s.memory.pool, len <= c.packetSize);
      s.(memory := s.memory.(pool := p), input := i.(reader := Offering(Packet(id, slot))))
    case OfferPacket =>
      s.(input := Input(Reading, i.pktCh + [i.reader.pkt], i.closed, i.sent + [i.reader.pkt]))
    case AbortOffer =>
      s.(memory := Release(s.memory, i.reader.pkt), input := i.(reader := ReaderDone, closed := true))
    case StopReading => s.(input := i.(reader := ReaderDone, closed := true))
  }

  function ApplySelect(c: Config, s: State, e: SelectStep): State
    requires CanSelect(s, e)
  {
    var b := s.buffer;
    match e
    case Receive =>
      var gone := Evicted(b.ring, c.size);
      s.(input := s.input.(pktCh := s.input.pktCh[1..]),
         memory := if |gone| > 0 then Release(s.memory, gone[0]) else s.memory,
         buffer := Buffer(Insert(b.ring, s.input.pktCh[0], s.clock + c.delay, c.size), Starting(false),
                          b.arrivals + [s.clock], b.discarded, b.evicted + gone, b.armedAt))
    case SeeClosed => s.(buffer := b.(stage := Starting(true)))
    case TimerFires => s.(buffer := b.(stage := Starting(false)))
    case SeeShutdown => s.(buffer := b.(stage := Draining))
  }

  function ApplySend(c: Config, s: State, d: SendStep): State
    requires CanSend(s, d)
  {
    var b := s.buffer;
    match d
    case TakeTime => s.(buffer := b.(stage := Checking(s.clock, b.stage.flushAll)))
    case Check => s.(buffer := ApplyCheck(c, b))
    case HandOff =>
      s.(output := s.output.(writer := Writing(b.stage.entry, b.stage.flushAll, b.stage.last)),
         buffer := b.(stage := Checking(b.stage.now, b.stage.flushAll)))
    case AbortHandOff =>
      s.(memory := Release(s.memory, b.stage.entry.pkt),
         buffer := b.(discarded := b.discarded + [b.stage.entry], stage := Draining))
    case ArmTimer => s.(buffer := b.(ring := Arm(b.ring, s.clock), armedAt := s.clock, stage := Selecting))
    case DrainOne =>
      if |b.ring.queue| == 0 then s.(buffer := b.(stage := RingDone))
      else
        s.(memory := Release(s.memory, b.ring.queue[0].pkt),
           buffer := b.(ring := b.ring.(queue := b.ring.queue[1..]), discarded := b.discarded + [b.ring.queue[0]]))
  }

  function ApplyCheck(c: Config, b: Buffer): Buffer
    requires b.stage.Checking?
  {
    var now, all := b.stage.now, b.stage.flushAll;
    if Due(b.ring.queue, now, all, c.size) then
      b.(ring := Pop(b.ring), stage := Handing(now, all, b.ring.queue[0], b.ring.dropped, !Due(b.ring.queue[1..], now, all, c.size)))
    else b.(stage := if all then RingDone else Arming)
  }

  function ApplyWrite(s: State, w: WriterStep): State
    requires w.WritePacket? ==> s.output.writer.Writing?
  {
    var o := s.output;
    match w
    case WriteSecret(id) => s.(output := o.(blocks := o.blocks + [SecretBlock(id, s.clock)]))
    case WritePacket(ok) =>
      var m := Release(s.memory, o.writer.entry.pkt);
      if !ok then
        s.(memory := m, shutdown := true,
           output := o.(writer := WriterDone, unwritten := o.unwritten + [o.writer.entry]))
      else
        s.(memory := m,
           output := Output(Waiting, o.blocks + [PacketBlock(o.writer.entry, o.writer.flushed, s.clock)],
                            if o.writer.last then |o.blocks| + 1 else o.synced, o.unwritten))
    case StopWriting => s.(shutdown := true, output := o.(writer := WriterDone))
  }

  /** A run: the states it goes through and the step between each two. */
  ghost predicate IsRun(c: Config, run: seq<State>, steps: seq<Step>)
  {
    && c.Valid() && |run| == |steps| + 1 && run[0] == Init(c)
    && forall i :: 0 <= i < |steps| ==> Enabled(run[i], steps[i]) && run[i + 1] == Apply(c, run[i], steps[i])
  }
}
