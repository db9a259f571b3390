/** How decoded events get from the handler's loop over the rings to the consumer of the
    Events iterator: a bounded channel that drops what does not fit, an atomic counter of
    drops, and read, which takes from both. */
module EventHandoff {
  import opened Options

  type Event = nat

  /** The handler: reading the rings; at the select that sends an event; between finding
      the channel full and adding to the counter; returned. */
  datatype Handler = Idle | Sending(event: Event) | Counting | Stopped

  /** The iterator: not called; in read's select, at the one that drains, about to run the
      deferred function, between its load and its subtraction; at the tests on what read
      has returned; in the loop body. */
  datatype Reader =
    | Away
    | Waiting
    | Draining
    | Returning(event: Option<Event>, ok: bool)
    | Loaded(event: Option<Event>, ok: bool, named: int)
    | Testing(ret: Return)
    | Body

  datatype Return = Return(event: Option<Event>, dropped: int, ok: bool)

  /** An event that was decoded, and whether it got into the channel. */
  datatype Fate = Fate(event: Event, kept: bool)

  /** What the goroutines share; ended is that fatalCh or done is closed. */
  datatype Shared = Shared(queue: seq<Event>, counter: int, ended: bool)

  /** The handler with what it has done: all fates, the LOST records, and the additions to
      the counter. */
  datatype Producer = Producer(handler: Handler, fates: seq<Fate>, lost: nat, added: nat)

  /** The iterator with its context, with what read has returned, and for each return
      whether the iterator has yielded it. */
  datatype Consumer = Consumer(reader: Reader, canceled: bool, returned: seq<Return>, verdicts: seq<bool>)

  datatype State = State(shared: Shared, producer: Producer, consumer: Consumer)

  datatype Step = Handle(handle: HandlerStep) | Read(read: ReadStep) | End | Cancel

  datatype HandlerStep = LoseRecord | Decode(event: Event) | Send | CountDrop | StopHandler

  datatype ReadStep = Call | Interrupt | Receive | SeeEnd | Drain | Load | Subtract | Test | Continue | Break

  function Init(): State { State(Shared([], 0, false), Producer(Idle, [], 0, 0), Consumer(Away, false, [], [])) }

  predicate Enabled(s: State, step: Step)
  {
    match step
    case Handle(h) => CanHandle(s.producer.handler, h)
    case Read(r) => CanRead(s.shared, s.consumer, r)
    case End => true
    case Cancel => true
  }

  predicate CanHandle(h: Handler, step: HandlerStep)
  {
    match step
    case LoseRecord => h.Idle?
    case Decode(_) => h.Idle?
    case Send => h.Sending?
    case CountDrop => h.Counting?
    case StopHandler => h.Idle?
  }

  predicate CanRead(x: Shared, c: Consumer, step: ReadStep)
  {
    match step
    case Call => c.reader.Away?
    case Interrupt => c.reader.Waiting? && c.canceled
    case Receive => c.reader.Waiting? && x.queue != []
    case SeeEnd => c.reader.Waiting? && x.ended
    case Drain => c.reader.Draining?
    case Load => c.reader.Returning?
    case Subtract => c.reader.Loaded?
    case Test => c.reader.Testing?
    case Continue => c.reader.Body?
    case Break => c.reader.Body?
  }

  function Next(cap: nat, s: State, step: Step): State
    requires Enabled(s, step)
  {
    match step
    case Handle(h) => s.(shared := HandlerShared(cap, s.shared, s.producer.handler, h), producer := HandlerNext(cap, s.shared, s.producer, h))
    case Read(r) => s.(shared := ReaderShared(s.shared, s.consumer.reader, r), consumer := ReaderNext(s.shared, s.consumer, r))
    case End => s.(shared := s.shared.(ended := true))
    case Cancel => s.(consumer := s.consumer.(canceled := true))
  }

  /** A LOST record adds one, whatever number it tells. */
  function HandlerShared(cap: nat, x: Shared, h: Handler, step: HandlerStep): Shared
    requires CanHandle(h, step)
  {
    match step
    case LoseRecord => x.(counter := x.counter + 1)
    case Send => if |x.queue| < cap then x.(queue := x.queue + [h.event]) else x
    case CountDrop => x.(counter := x.counter + 1)
    case _ => x
  }

  function HandlerNext(cap: nat, x: Shared, p: Producer, step: HandlerStep): Producer
    requires CanHandle(p.handler, step)
  {
    match step
    case LoseRecord => p.(lost := p.lost + 1, added := p.added + 1)
    case Decode(e) => p.(handler := Sending(e))
    case Send =>
      if |x.queue| < cap then p.(handler := Idle, fates := p.fates + [Fate(p.handler.event, true)])
      else p.(handler := Counting, fates := p.fates + [Fate(p.handler.event, false)])
    case CountDrop => p.(added := p.added + 1, handler := Idle)
    case StopHandler => p.(handler := Stopped)
  }

  function ReaderShared(x: Shared, r: Reader, step: ReadStep): Shared
    requires step.Receive? ==> x.queue != []
    requires step.Subtract? ==> r.Loaded?
  {
    if (step.Receive? || step.Drain?) && x.queue != [] then x.(queue := x.queue[1..])
    else if step.Subtract? then x.(counter := x.counter - r.named)
    else x
  }

  /** The test for drops after draining reads the result variable dropped, which only the
      deferred function sets: it is still zero. */
  function ReaderNext(x: Shared, c: Consumer, step: ReadStep): Consumer
    requires CanRead(x, c, step)
  {
    match step
    case Call => c.(reader := Waiting, canceled := false)
    case Interrupt => c.(reader := Returning(None, true))
    case Receive => c.(reader := Returning(Some(x.queue[0]), true))
    case SeeEnd => c.(reader := Draining)
    case Drain =>
      var dropped := 0;
      c.(reader := if x.queue != [] then Returning(Some(x.queue[0]), true)
                   else if dropped > 0 then Returning(None, true)
                   else Returning(None, false))
    case Load => c.(reader := Loaded(c.reader.event, c.reader.ok, x.counter))
    case Subtract =>
      var ret := Return(c.reader.event, c.reader.named, c.reader.ok);
      c.(reader := Testing(ret), returned := c.returned + [ret])
    case Test => c.(reader := if Yields(c) then Body else Away, verdicts := c.verdicts + [Yields(c)])
    case Continue => c.(reader := Waiting)
    case Break => c.(reader := Away)
  }

  /** The iterator hands on what read has returned. */
  predicate Yields(c: Consumer) { c.reader.Testing? && c.reader.ret.ok && !c.canceled }

  ghost predicate IsRun(cap: nat, run: seq<State>, steps: seq<Step>)
  {
    && |run| == |steps| + 1 && run[0] == Init()
    && forall i :: 0 <= i < |steps| ==> Enabled(run[i], steps[i]) && run[i + 1] == Next(cap, run[i], steps[i])
  }

  // What is conserved

  /** The events that got into the channel, in order. */
  function Kept(fates: seq<Fate>): seq<Event>
  {
    if |fates| == 0 then []
    else
      var f := fates[|fates| - 1];
      Kept(fates[..|fates| - 1]) + if f.kept then [f.event] else []
  }

  function Drops(fates: seq<Fate>): nat
  {
    if |fates| == 0 then 0 else Drops(fates[..|fates| - 1]) + if fates[|fates| - 1].kept then 0 else 1
  }

  function Events(returned: seq<Return>): seq<Event>
  {
    if |returned| == 0 then []
    else
      var r := returned[|returned| - 1];
      Events(returned[..|returned| - 1]) + OneEvent(r.event)
  }

  function OneEvent(e: Option<Event>): seq<Event> { if e.Some? then [e.value] else [] }

  function DroppedIn(returned: seq<Return>): int
  {
    if |returned| == 0 then 0 else DroppedIn(returned[..|returned| - 1]) + returned[|returned| - 1].dropped
  }

  /** An event that read has taken and not returned yet. */
  function InHand(r: Reader): seq<Event> { if r.Returning? || r.Loaded? then OneEvent(r.event) else [] }

  /** What the consumer's side has got so far. */
  function Got(x: Shared, c: Consumer): seq<Event> { Events(c.returned) + InHand(c.reader) + x.queue }

  predicate EventInv(s: State) { Kept(s.producer.fates) == Got(s.shared, s.consumer) }

  predicate AddedInv(p: Producer)
  {
    p.added + (if p.handler.Counting? then 1 else 0) == p.lost + Drops(p.fates)
  }

  predicate CountInv(added: nat, x: Shared, c: Consumer)
  {
    && x.counter + DroppedIn(c.returned) == added && x.counter >= 0
    && (c.reader.Loaded? ==> 0 <= c.reader.named <= x.counter)
  }

  lemma KeptMore(fates: seq<Fate>, f: Fate)
    ensures Kept(fates + [f]) == Kept(fates) + (if f.kept then [f.event] else [])
    ensures Drops(fates + [f]) == Drops(fates) + (if f.kept then 0 else 1)
  {
    assert (fates + [f])[..|fates|] == fates;
  }

  lemma ReturnedMore(returned: seq<Return>, r: Return)
    ensures Events(returned + [r]) == Events(returned) + OneEvent(r.event)
    ensures DroppedIn(returned + [r]) == DroppedIn(returned) + r.dropped
  {
    assert (returned + [r])[..|returned|] == returned;
  }

  /** What the handler puts into the channel goes to the end of the line. */
  lemma HandlerKeeps(cap: nat, x: Shared, p: Producer, c: Consumer, step: HandlerStep)
    requires Kept(p.fates) == Got(x, c) && CanHandle(p.handler, step)
    ensures Kept(HandlerNext(cap, x, p, step).fates) == Got(HandlerShared(cap, x, p.handler, step), c)
  {
    if step.Send? {
      KeptMore(p.fates, Fate(p.handler.event, |x.queue| < cap));
      var a, e := Events(c.returned) + InHand(c.reader), p.handler.event;
      assert a + (x.queue + [e]) == (a + x.queue) + [e];
      assert Got(x, c) + [] == Got(x, c);
    }
  }

  /** The reader moves an event along the line without changing it. */
  lemma ReaderKeeps(x: Shared, c: Consumer, step: ReadStep)
    requires CanRead(x, c, step)
    ensures Got(ReaderShared(x, c.reader, step), ReaderNext(x, c, step)) == Got(x, c)
  {
    if step.Receive? || step.Drain? {
      TakeKeeps(x, c, step);
    } else if step.Subtract? {
      ReturnKeeps(x, c);
    } else {
      assert InHand(ReaderNext(x, c, step).reader) == InHand(c.reader);
    }
  }

  lemma TakeKeeps(x: Shared, c: Consumer, step: ReadStep)
    requires CanRead(x, c, step) && (step.Receive? || step.Drain?)
    ensures Got(ReaderShared(x, c.reader, step), ReaderNext(x, c, step)) == Got(x, c)
  {
    if x.queue != [] { TakeFirst(Events(c.returned), x.queue); }
  }

  lemma ReturnKeeps(x: Shared, c: Consumer)
    requires CanRead(x, c, Subtract)
    ensures Got(ReaderShared(x, c.reader, Subtract), ReaderNext(x, c, Subtract)) == Got(x, c)
  {
    ReturnedMore(c.returned, Return(c.reader.event, c.reader.named, c.reader.ok));
    assert Events(ReaderNext(x, c, Subtract).returned) + [] == Events(c.returned) + InHand(c.reader);
  }

  lemma TakeFirst(a: seq<Event>, queue: seq<Event>)
    requires queue != []
    ensures a + [] + queue == a + [queue[0]] + queue[1..]
  {}

  lemma HandlerCounts(cap: nat, x: Shared, p: Producer, c: Consumer, step: HandlerStep)
    requires AddedInv(p) && CountInv(p.added, x, c) && CanHandle(p.handler, step)
    ensures var q := HandlerNext(cap, x, p, step);
      AddedInv(q) && CountInv(q.added, HandlerShared(cap, x, p.handler, step), c)
  {
    if step.Send? { KeptMore(p.fates, Fate(p.handler.event, |x.queue| < cap)); }
  }

  lemma ReaderCounts(added: nat, x: Shared, c: Consumer, step: ReadStep)
    requires CountInv(added, x, c) && CanRead(x, c, step)
    ensures CountInv(added, ReaderShared(x, c.reader, step), ReaderNext(x, c, step))
  {
    if step.Subtract? { ReturnedMore(c.returned, Return(c.reader.event, c.reader.named, c.reader.ok)); }
  }

  // What the iterator has tested

  predicate NonNegative(returned: seq<Return>) { forall k :: 0 <= k < |returned| ==> returned[k].dropped >= 0 }

  predicate TestInv(c: Consumer)
  {
    && |c.returned| == |c.verdicts| + (if c.reader.Testing? then 1 else 0)
    && (c.reader.Testing? ==> c.returned[|c.verdicts|] == c.reader.ret)
    && NonNegative(c.returned)
  }

  lemma ReaderTests(added: nat, x: Shared, c: Consumer, step: ReadStep)
    requires TestInv(c) && CountInv(added, x, c) && CanRead(x, c, step)
    ensures TestInv(ReaderNext(x, c, step))
  {}

  ghost predicate Inv(cap: nat, s: State)
  {
    && EventInv(s) && AddedInv(s.producer) && CountInv(s.producer.added, s.shared, s.consumer)
    && TestInv(s.consumer) && |s.shared.queue| <= cap
  }

  lemma InvStep(cap: nat, s: State, step: Step)
    requires Inv(cap, s) && Enabled(s, step)
    ensures Inv(cap, Next(cap, s, step))
  {
    match step
    case Handle(h) =>
      HandlerKeeps(cap, s.shared, s.producer, s.consumer, h);
      HandlerCounts(cap, s.shared, s.producer, s.consumer, h);
    case Read(r) =>
      ReaderKeeps(s.shared, s.consumer, r);
      ReaderCounts(s.producer.added, s.shared, s.consumer, r);
      ReaderTests(s.producer.added, s.shared, s.consumer, r);
    case _ =>
  }

  lemma {:induction false} RunInv(cap: nat, run: seq<State>, steps: seq<Step>, i: nat)
    requires IsRun(cap, run, steps) && i < |run|
    ensures Inv(cap, run[i])
  {
    if i > 0 {
      RunInv(cap, run, steps, i - 1);
      InvStep(cap, run[i - 1], steps[i - 1]);
    }
  }

  /** Every event that was decoded is returned by read, in order, or waits in the channel,
      or did not fit and is counted. */
  lemma EventsConserved(cap: nat, run: seq<State>, steps: seq<Step>, i: nat)
    requires IsRun(cap, run, steps) && i < |run|
    ensures var s := run[i];
      && Events(s.consumer.returned) + InHand(s.consumer.reader) + s.shared.queue == Kept(s.producer.fates)
      && |s.producer.fates| == |Kept(s.producer.fates)| + Drops(s.producer.fates)
  {
    RunInv(cap, run, steps, i);
    FatesSplit(run[i].producer.fates);
  }

  lemma {:induction false} FatesSplit(fates: seq<Fate>)
    ensures |fates| == |Kept(fates)| + Drops(fates)
  {
    if |fates| > 0 { FatesSplit(fates[..|fates| - 1]); }
  }

  /** The events that the handler has decoded, in order, and how often it saw a LOST record. */
  function Decoded(steps: seq<Step>, n: nat): seq<Event>
    requires n <= |steps|
  {
    if n == 0 then []
    else Decoded(steps, n - 1) + if steps[n - 1].Handle? && steps[n - 1].handle.Decode? then [steps[n - 1].handle.event] else []
  }

  function LostSeen(steps: seq<Step>, n: nat): nat
    requires n <= |steps|
  {
    if n == 0 then 0 else LostSeen(steps, n - 1) + if steps[n - 1] == Handle(LoseRecord) then 1 else 0
  }

  function EventsIn(fates: seq<Fate>): (es: seq<Event>)
    ensures |es| == |fates| && forall i :: 0 <= i < |fates| ==> es[i] == fates[i].event
  {
    seq(|fates|, i requires 0 <= i < |fates| => fates[i].event)
  }

  function BeingSent(h: Handler): seq<Event> { if h.Sending? then [h.event] else [] }

  lemma FateStep(cap: nat, s: State, step: Step)
    requires Enabled(s, step)
    ensures var p, q := s.producer, Next(cap, s, step).producer;
      && EventsIn(q.fates) + BeingSent(q.handler)
         == EventsIn(p.fates) + BeingSent(p.handler) + (if step.Handle? && step.handle.Decode? then [step.handle.event] else [])
      && q.lost == p.lost + if step == Handle(LoseRecord) then 1 else 0
  {}

  /** Each event that is decoded meets one fate, in order, as soon as it has been sent; and
      each LOST record is counted once. */
  lemma {:induction false} FatesExact(cap: nat, run: seq<State>, steps: seq<Step>, n: nat)
    requires IsRun(cap, run, steps) && n < |run|
    ensures EventsIn(run[n].producer.fates) + BeingSent(run[n].producer.handler) == Decoded(steps, n)
    ensures run[n].producer.lost == LostSeen(steps, n)
  {
    if n > 0 {
      FatesExact(cap, run, steps, n - 1);
      FateStep(cap, run[n - 1], steps[n - 1]);
    }
  }

  /** The context that the iteration was given is done. */
  ghost predicate CanceledSince(steps: seq<Step>, n: nat)
    requires n <= |steps|
  {
    exists j :: 0 <= j < n && steps[j] == Cancel && NoCall(steps, j + 1, n)
  }

  ghost predicate NoCall(steps: seq<Step>, from: nat, to: nat)
    requires to <= |steps|
  {
    forall k :: from <= k < to ==> steps[k] != Read(Call)
  }

  lemma CanceledNext(steps: seq<Step>, n: nat)
    requires n < |steps|
    ensures CanceledSince(steps, n + 1) <==> steps[n] == Cancel || (CanceledSince(steps, n) && steps[n] != Read(Call))
  {
    if CanceledSince(steps, n + 1) {
      var j :| 0 <= j < n + 1 && steps[j] == Cancel && NoCall(steps, j + 1, n + 1);
      if j < n { assert NoCall(steps, j + 1, n) && steps[n] != Read(Call); }
    }
    if CanceledSince(steps, n) && steps[n] != Read(Call) {
      var j :| 0 <= j < n && steps[j] == Cancel && NoCall(steps, j + 1, n);
      assert NoCall(steps, j + 1, n + 1);
    }
    if steps[n] == Cancel { assert NoCall(steps, n + 1, n + 1); }
  }

  lemma CancelStep(cap: nat, s: State, step: Step)
    requires Enabled(s, step)
    ensures Next(cap, s, step).consumer.canceled <==> step == Cancel || (s.consumer.canceled && step != Read(Call))
    ensures Next(cap, s, step).shared.ended <==> s.shared.ended || step == End
  {}

  /** The model's flags: the iteration's own context is done, and the probe has ended. */
  lemma {:induction false} FlagsExact(cap: nat, run: seq<State>, steps: seq<Step>, n: nat)
    requires IsRun(cap, run, steps) && n < |run|
    ensures run[n].consumer.canceled <==> CanceledSince(steps, n)
    ensures run[n].shared.ended <==> exists j :: 0 <= j < n && steps[j] == End
  {
    if n > 0 {
      FlagsExact(cap, run, steps, n - 1);
      CancelStep(cap, run[n - 1], steps[n - 1]);
      CanceledNext(steps, n - 1);
    }
  }

  /** All drops: one for each event that did not fit and one for each LOST record. */
  function AllDrops(p: Producer): nat { p.lost + Drops(p.fates) }

  /** The drops that read has returned and those still counted are all drops. Only one that
      the handler is just about to count is missing. The counter never becomes negative. */
  lemma DropsConserved(cap: nat, run: seq<State>, steps: seq<Step>, i: nat)
    requires IsRun(cap, run, steps) && i < |run|
    ensures var s := run[i];
      && DroppedIn(s.consumer.returned) + s.shared.counter + (if s.producer.handler.Counting? then 1 else 0) == AllDrops(s.producer)
      && s.shared.counter >= 0
  {
    RunInv(cap, run, steps, i);
  }

  /** read says that it is over exactly if it has found the channel empty after the end:
      the test for drops in between never succeeds. */
  lemma OverMeansEmpty(cap: nat, run: seq<State>, steps: seq<Step>, i: nat)
    requires IsRun(cap, run, steps) && i < |steps| && steps[i] == Read(Drain)
    ensures run[i + 1].consumer.reader == Returning(None, false) <==> run[i].shared.queue == []
    ensures run[i + 1].consumer.reader != Returning(None, true)
  {
    assert Enabled(run[i], steps[i]) && run[i + 1] == Next(cap, run[i], steps[i]);
  }

  /** If the handler had stopped by then, all events that got into the channel have been
      returned before. */
  lemma OverMeansAll(cap: nat, run: seq<State>, steps: seq<Step>, i: nat)
    requires IsRun(cap, run, steps) && i < |steps| && steps[i] == Read(Drain)
    requires run[i].producer.handler.Stopped? && run[i + 1].consumer.reader == Returning(None, false)
    ensures Events(run[i + 1].consumer.returned) == Kept(run[i + 1].producer.fates)
  {
    assert Enabled(run[i], steps[i]) && run[i + 1] == Next(cap, run[i], steps[i]);
    RunInv(cap, run, steps, i + 1);
  }

  // Where a return comes from

  /** The step at which read finds out what it will return. */
  predicate Decides(step: Step) { step.Read? && (step.read.Interrupt? || step.read.Receive? || step.read.Drain?) }

  /** d is the last step before n with which read has decided. */
  ghost predicate Decided(steps: seq<Step>, d: nat, n: nat)
  {
    d < n <= |steps| && Decides(steps[d]) && forall j :: d < j < n ==> !Decides(steps[j])
  }

  /** l is the last step before n that has loaded the counter. */
  ghost predicate LoadedAt(steps: seq<Step>, l: nat, n: nat)
  {
    l < n <= |steps| && steps[l] == Read(Load) && forall j :: l < j < n ==> steps[j] != Read(Load)
  }

  /** read has taken an event off the channel. */
  predicate Took(s: State, step: Step) { (step == Read(Receive) || step == Read(Drain)) && s.shared.queue != [] }

  /** read has found that it is over. */
  predicate FoundEnd(s: State, step: Step) { step == Read(Drain) && s.shared.queue == [] }

  /** read has decided, and the iterator has not tested what it returns. */
  predicate HasDecided(r: Reader) { r.Returning? || r.Loaded? || r.Testing? }

  function EventOf(r: Reader): Option<Event>
    requires HasDecided(r)
  {
    if r.Testing? then r.ret.event else r.event
  }

  predicate OkOf(r: Reader)
    requires HasDecided(r)
  {
    if r.Testing? then r.ret.ok else r.ok
  }

  function DropsOf(r: Reader): int
    requires r.Loaded? || r.Testing?
  {
    if r.Testing? then r.ret.dropped else r.named
  }

  /** What read returns after deciding in this way. */
  predicate FromDecision(s: State, step: Step, r: Reader)
    requires HasDecided(r)
  {
    EventOf(r) == (if Took(s, step) then Some(s.shared.queue[0]) else None) && OkOf(r) == !FoundEnd(s, step)
  }

  lemma DecisionStep(cap: nat, s: State, step: Step)
    requires Enabled(s, step) && Decides(step)
    ensures var t := Next(cap, s, step).consumer;
      HasDecided(t.reader) && FromDecision(s, step, t.reader) && (step.read.Interrupt? ==> t.canceled)
  {}

  lemma DecidedStep(cap: nat, s: State, step: Step)
    requires Enabled(s, step) && !Decides(step) && HasDecided(Next(cap, s, step).consumer.reader)
    ensures var c, t := s.consumer, Next(cap, s, step).consumer;
      && HasDecided(c.reader) && EventOf(t.reader) == EventOf(c.reader) && OkOf(t.reader) == OkOf(c.reader)
      && (c.canceled ==> t.canceled)
  {}

  lemma LoadStep(cap: nat, s: State, step: Step)
    requires Enabled(s, step)
    requires var r := Next(cap, s, step).consumer.reader; r.Loaded? || r.Testing?
    ensures var c, t := s.consumer, Next(cap, s, step).consumer;
      if step == Read(Load) then DropsOf(t.reader) == s.shared.counter
      else (c.reader.Loaded? || c.reader.Testing?) && DropsOf(t.reader) == DropsOf(c.reader)
  {}

  /** Where the event and ok of the read in progress come from. */
  lemma {:induction false} DecidedBefore(cap: nat, run: seq<State>, steps: seq<Step>, n: nat) returns (d: nat)
    requires IsRun(cap, run, steps) && n < |run|
    requires HasDecided(run[n].consumer.reader)
    ensures d < n && Decided(steps, d, n) && (steps[d].read.Interrupt? ==> run[n].consumer.canceled)
    ensures FromDecision(run[d], steps[d], run[n].consumer.reader)
  {
    assert Enabled(run[n - 1], steps[n - 1]) && run[n] == Next(cap, run[n - 1], steps[n - 1]);
    if Decides(steps[n - 1]) {
      d := n - 1;
      DecisionStep(cap, run[d], steps[d]);
    } else {
      DecidedStep(cap, run[n - 1], steps[n - 1]);
      d := DecidedBefore(cap, run, steps, n - 1);
    }
  }

  /** And its number of drops. */
  lemma {:induction false} LoadedBefore(cap: nat, run: seq<State>, steps: seq<Step>, n: nat) returns (l: nat)
    requires IsRun(cap, run, steps) && n < |run|
    requires run[n].consumer.reader.Loaded? || run[n].consumer.reader.Testing?
    ensures l < n && LoadedAt(steps, l, n) && run[l].shared.counter == DropsOf(run[n].consumer.reader)
  {
    assert Enabled(run[n - 1], steps[n - 1]) && run[n] == Next(cap, run[n - 1], steps[n - 1]);
    LoadStep(cap, run[n - 1], steps[n - 1]);
    if steps[n - 1] == Read(Load) {
      l := n - 1;
    } else {
      l := LoadedBefore(cap, run, steps, n - 1);
    }
  }

  lemma DecidedOnce(steps: seq<Step>, d: nat, e: nat, n: nat)
    requires Decided(steps, d, n) && Decided(steps, e, n)
    ensures d == e
  {}

  lemma LoadedOnce(steps: seq<Step>, l: nat, m: nat, n: nat)
    requires LoadedAt(steps, l, n) && LoadedAt(steps, m, n)
    ensures l == m
  {}

  /** A return is yielded exactly if the context is not done at the test that follows it,
      and read had not found the channel empty after the end. It carries the oldest event,
      if read took one, and the counter as it was loaded. */
  lemma YieldsExact(cap: nat, run: seq<State>, steps: seq<Step>, t: nat, d: nat, l: nat)
    requires IsRun(cap, run, steps) && t < |steps| && steps[t] == Read(Test)
    requires Decided(steps, d, t) && LoadedAt(steps, l, t)
    ensures run[t].consumer.reader.Testing?
    ensures Yields(run[t].consumer) <==> !run[t].consumer.canceled && !FoundEnd(run[d], steps[d])
    ensures run[t].consumer.reader.ret.event == if Took(run[d], steps[d]) then Some(run[d].shared.queue[0]) else None
    ensures run[t].consumer.reader.ret.dropped == run[l].shared.counter
    ensures steps[d] == Read(Interrupt) ==> !Yields(run[t].consumer)
  {
    assert Enabled(run[t], steps[t]);
    var e := DecidedBefore(cap, run, steps, t);
    var m := LoadedBefore(cap, run, steps, t);
    DecidedOnce(steps, d, e, t);
    LoadedOnce(steps, l, m, t);
  }

  // What is lost

  /** A test that does not yield an event that read has taken. */
  ghost predicate LosesEvent(run: seq<State>, steps: seq<Step>, d: nat, t: nat)
    requires |steps| <= |run|
  {
    && t < |steps| && steps[t] == Read(Test) && Decided(steps, d, t)
    && Took(run[d], steps[d]) && run[t].consumer.canceled
  }

  /** A test that does not yield drops that read has loaded. */
  ghost predicate LosesDrops(run: seq<State>, steps: seq<Step>, d: nat, l: nat, t: nat)
    requires |steps| <= |run|
  {
    && t < |steps| && steps[t] == Read(Test) && Decided(steps, d, t) && LoadedAt(steps, l, t)
    && (run[t].consumer.canceled || FoundEnd(run[d], steps[d])) && run[l].shared.counter > 0
  }

  ghost predicate EventLostAt(run: seq<State>, steps: seq<Step>, t: nat)
    requires |steps| <= |run|
  {
    exists d: nat :: LosesEvent(run, steps, d, t)
  }

  ghost predicate DropLostAt(run: seq<State>, steps: seq<Step>, t: nat)
    requires |steps| <= |run|
  {
    exists d: nat, l: nat :: LosesDrops(run, steps, d, l, t)
  }

  ghost predicate NoEventLost(run: seq<State>, steps: seq<Step>, n: nat)
    requires |steps| <= |run|
  {
    forall t: nat :: t < n ==> !EventLostAt(run, steps, t)
  }

  ghost predicate NoDropLost(run: seq<State>, steps: seq<Step>, n: nat)
    requires |steps| <= |run|
  {
    forall t: nat :: t < n ==> !DropLostAt(run, steps, t)
  }

  /** The returns that the iterator has yielded, or has not, of those that it has tested. */
  function Picked(returned: seq<Return>, verdicts: seq<bool>, verdict: bool): seq<Return>
    requires |verdicts| <= |returned|
  {
    if |verdicts| == 0 then []
    else
      var n := |verdicts| - 1;
      Picked(returned, verdicts[..n], verdict) + Pick(returned[n], verdicts[n] == verdict)
  }

  function Pick(r: Return, yes: bool): seq<Return> { if yes then [r] else [] }

  function Yielded(c: Consumer): seq<Return>
    requires |c.verdicts| <= |c.returned|
  {
    Picked(c.returned, c.verdicts, true)
  }

  function Unyielded(c: Consumer): seq<Return>
    requires |c.verdicts| <= |c.returned|
  {
    Picked(c.returned, c.verdicts, false)
  }

  lemma {:induction false} PickedGrows(returned: seq<Return>, r: Return, verdicts: seq<bool>, verdict: bool)
    requires |verdicts| <= |returned|
    ensures Picked(returned + [r], verdicts, verdict) == Picked(returned, verdicts, verdict)
  {
    if |verdicts| > 0 { PickedGrows(returned, r, verdicts[..|verdicts| - 1], verdict); }
  }

  lemma PickedMore(returned: seq<Return>, verdicts: seq<bool>, yes: bool, verdict: bool)
    requires |verdicts| < |returned|
    ensures Picked(returned, verdicts + [yes], verdict)
            == Picked(returned, verdicts, verdict) + Pick(returned[|verdicts|], yes == verdict)
  {
    assert (verdicts + [yes])[..|verdicts|] == verdicts;
  }

  lemma {:induction false} PickedFrom(returned: seq<Return>, verdicts: seq<bool>, verdict: bool)
    requires |verdicts| <= |returned| && NonNegative(returned)
    ensures NonNegative(Picked(returned, verdicts, verdict))
  {
    if |verdicts| > 0 { PickedFrom(returned, verdicts[..|verdicts| - 1], verdict); }
  }

  /** The returns, divided into those with one verdict and those with the other. */
  predicate Divides(all: seq<Return>, yes: seq<Return>, no: seq<Return>)
  {
    && |Events(all)| == |Events(yes)| + |Events(no)|
    && (Events(no) == [] ==> Events(yes) == Events(all))
    && DroppedIn(all) == DroppedIn(yes) + DroppedIn(no)
  }

  lemma DividesMore(all: seq<Return>, yes: seq<Return>, no: seq<Return>, r: Return, verdict: bool)
    requires Divides(all, yes, no)
    ensures Divides(all + [r], yes + Pick(r, verdict), no + Pick(r, !verdict))
  {
    ReturnedMore(all, r);
    if verdict {
      ReturnedMore(yes, r);
      assert no + [] == no;
    } else {
      ReturnedMore(no, r);
      assert yes + [] == yes;
      assert Events(no + [r]) == [] ==> |OneEvent(r.event)| == 0 && |Events(no)| == 0;
      assert |OneEvent(r.event)| == 0 ==> Events(all + [r]) == Events(all);
    }
  }

  lemma {:induction false} PickedAll(returned: seq<Return>, verdicts: seq<bool>)
    requires |verdicts| == |returned|
    ensures Divides(returned, Picked(returned, verdicts, true), Picked(returned, verdicts, false))
  {
    if |verdicts| > 0 {
      var n := |verdicts| - 1;
      var all, rest, r := returned[..n], verdicts[..n], returned[n];
      assert all + [r] == returned;
      PickedAll(all, rest);
      PickedGrows(all, r, rest, true);
      PickedGrows(all, r, rest, false);
      DividesMore(all, Picked(all, rest, true), Picked(all, rest, false), r, verdicts[n]);
    }
  }

  predicate NoEvents(returned: seq<Return>) { forall k :: 0 <= k < |returned| ==> returned[k].event.None? }

  predicate NoDrops(returned: seq<Return>) { forall k :: 0 <= k < |returned| ==> returned[k].dropped == 0 }

  lemma NoneMore(returned: seq<Return>, r: Return)
    ensures NoEvents(returned + [r]) <==> NoEvents(returned) && r.event.None?
    ensures NoDrops(returned + [r]) <==> NoDrops(returned) && r.dropped == 0
  {
    assert (returned + [r])[|returned|] == r;
    assert forall k :: 0 <= k < |returned| ==> (returned + [r])[k] == returned[k];
  }

  lemma {:induction false} NoEventsIn(returned: seq<Return>)
    ensures NoEvents(returned) <==> Events(returned) == []
  {
    if |returned| > 0 {
      var n := |returned| - 1;
      NoEventsIn(returned[..n]);
      NoneMore(returned[..n], returned[n]);
      assert returned[..n] + [returned[n]] == returned;
    }
  }

  lemma {:induction false} NoDropsIn(returned: seq<Return>)
    requires NonNegative(returned)
    ensures DroppedIn(returned) >= 0 && (NoDrops(returned) <==> DroppedIn(returned) == 0)
  {
    if |returned| > 0 {
      var n := |returned| - 1;
      NoDropsIn(returned[..n]);
      NoneMore(returned[..n], returned[n]);
      assert returned[..n] + [returned[n]] == returned;
    }
  }

  /** One test. */
  lemma TestLosesExact(cap: nat, run: seq<State>, steps: seq<Step>, t: nat)
    requires IsRun(cap, run, steps) && t < |steps| && steps[t] == Read(Test)
    ensures run[t].consumer.reader.Testing?
    ensures var c := run[t].consumer;
      && (!Yields(c) && c.reader.ret.event.Some? <==> EventLostAt(run, steps, t))
      && (!Yields(c) && c.reader.ret.dropped > 0 <==> DropLostAt(run, steps, t))
  {
    assert Enabled(run[t], steps[t]);
    var d := DecidedBefore(cap, run, steps, t);
    var l := LoadedBefore(cap, run, steps, t);
    YieldsExact(cap, run, steps, t, d, l);
    if EventLostAt(run, steps, t) {
      var e: nat :| LosesEvent(run, steps, e, t);
      DecidedOnce(steps, d, e, t);
    }
    if DropLostAt(run, steps, t) {
      var e: nat, m: nat :| LosesDrops(run, steps, e, m, t);
      DecidedOnce(steps, d, e, t);
      LoadedOnce(steps, l, m, t);
    }
    if !Yields(run[t].consumer) && run[t].consumer.reader.ret.event.Some? { assert LosesEvent(run, steps, d, t); }
    if !Yields(run[t].consumer) && run[t].consumer.reader.ret.dropped > 0 { assert LosesDrops(run, steps, d, l, t); }
  }

  /** What a step of the reader does to the returns that are not yielded. */
  lemma UnyieldedRead(x: Shared, c: Consumer, step: ReadStep)
    requires TestInv(c) && CanRead(x, c, step)
    requires TestInv(ReaderNext(x, c, step))
    ensures Unyielded(ReaderNext(x, c, step)) == if step.Test? && !Yields(c) then Unyielded(c) + [c.reader.ret] else Unyielded(c)
  {
    if step.Test? {
      PickedMore(c.returned, c.verdicts, Yields(c), false);
      assert Unyielded(c) + [] == Unyielded(c);
    } else if step.Subtract? {
      PickedGrows(c.returned, Return(c.reader.event, c.reader.named, c.reader.ok), c.verdicts, false);
    }
  }

  lemma UnyieldedNext(cap: nat, run: seq<State>, steps: seq<Step>, m: nat)
    requires IsRun(cap, run, steps) && m < |steps| && TestInv(run[m].consumer) && TestInv(run[m + 1].consumer)
    ensures NoEvents(Unyielded(run[m + 1].consumer)) <==> NoEvents(Unyielded(run[m].consumer)) && !EventLostAt(run, steps, m)
    ensures NoDrops(Unyielded(run[m + 1].consumer)) <==> NoDrops(Unyielded(run[m].consumer)) && !DropLostAt(run, steps, m)
  {
    var s, c := run[m], run[m].consumer;
    assert Enabled(s, steps[m]) && run[m + 1] == Next(cap, s, steps[m]);
    if steps[m].Read? { UnyieldedRead(s.shared, c, steps[m].read); }
    if steps[m] == Read(Test) {
      TestLosesExact(cap, run, steps, m);
      NoneMore(Unyielded(c), c.reader.ret);
      assert c.returned[|c.verdicts|].dropped >= 0;
    } else {
      assert Unyielded(run[m + 1].consumer) == Unyielded(c);
      assert !EventLostAt(run, steps, m) && !DropLostAt(run, steps, m);
    }
  }

  lemma {:induction false} UnyieldedExact(cap: nat, run: seq<State>, steps: seq<Step>, n: nat)
    requires IsRun(cap, run, steps) && n < |run|
    ensures TestInv(run[n].consumer)
    ensures NoEvents(Unyielded(run[n].consumer)) <==> NoEventLost(run, steps, n)
    ensures NoDrops(Unyielded(run[n].consumer)) <==> NoDropLost(run, steps, n)
  {
    RunInv(cap, run, steps, n);
    if n > 0 {
      UnyieldedExact(cap, run, steps, n - 1);
      UnyieldedNext(cap, run, steps, n - 1);
      LostOne(run, steps, n - 1);
    } else {
      assert Unyielded(run[0].consumer) == [];
    }
  }

  lemma LostOne(run: seq<State>, steps: seq<Step>, m: nat)
    requires m < |steps| <= |run|
    ensures NoEventLost(run, steps, m + 1) <==> NoEventLost(run, steps, m) && !EventLostAt(run, steps, m)
    ensures NoDropLost(run, steps, m + 1) <==> NoDropLost(run, steps, m) && !DropLostAt(run, steps, m)
  {}

  /** Between two reads, the events that the iterator has yielded and those in the channel
      are all events that fitted into it, in order, exactly if the context was never done
      at the test after read took one. */
  lemma YieldsAllEventsExact(cap: nat, run: seq<State>, steps: seq<Step>)
    requires IsRun(cap, run, steps) && !HasDecided(run[|run| - 1].consumer.reader)
    ensures var s := run[|run| - 1];
      && |s.consumer.verdicts| == |s.consumer.returned|
      && (Events(Yielded(s.consumer)) + s.shared.queue == Kept(s.producer.fates) <==> NoEventLost(run, steps, |steps|))
  {
    var s := run[|run| - 1];
    RunInv(cap, run, steps, |steps|);
    UnyieldedExact(cap, run, steps, |steps|);
    PickedAll(s.consumer.returned, s.consumer.verdicts);
    NoEventsIn(Unyielded(s.consumer));
    assert Kept(s.producer.fates) == Events(s.consumer.returned) + [] + s.shared.queue;
    SameFront(Events(Yielded(s.consumer)), Events(s.consumer.returned), s.shared.queue);
  }

  lemma SameFront(a: seq<Event>, b: seq<Event>, queue: seq<Event>)
    ensures b + [] == b && (a + queue == b + queue <==> a == b)
  {
    if a + queue == b + queue {
      assert |a| == |b|;
      assert a == (a + queue)[..|a|] == (b + queue)[..|b|] == b;
    }
  }

  /** Between two reads and with no drop about to be counted, the iterator has told all
      drops exactly if the counter is zero now, and was zero whenever read loaded it for
      a return that the context or the end kept from being yielded. */
  lemma YieldsAllDropsExact(cap: nat, run: seq<State>, steps: seq<Step>)
    requires IsRun(cap, run, steps) && !HasDecided(run[|run| - 1].consumer.reader)
    requires !run[|run| - 1].producer.handler.Counting?
    ensures var s := run[|run| - 1];
      && |s.consumer.verdicts| == |s.consumer.returned|
      && (DroppedIn(Yielded(s.consumer)) == AllDrops(s.producer) <==> s.shared.counter == 0 && NoDropLost(run, steps, |steps|))
  {
    var s := run[|run| - 1];
    RunInv(cap, run, steps, |steps|);
    UnyieldedExact(cap, run, steps, |steps|);
    PickedAll(s.consumer.returned, s.consumer.verdicts);
    PickedFrom(s.consumer.returned, s.consumer.verdicts, false);
    NoDropsIn(Unyielded(s.consumer));
  }

  // A read that nothing interferes with

  /** The reader's own steps inside read. */
  predicate InRead(step: Step)
  {
    Decides(step) || (step.Read? && (step.read.SeeEnd? || step.read.Load? || step.read.Subtract?))
  }

  lemma QuietReturn(cap: nat, run: seq<State>, steps: seq<Step>, m: nat, t: nat)
    requires IsRun(cap, run, steps) && m < t < |steps| && steps[t] == Read(Test) && run[m].consumer.reader.Returning?
    requires forall i :: m <= i < t ==> InRead(steps[i])
    ensures var c := run[m].consumer;
      && run[t].consumer.canceled == c.canceled
      && run[t].consumer.reader == Testing(Return(c.reader.event, run[m].shared.counter, c.reader.ok))
  {
    assert Enabled(run[m], steps[m]) && run[m + 1] == Next(cap, run[m], steps[m]);
    assert steps[m] == Read(Load);
    assert Enabled(run[m + 1], steps[m + 1]) && run[m + 2] == Next(cap, run[m + 1], steps[m + 1]);
    assert m + 1 < t && steps[m + 1] == Read(Subtract);
    assert Enabled(run[m + 2], steps[m + 2]);
    assert t == m + 2;
  }

  /** What such a read returns is yielded exactly if beforehand the context is not done and
      the channel not empty. It takes the counter with it in any case. */
  lemma QuietReadExact(cap: nat, run: seq<State>, steps: seq<Step>, n: nat, t: nat)
    requires IsRun(cap, run, steps) && n < t < |steps| && run[n].consumer.reader.Waiting? && steps[t] == Read(Test)
    requires forall i :: n <= i < t ==> InRead(steps[i])
    ensures run[t].consumer.reader.Testing?
    ensures var x, c, r := run[n].shared, run[n].consumer, run[t].consumer;
      && (Yields(r) <==> !c.canceled && x.queue != [])
      && (Yields(r) ==> r.reader.ret == Return(Some(x.queue[0]), x.counter, true))
      && r.reader.ret.dropped == x.counter
  {
    assert Enabled(run[n], steps[n]) && run[n + 1] == Next(cap, run[n], steps[n]);
    if steps[n] == Read(SeeEnd) {
      assert Enabled(run[n + 1], steps[n + 1]) && run[n + 2] == Next(cap, run[n + 1], steps[n + 1]);
      assert n + 1 < t && steps[n + 1] == Read(Drain);
      assert Enabled(run[n + 2], steps[n + 2]);
      QuietReturn(cap, run, steps, n + 2, t);
    } else {
      assert Enabled(run[n + 1], steps[n + 1]);
      QuietReturn(cap, run, steps, n + 1, t);
    }
  }

  // It does happen

  lemma RunGrows(cap: nat, run: seq<State>, steps: seq<Step>, step: Step) returns (run': seq<State>, steps': seq<Step>)
    requires IsRun(cap, run, steps) && Enabled(run[|run| - 1], step)
    ensures IsRun(cap, run', steps') && run'[|run'| - 1] == Next(cap, run[|run| - 1], step)
  {
    run', steps' := run + [Next(cap, run[|run| - 1], step)], steps + [step];
  }

  /** The iteration is over; read has returned r, and it was not yielded. */
  predicate EndsWith(s: State, r: Return)
  {
    s.consumer == Consumer(Away, s.consumer.canceled, [r], [false]) && s.shared.queue == [] && s.shared.counter == 0
  }

  /** The rest of a first read that has decided what it returns, and will not yield it. */
  lemma ReadEnds(cap: nat, run0: seq<State>, steps0: seq<Step>) returns (run: seq<State>, steps: seq<Step>)
    requires IsRun(cap, run0, steps0)
    requires var s := run0[|run0| - 1];
      && s.consumer.reader.Returning? && s.consumer.returned == [] && s.consumer.verdicts == []
      && s.shared.queue == [] && (s.consumer.canceled || !s.consumer.reader.ok)
    ensures IsRun(cap, run, steps)
    ensures var s, t := run0[|run0| - 1], run[|run| - 1];
      && t.producer == s.producer
      && EndsWith(t, Return(s.consumer.reader.event, s.shared.counter, s.consumer.reader.ok))
  {
    run, steps := RunGrows(cap, run0, steps0, Read(Load));
    run, steps := RunGrows(cap, run, steps, Read(Subtract));
    run, steps := RunGrows(cap, run, steps, Read(Test));
  }

  /** A record is lost, and the probe is closed. The next read returns the drop with
      ok=false, so that the iterator does not yield it. */
  lemma DropNotYielded(cap: nat) returns (run: seq<State>, steps: seq<Step>)
    ensures IsRun(cap, run, steps)
    ensures AllDrops(run[|run| - 1].producer) == 1 && EndsWith(run[|run| - 1], Return(None, 1, false))
  {
    run, steps := [Init()], [];
    run, steps := RunGrows(cap, run, steps, Handle(LoseRecord));
    run, steps := RunGrows(cap, run, steps, End);
    run, steps := RunGrows(cap, run, steps, Read(Call));
    run, steps := RunGrows(cap, run, steps, Read(SeeEnd));
    run, steps := RunGrows(cap, run, steps, Read(Drain));
    run, steps := ReadEnds(cap, run, steps);
  }

  /** A record is lost, and the context ends the read, which has taken the counter. */
  lemma InterruptLosesDrop(cap: nat) returns (run: seq<State>, steps: seq<Step>)
    ensures IsRun(cap, run, steps)
    ensures AllDrops(run[|run| - 1].producer) == 1 && EndsWith(run[|run| - 1], Return(None, 1, true))
  {
    run, steps := [Init()], [];
    run, steps := RunGrows(cap, run, steps, Handle(LoseRecord));
    run, steps := RunGrows(cap, run, steps, Read(Call));
    run, steps := RunGrows(cap, run, steps, Cancel);
    run, steps := RunGrows(cap, run, steps, Read(Interrupt));
    run, steps := ReadEnds(cap, run, steps);
  }

  /** An event is received while the context is done. */
  lemma CanceledLosesEvent(cap: nat) returns (run: seq<State>, steps: seq<Step>)
    requires cap > 0
    ensures IsRun(cap, run, steps)
    ensures run[|run| - 1].producer.fates == [Fate(5, true)] && EndsWith(run[|run| - 1], Return(Some(5), 0, true))
  {
    run, steps := [Init()], [];
    run, steps := RunGrows(cap, run, steps, Handle(Decode(5)));
    run, steps := RunGrows(cap, run, steps, Handle(Send));
    run, steps := RunGrows(cap, run, steps, Read(Call));
    run, steps := RunGrows(cap, run, steps, Cancel);
    run, steps := RunGrows(cap, run, steps, Read(Receive));
    run, steps := ReadEnds(cap, run, steps);
  }
}
