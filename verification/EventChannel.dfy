/** The handler's loop over the records of a ring, on the channel and counter that it
    updates. */
module EventChannel {
  import opened Options
  import opened PerfRing
  import opened EventHandoff

  /** The events that a record holds; a payload that does not decode is passed over. */
  function EventsOf(r: Outcome, decode: seq<byte> -> Option<Event>): seq<Event>
  {
    if r.data.Some? then OneEvent(decode(r.data.value)) else []
  }

  function LostOf(r: Outcome): nat { if r.lost > 0 then 1 else 0 }

  function AllEvents(records: seq<Outcome>, decode: seq<byte> -> Option<Event>): seq<Event>
  {
    if |records| == 0 then [] else EventsOf(records[0], decode) + AllEvents(records[1..], decode)
  }

  function AllLost(records: seq<Outcome>): nat
  {
    if |records| == 0 then 0 else LostOf(records[0]) + AllLost(records[1..])
  }

  /** The records that tell of lost ones, whatever their number. */
  function Losing(records: seq<Outcome>): set<nat> { set i | 0 <= i < |records| && records[i].lost != 0 }

  /** Each of them is one drop. */
  lemma {:induction false} LostExact(records: seq<Outcome>)
    ensures AllLost(records) == |Losing(records)|
  {
    if |records| == 0 {
      assert Losing(records) == {};
    } else {
      var n := |records| - 1;
      LostExact(records[..n]);
      LostLast(records);
      var last: set<nat> := if records[n].lost != 0 then {n} else {};
      assert Losing(records) == Losing(records[..n]) + last;
    }
  }

  lemma {:induction false} LostLast(records: seq<Outcome>)
    requires |records| > 0
    ensures var n := |records| - 1; AllLost(records) == AllLost(records[..n]) + if records[n].lost != 0 then 1 else 0
  {
    var n := |records| - 1;
    if n > 0 {
      LostLast(records[1..]);
      assert records[1..][..n - 1] == records[..n][1..];
    }
  }

  /** As many of the events as fit. */
  function Fitting(events: seq<Event>, room: nat): (s: seq<Event>)
    ensures |s| <= room && |s| <= |events|
  {
    if |events| <= room then events else events[..room]
  }

  datatype Box = Box(events: seq<Event>, dropped: int)

  /** Events that fit are in the channel, in order; each other one is counted. */
  function Delivered(b: Box, cap: nat, events: seq<Event>, lost: nat): (r: Box)
    requires |b.events| <= cap
    ensures |r.events| <= cap
  {
    var fit := Fitting(events, cap - |b.events|);
    Box(b.events + fit, b.dropped + lost + |events| - |fit|)
  }

  lemma DeliveredBoth(b: Box, cap: nat, e: seq<Event>, m: nat, f: seq<Event>, n: nat)
    requires |b.events| <= cap
    ensures Delivered(Delivered(b, cap, e, m), cap, f, n) == Delivered(b, cap, e + f, m + n)
  {}

  lemma DeliveredNothing(b: Box, cap: nat)
    requires |b.events| <= cap
    ensures Delivered(b, cap, [], 0) == b
  {}

  // The loop, with readers taking events in between

  /** What has become of the channel and counter, what readers have taken, and what got in. */
  datatype Flow = Flow(box: Box, taken: seq<Event>, sent: seq<Event>)

  function Min(a: nat, b: nat): nat { if a <= b then a else b }

  /** A reader takes at most n events. */
  function Read(f: Flow, n: nat): Flow
  {
    var k := Min(n, |f.box.events|);
    Flow(f.box.(events := f.box.events[k..]), f.taken + f.box.events[..k], f.sent)
  }

  function Record(f: Flow, cap: nat, e: seq<Event>, lost: nat): Flow
    requires |f.box.events| <= cap
  {
    Flow(Delivered(f.box, cap, e, lost), f.taken, f.sent + Fitting(e, cap - |f.box.events|))
  }

  /** The loop from the i-th record on; takes(j) is how many events readers take before the
      j-th record. */
  function Loop(f: Flow, cap: nat, records: seq<Outcome>, decode: seq<byte> -> Option<Event>, takes: nat -> nat, i: nat): (r: Flow)
    requires |f.box.events| <= cap && i <= |records|
    ensures |r.box.events| <= cap
    decreases |records| - i
  {
    if i == |records| then f
    else Loop(Record(Read(f, takes(i)), cap, EventsOf(records[i], decode), LostOf(records[i])), cap, records, decode, takes, i + 1)
  }

  /** Readers get the events that got in, in order, and the rest of those is in the channel;
      every other event is counted, and so is each LOST record. */
  ghost predicate Conserves(was: seq<Event>, dropped: int, f: Flow, decoded: nat, lost: nat)
  {
    f.taken + f.box.events == was + f.sent && f.box.dropped == dropped + lost + decoded - |f.sent|
  }

  lemma ReadConserves(was: seq<Event>, dropped: int, f: Flow, decoded: nat, lost: nat, n: nat)
    requires Conserves(was, dropped, f, decoded, lost)
    ensures Conserves(was, dropped, Read(f, n), decoded, lost)
  {
    var k := Min(n, |f.box.events|);
    assert f.box.events == f.box.events[..k] + f.box.events[k..];
  }

  lemma RecordConserves(was: seq<Event>, dropped: int, f: Flow, decoded: nat, lost: nat, cap: nat, e: seq<Event>, more: nat)
    requires Conserves(was, dropped, f, decoded, lost) && |f.box.events| <= cap
    ensures Conserves(was, dropped, Record(f, cap, e, more), decoded + |e|, lost + more)
  {
    var fit := Fitting(e, cap - |f.box.events|);
    assert f.taken + (f.box.events + fit) == (f.taken + f.box.events) + fit;
  }

  lemma {:induction false} LoopConserves(was: seq<Event>, dropped: int, f: Flow, decoded: nat, lost: nat,
                                         cap: nat, records: seq<Outcome>, decode: seq<byte> -> Option<Event>, takes: nat -> nat, i: nat)
    requires Conserves(was, dropped, f, decoded, lost) && |f.box.events| <= cap && i <= |records|
    ensures Conserves(was, dropped, Loop(f, cap, records, decode, takes, i),
                      decoded + |AllEvents(records[i..], decode)|, lost + AllLost(records[i..]))
    decreases |records| - i
  {
    if i < |records| {
      assert records[i..][1..] == records[i + 1..];
      var e, more := EventsOf(records[i], decode), LostOf(records[i]);
      ReadConserves(was, dropped, f, decoded, lost, takes(i));
      RecordConserves(was, dropped, Read(f, takes(i)), decoded, lost, cap, e, more);
      LoopConserves(was, dropped, Record(Read(f, takes(i)), cap, e, more), decoded + |e|, lost + more, cap, records, decode, takes, i + 1);
    }
  }

  /** Whatever readers take in between: they get a prefix of the events that got in, the
      others of these are in the channel, and the counter has grown by one for each event
      that did not get in and each LOST record. */
  lemma DeliverConserves(b: Box, cap: nat, records: seq<Outcome>, decode: seq<byte> -> Option<Event>, takes: nat -> nat)
    requires |b.events| <= cap
    ensures var r := Loop(Flow(b, [], []), cap, records, decode, takes, 0);
      && r.taken + r.box.events == b.events + r.sent
      && r.box.dropped - b.dropped == AllLost(records) + |AllEvents(records, decode)| - |r.sent|
  {
    assert records[0..] == records;
    LoopConserves(b.events, b.dropped, Flow(b, [], []), 0, 0, cap, records, decode, takes, 0);
  }

  lemma {:induction false} QuietLoop(f: Flow, cap: nat, records: seq<Outcome>, decode: seq<byte> -> Option<Event>, takes: nat -> nat, i: nat)
    requires |f.box.events| <= cap && i <= |records| && forall j :: takes(j) == 0
    ensures var r := Loop(f, cap, records, decode, takes, i);
      r.taken == f.taken && r.box == Delivered(f.box, cap, AllEvents(records[i..], decode), AllLost(records[i..]))
    decreases |records| - i
  {
    if i == |records| {
      DeliveredNothing(f.box, cap);
    } else {
      assert records[i..][1..] == records[i + 1..];
      var e, more := EventsOf(records[i], decode), LostOf(records[i]);
      assert takes(i) == 0 && Read(f, 0) == f;
      QuietLoop(Record(f, cap, e, more), cap, records, decode, takes, i + 1);
      DeliveredBoth(f.box, cap, e, more, AllEvents(records[i + 1..], decode), AllLost(records[i + 1..]));
    }
  }

  /** With no reader in between, the first events that fit are kept and the others counted. */
  lemma QuietDeliver(b: Box, cap: nat, records: seq<Outcome>, decode: seq<byte> -> Option<Event>, takes: nat -> nat)
    requires |b.events| <= cap && forall j :: takes(j) == 0
    ensures var r := Loop(Flow(b, [], []), cap, records, decode, takes, 0);
      r.taken == [] && r.box == Delivered(b, cap, AllEvents(records, decode), AllLost(records))
  {
    assert records[0..] == records;
    QuietLoop(Flow(b, [], []), cap, records, decode, takes, 0);
  }

  class Channel {
    const cap: nat
    var events: seq<Event>
    var dropped: int

    function View(): Box
      reads this
    {
      Box(events, dropped)
    }

    constructor (cap: nat)
      ensures this.cap == cap && View() == Box([], 0)
    {
      this.cap := cap;
      events, dropped := [], 0;
    }

    method Offer(e: Event)
      requires |events| <= cap
      modifies this
      ensures View() == Delivered(old(View()), cap, [e], 0)
    {
      if |events| < cap {
        events := events + [e];
      } else {
        dropped := dropped + 1;
      }
    }

    method DeliverOne(r: Outcome, decode: seq<byte> -> Option<Event>)
      requires |events| <= cap
      modifies this
      ensures View() == Delivered(old(View()), cap, EventsOf(r, decode), LostOf(r))
    {
      if r.lost > 0 { dropped := dropped + 1; }
      if r.data.Some? {
        var e := decode(r.data.value);
        if e.Some? { Offer(e.value); }
      }
    }

    /** The inner loop over the records of a ring, with readers that take takes(i) events
        off the channel before the i-th record. */
    method Deliver(records: seq<Outcome>, decode: seq<byte> -> Option<Event>, takes: nat -> nat) returns (taken: seq<Event>)
      requires |events| <= cap
      modifies this
      ensures View() == Loop(Flow(old(View()), [], []), cap, records, decode, takes, 0).box
      ensures taken == Loop(Flow(old(View()), [], []), cap, records, decode, takes, 0).taken
    {
      taken := [];
      ghost var sent := [];
      for i := 0 to |records|
        invariant |events| <= cap
        invariant Loop(Flow(View(), taken, sent), cap, records, decode, takes, i)
          == Loop(Flow(old(View()), [], []), cap, records, decode, takes, 0)
      {
        var k := Min(takes(i), |events|);
        taken, events := taken + events[..k], events[k..];
        sent := sent + Fitting(EventsOf(records[i], decode), cap - |events|);
        DeliverOne(records[i], decode);
      }
    }

    /** read's deferred function, with the additions that other goroutines make between its
        load and its subtraction: none of them is lost. */
    method TakeDropped(added: nat) returns (d: int)
      modifies this`dropped
      ensures d == old(dropped) && dropped == added
    {
      d := dropped;
      dropped := dropped + added;
      dropped := dropped - d;
    }
  }
}
