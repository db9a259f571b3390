/** The ring reader against a kernel that writes whole records and never gets more than the
    size ahead: the reader is a queue of records. */
module PerfRingTheorems {
  import opened Options
  import opened PerfRing

  // Records and their bytes

  function LittleBytes(n: nat, k: nat): (s: seq<byte>)
    ensures |s| == k
  {
    if k == 0 then [] else [(n % 256) as byte] + LittleBytes(n / 256, k - 1)
  }

  function Pow256(k: nat): nat { if k == 0 then 1 else 256 * Pow256(k - 1) }

  lemma {:induction false} LittleRoundTrip(n: nat, k: nat)
    requires n < Pow256(k)
    ensures Little(LittleBytes(n, k)) == n
    decreases k
  {
    if k > 0 {
      LittleRoundTrip(n / 256, k - 1);
      assert LittleBytes(n, k)[1..] == LittleBytes(n / 256, k - 1);
    }
  }

  datatype Record = Record(kind: nat, misc: nat, body: seq<byte>)
  {
    predicate Valid() { kind < 0x1_0000_0000 && misc < 0x1_0000 && 8 + |body| < 0x1_0000 }
  }

  function Header(r: Record): (s: seq<byte>)
    ensures |s| == 8
  {
    LittleBytes(r.kind, 4) + LittleBytes(r.misc, 2) + LittleBytes(8 + |r.body|, 2)
  }

  function Encode(r: Record): (s: seq<byte>)
    ensures |s| == 8 + |r.body|
  {
    Header(r) + r.body
  }

  lemma HeaderFields(r: Record)
    requires r.Valid()
    ensures Little(Header(r)[..4]) == r.kind && Little(Header(r)[6..8]) == 8 + |r.body|
  {
    assert Pow256(2) == 0x1_0000 && Pow256(4) == 0x1_0000_0000;
    LittleRoundTrip(r.kind, 4);
    LittleRoundTrip(8 + |r.body|, 2);
    assert Header(r)[..4] == LittleBytes(r.kind, 4);
    assert Header(r)[6..8] == LittleBytes(8 + |r.body|, 2);
  }

  /** What the kernel writes for a sample: the size, the payload, and padding. */
  function SampleOf(misc: nat, payload: seq<byte>, pad: seq<byte>): Record
  {
    Record(SAMPLE, misc, LittleBytes(|payload|, 4) + payload + pad)
  }

  function LostOf(misc: nat, id: nat, lost: nat): Record
  {
    Record(LOST, misc, LittleBytes(id, 8) + LittleBytes(lost, 8))
  }

  /** A sample is returned as its payload, whatever the padding. */
  lemma SampleReturned(misc: nat, payload: seq<byte>, pad: seq<byte>)
    requires SampleOf(misc, payload, pad).Valid()
    ensures Parse(Encode(SampleOf(misc, payload, pad))) == Outcome(Some(payload), 0, true)
  {
    var r := SampleOf(misc, payload, pad);
    HeaderFields(r);
    assert Encode(r)[..4] == Header(r)[..4];
    assert Pow256(4) == 0x1_0000_0000;
    LittleRoundTrip(|payload|, 4);
    assert Encode(r)[8..12] == LittleBytes(|payload|, 4);
    assert Encode(r)[12..12 + |payload|] == payload;
  }

  lemma LostReturned(misc: nat, id: nat, lost: nat)
    requires LostOf(misc, id, lost).Valid() && lost < TWO_64
    ensures Parse(Encode(LostOf(misc, id, lost))) == Outcome(None, lost, true)
  {
    var r := LostOf(misc, id, lost);
    HeaderFields(r);
    assert Encode(r)[..4] == Header(r)[..4];
    assert Pow256(8) == TWO_64;
    LittleRoundTrip(lost, 8);
    assert Encode(r)[16..24] == LittleBytes(lost, 8);
  }

  lemma FourBytes(s: seq<byte>)
    requires |s| == 4
    ensures Little(s) == s[0] as nat + 0x100 * s[1] as nat + 0x1_0000 * s[2] as nat + 0x100_0000 * s[3] as nat
  {
    assert s[1..][1..] == s[2..] && s[2..][1..] == s[3..] && s[3..][1..] == [];
    assert Little(s[3..]) == s[3] as nat;
    assert Little(s[2..]) == s[2] as nat + 256 * s[3] as nat;
  }

  /** The type is in the first four bytes of the header: 9 is a sample, 2 a loss, and a record
      of another type, or one too short for what it says, is skipped. */
  lemma RecordTypes(rec: seq<byte>)
    requires |rec| >= 8
    ensures Parse(rec) ==
      if rec[..4] == [9, 0, 0, 0] && |rec| >= 12 && |rec| >= 12 + Little(rec[8..12])
      then Outcome(Some(rec[12..12 + Little(rec[8..12])]), 0, true)
      else if rec[..4] == [2, 0, 0, 0] && |rec| >= 24 then Outcome(None, Little(rec[16..24]), true)
      else Outcome(None, 0, true)
  {
    FourBytes(rec[..4]);
  }

  // The stream of all records ever written

  function Stream(rs: seq<Record>): seq<byte>
  {
    if |rs| == 0 then [] else Stream(rs[..|rs| - 1]) + Encode(rs[|rs| - 1])
  }

  /** Where the k-th record starts. */
  function Start(rs: seq<Record>, k: nat): nat
    requires k <= |rs|
  {
    |Stream(rs[..k])|
  }

  lemma {:induction false} StreamAt(rs: seq<Record>, k: nat)
    requires k < |rs|
    ensures Start(rs, k + 1) == Start(rs, k) + |Encode(rs[k])| <= |Stream(rs)|
    ensures Stream(rs)[Start(rs, k)..Start(rs, k + 1)] == Encode(rs[k])
  {
    var last := |rs| - 1;
    assert rs[..k + 1][..k] == rs[..k];
    if k == last {
      assert rs[..k + 1] == rs;
    } else {
      StreamAt(rs[..last], k);
      assert rs[..last][..k] == rs[..k] && rs[..last][..k + 1] == rs[..k + 1];
    }
  }

  lemma {:induction false} StreamAppend(rs: seq<Record>, r: Record)
    ensures Stream(rs + [r]) == Stream(rs) + Encode(r)
    ensures forall k :: 0 <= k <= |rs| ==> Start(rs + [r], k) == Start(rs, k)
  {
    assert (rs + [r])[..|rs|] == rs;
    forall k | 0 <= k <= |rs| ensures Start(rs + [r], k) == Start(rs, k) { assert (rs + [r])[..k] == rs[..k]; }
  }

  // The bytes in the ring

  function Place(p: nat, size: nat): nat
    requires size > 0
  {
    p % size
  }

  lemma PlacesDiffer(p: nat, q: nat, size: nat)
    requires size > 0 && p < q < p + size
    ensures Place(p, size) != Place(q, size)
  {
    var a, b := p / size, q / size;
    assert p == size * a + Place(p, size) && q == size * b + Place(q, size);
    Subtract(size, b, a);
    assert Place(p, size) == Place(q, size) ==> size * (b - a) == q - p;
    if Place(p, size) == Place(q, size) { NoMultiple(size, b - a); }
  }

  predicate Agrees(data: seq<byte>, stream: seq<byte>, lo: nat, hi: nat)
    requires |data| > 0 && hi <= |stream|
  {
    forall p: nat :: lo <= p < hi ==> data[Place(p, |data|)] == stream[p]
  }

  /** The kernel writes bytes from a position on. */
  function Write(data: seq<byte>, at: nat, s: seq<byte>): (r: seq<byte>)
    requires |data| > 0
    ensures |r| == |data|
    decreases |s|
  {
    if |s| == 0 then data else Write(data[Place(at, |data|) := s[0]], at + 1, s[1..])
  }

  /** What is written is there, and what the reader has not taken yet stays. */
  lemma {:induction false} WriteAgrees(data: seq<byte>, written: seq<byte>, s: seq<byte>, lo: nat)
    requires |data| > 0 && lo <= |written| && |written| + |s| - lo <= |data| && Agrees(data, written, lo, |written|)
    ensures Agrees(Write(data, |written|, s), written + s, lo, |written| + |s|)
    decreases |s|
  {
    if |s| == 0 {
      assert written + s == written;
    } else {
      var next := data[Place(|written|, |data|) := s[0]];
      forall p: nat | lo <= p < |written| + 1 ensures next[Place(p, |data|)] == (written + [s[0]])[p] {
        if p < |written| { PlacesDiffer(p, |written|, |data|); }
      }
      WriteAgrees(next, written + [s[0]], s[1..], lo);
      assert (written + [s[0]]) + s[1..] == written + s;
    }
  }

  lemma WindowAgrees(data: seq<byte>, stream: seq<byte>, lo: nat, hi: nat, i: nat, n: nat)
    requires |data| > 0 && hi <= |stream| && Agrees(data, stream, lo, hi) && lo <= i && i + n <= hi
    ensures Window(data, i, n) == stream[i..i + n]
  {
    forall k | 0 <= k < n ensures Window(data, i, n)[k] == stream[i..i + n][k] {
      assert Place(i + k, |data|) == (i + k) % |data|;
    }
  }

  // The machine

  /** taken records have been read, and got is what ReadRecord returned with ok. */
  datatype Machine = Machine(ring: Mapped, produced: seq<Record>, taken: nat, got: seq<Outcome>)

  datatype Step = Produce(r: Record) | Take

  function Init(size: nat): Machine { Machine(Mapped(true, seq(size, _ => 0), 0, 0), [], 0, []) }

  /** The kernel writes a record only if it fits, and drops it otherwise. */
  predicate Enabled(m: Machine, step: Step)
  {
    |m.ring.data| > 0 &&
    match step
    case Produce(r) =>
      r.Valid() && m.ring.head + |Encode(r)| < TWO_64 && m.ring.head + |Encode(r)| - m.ring.tail <= |m.ring.data|
    case Take => true
  }

  function Next(m: Machine, step: Step): Machine
    requires Enabled(m, step)
  {
    match step
    case Produce(r) =>
      m.(ring := m.ring.(data := Write(m.ring.data, m.ring.head, Encode(r)), head := m.ring.head + |Encode(r)|),
         produced := m.produced + [r])
    case Take =>
      var (r, tail) := Read(m.ring);
      Machine(m.ring.(tail := tail), m.produced, if r.ok then m.taken + 1 else m.taken,
              if r.ok then m.got + [r] else m.got)
  }

  ghost predicate IsRun(k: nat, run: seq<Machine>, steps: seq<Step>)
  {
    && k >= 3 && |run| == |steps| + 1 && run[0] == Init(Pow2(k))
    && forall i :: 0 <= i < |steps| ==> Enabled(run[i], steps[i]) && run[i + 1] == Next(run[i], steps[i])
  }

  /** What the records are returned as. */
  function Meanings(rs: seq<Record>): (s: seq<Outcome>)
    ensures |s| == |rs| && forall i :: 0 <= i < |rs| ==> s[i] == Parse(Encode(rs[i]))
  {
    seq(|rs|, i requires 0 <= i < |rs| => Parse(Encode(rs[i])))
  }

  predicate RingInv(m: Machine)
  {
    && m.ring.open && |m.ring.data| >= 8 && m.ring.head < TWO_64 && m.taken <= |m.produced|
    && (forall i :: 0 <= i < |m.produced| ==> m.produced[i].Valid())
    && m.ring.head == |Stream(m.produced)| && m.ring.tail == Start(m.produced, m.taken)
    && m.ring.tail <= m.ring.head <= m.ring.tail + |m.ring.data|
    && Agrees(m.ring.data, Stream(m.produced), m.ring.tail, m.ring.head)
  }

  predicate Faithful(m: Machine) { m.taken <= |m.produced| && m.got == Meanings(m.produced[..m.taken]) }

  lemma {:induction false} StartGrows(rs: seq<Record>, j: nat, k: nat)
    requires j <= k <= |rs|
    ensures Start(rs, j) + 8 * (k - j) <= Start(rs, k)
    decreases k - j
  {
    if j < k {
      StreamAt(rs, j);
      StartGrows(rs, j + 1, k);
    }
  }

  lemma NextHeader(m: Machine)
    requires RingInv(m) && m.taken < |m.produced|
    ensures var rec := Encode(m.produced[m.taken]);
      && RecordSize(m.ring) == |rec| && Window(m.ring.data, m.ring.tail, |rec|) == rec
      && m.ring.tail + |rec| == Start(m.produced, m.taken + 1) <= m.ring.head
  {
    var r, stream := m.produced[m.taken], Stream(m.produced);
    StreamAt(m.produced, m.taken);
    WindowAgrees(m.ring.data, stream, m.ring.tail, m.ring.head, m.ring.tail, |Encode(r)|);
    WindowAgrees(m.ring.data, stream, m.ring.tail, m.ring.head, m.ring.tail, 8);
    HeaderFirst(stream, m.ring.tail, r);
    HeaderFields(r);
  }

  lemma HeaderFirst(stream: seq<byte>, at: nat, r: Record)
    requires at + |Encode(r)| <= |stream| && stream[at..at + |Encode(r)|] == Encode(r)
    ensures stream[at..at + 8] == Header(r)
  {
    assert stream[at..at + |Encode(r)|][..8] == stream[at..at + 8];
    assert Encode(r)[..8] == Header(r);
  }

  lemma ReadKnown(v: Mapped, rec: seq<byte>)
    requires v.open && |rec| >= 8 && v.tail + |rec| <= v.head < TWO_64 && |rec| <= |v.data|
    requires RecordSize(v) == |rec| && Window(v.data, v.tail, |rec|) == rec
    ensures Read(v) == (Parse(rec), v.tail + |rec|) && Copyable(v)
  {
    NoWrap(v.tail, |rec|);
    Within(v.tail, |v.data|);
  }

  lemma NoWrap(a: nat, b: nat)
    requires a + b < TWO_64
    ensures Add64(a, b) == a + b
  {}

  lemma Within(i: nat, size: nat)
    requires size > 0
    ensures i % size < size
  {}

  /** One read of a ring that the kernel keeps: the next record, or nothing if there is none. */
  lemma ReadNext(m: Machine)
    requires RingInv(m)
    ensures Read(m.ring)
      == if m.taken == |m.produced| then (EMPTY, m.ring.tail)
         else (Parse(Encode(m.produced[m.taken])), Start(m.produced, m.taken + 1))
    ensures m.taken < |m.produced| ==> Start(m.produced, m.taken + 1) <= m.ring.head && Copyable(m.ring)
  {
    assert m.produced[..|m.produced|] == m.produced;
    if m.taken < |m.produced| {
      NextHeader(m);
      ReadKnown(m.ring, Encode(m.produced[m.taken]));
    }
  }

  lemma ProduceKeeps(m: Machine, r: Record)
    requires RingInv(m) && Enabled(m, Produce(r))
    ensures RingInv(Next(m, Produce(r)))
  {
    WriteAgrees(m.ring.data, Stream(m.produced), Encode(r), m.ring.tail);
    StreamAppend(m.produced, r);
    assert forall i :: 0 <= i < |m.produced + [r]| ==> (m.produced + [r])[i] == if i < |m.produced| then m.produced[i] else r;
  }

  lemma TakeKeeps(m: Machine)
    requires RingInv(m) && m.taken < |m.produced|
    ensures RingInv(m.(ring := m.ring.(tail := Start(m.produced, m.taken + 1)), taken := m.taken + 1))
  {
    NextHeader(m);
  }

  lemma RingStep(m: Machine, step: Step)
    requires RingInv(m) && Enabled(m, step)
    ensures RingInv(Next(m, step))
  {
    match step
    case Produce(r) => ProduceKeeps(m, r);
    case Take =>
      ReadNext(m);
      if m.taken < |m.produced| {
        AlwaysOk(Encode(m.produced[m.taken]));
        TakeKeeps(m);
      }
  }

  lemma FaithfulStep(m: Machine, step: Step)
    requires RingInv(m) && Faithful(m) && Enabled(m, step)
    ensures Faithful(Next(m, step))
  {
    match step
    case Produce(r) => assert (m.produced + [r])[..m.taken] == m.produced[..m.taken];
    case Take =>
      ReadNext(m);
      if m.taken < |m.produced| {
        assert m.produced[..m.taken + 1] == m.produced[..m.taken] + [m.produced[m.taken]];
        AlwaysOk(Encode(m.produced[m.taken]));
      }
  }

  lemma AlwaysOk(rec: seq<byte>)
    requires |rec| >= 8
    ensures Parse(rec).ok
  {}

  lemma {:induction false} RunInv(k: nat, run: seq<Machine>, steps: seq<Step>, i: nat)
    requires IsRun(k, run, steps) && i < |run|
    ensures RingInv(run[i]) && Faithful(run[i])
  {
    if i == 0 {
      PowAtLeast(k);
    } else {
      RunInv(k, run, steps, i - 1);
      assert Enabled(run[i - 1], steps[i - 1]) && run[i] == Next(run[i - 1], steps[i - 1]);
      RingStep(run[i - 1], steps[i - 1]);
      FaithfulStep(run[i - 1], steps[i - 1]);
    }
  }

  /** However writes and reads alternate, the reads return the records that were written, in
      order, each once; and a read says that the ring is empty exactly if all that was
      written has been read. */
  lemma ReaderIsAQueue(k: nat, run: seq<Machine>, steps: seq<Step>, i: nat)
    requires IsRun(k, run, steps) && i < |run|
    ensures run[i].taken <= |run[i].produced| && run[i].got == Meanings(run[i].produced[..run[i].taken])
    ensures |run[i].ring.data| > 0 && (!Read(run[i].ring).0.ok <==> run[i].taken == |run[i].produced|)
  {
    RunInv(k, run, steps, i);
    ReadNext(run[i]);
    if run[i].taken < |run[i].produced| { AlwaysOk(Encode(run[i].produced[run[i].taken])); }
  }

  /** The handler's loop over one ring: it reads until there is nothing left, and gets the
      records that had not been taken. */
  method Drain(ring: Ring, ghost produced: seq<Record>, ghost taken: nat) returns (got: seq<Outcome>)
    requires ring.View().Valid() && RingInv(Machine(ring.View(), produced, taken, []))
    modifies ring`tail, ring`tmp
    ensures got == Meanings(produced[taken..])
    ensures ring.tail == ring.head == old(ring.head) && ring.data[..] == old(ring.data[..])
  {
    got := [];
    ghost var m := Machine(ring.View(), produced, taken, []);
    assert produced[taken..taken] == [];
    var more := true;
    while more
      invariant m.produced == produced && taken <= m.taken <= |produced| && got == Meanings(produced[taken..m.taken])
      invariant m.ring == ring.View() == old(ring.View()).(tail := ring.tail)
      invariant RingInv(m)
      invariant !more ==> m.taken == |produced|
      decreases |produced| - m.taken, more
    {
      DrainOne(m, taken);
      var r, panicked := ring.ReadRecord();
      more := r.ok;
      if more {
        got := got + [r];
        m := m.(ring := ring.View(), taken := m.taken + 1);
      }
    }
    assert produced[..|produced|] == produced && produced[taken..m.taken] == produced[taken..];
  }

  lemma DrainOne(m: Machine, first: nat)
    requires RingInv(m) && first <= m.taken
    ensures !Panics(m.ring)
    ensures var (r, tail) := Read(m.ring);
      if r.ok
      then && m.taken < |m.produced| && RingInv(m.(ring := m.ring.(tail := tail), taken := m.taken + 1))
           && Meanings(m.produced[first..m.taken + 1]) == Meanings(m.produced[first..m.taken]) + [r]
      else m.taken == |m.produced| && tail == m.ring.tail == m.ring.head
  {
    ReadNext(m);
    assert m.produced[..|m.produced|] == m.produced;
    if m.taken < |m.produced| {
      AlwaysOk(Encode(m.produced[m.taken]));
      TakeKeeps(m);
      assert m.produced[first..m.taken + 1] == m.produced[first..m.taken] + [m.produced[m.taken]];
    }
  }

  // A ring that nobody keeps

  lemma {:induction false} LittleBound(s: seq<byte>)
    ensures Little(s) < Pow256(|s|)
  {
    if |s| > 0 { LittleBound(s[1..]); }
  }

  /** Without the kernel's promise, the reader does not get past a record that runs past the
      head: it says ok and leaves the tail where it is. In all other cases it moves on or
      says that the ring is empty. */
  lemma StuckExact(v: Mapped)
    requires |v.data| > 0 && v.head + 0x1_0000 < TWO_64
    ensures Read(v).0.ok && Read(v).1 == v.tail <==> !Empty(v) && RecordSize(v) >= 8 && v.tail + RecordSize(v) > v.head
  {
    if !Empty(v) {
      SizeBound(v);
      var recSize := RecordSize(v);
      NoWrap(v.tail, recSize);
      NoWrap(v.tail, 8);
      if recSize >= 8 { AlwaysOk(Window(v.data, v.tail, recSize)); }
    }
  }

  /** n reads while the kernel writes nothing. */
  function Reads(v: Mapped, n: nat): (seq<Outcome>, Mapped)
    requires |v.data| > 0
    decreases n
  {
    if n == 0 then ([], v)
    else
      var (r, tail) := Read(v);
      var (rest, last) := Reads(v.(tail := tail), n - 1);
      ([r] + rest, last)
  }

  predicate AllSkipped(v: Mapped, n: nat)
    requires |v.data| > 0
  {
    var (got, last) := Reads(v, n);
    last == v && |got| == n && forall i :: 0 <= i < n ==> got[i] == SKIPPED
  }

  /** As long as the head stands still, every further read says ok and returns nothing: the
      handler's loop over the ring does not end. */
  lemma {:induction false} StuckReads(v: Mapped, n: nat)
    requires |v.data| > 0 && v.head + 0x1_0000 < TWO_64
    requires !Empty(v) && RecordSize(v) >= 8 && v.tail + RecordSize(v) > v.head
    ensures AllSkipped(v, n)
  {
    if n > 0 {
      SizeBound(v);
      NoWrap(v.tail, RecordSize(v));
      assert Read(v) == (SKIPPED, v.tail) && v.(tail := v.tail) == v;
      StuckReads(v, n - 1);
    }
  }

  /** Such a ring: 8 bytes up to the head, whose header tells of a record of 16. */
  lemma StuckRing() returns (v: Mapped)
    ensures v.Valid() && !Empty(v) && Read(v) == (SKIPPED, v.tail)
    ensures forall n: nat :: AllSkipped(v, n)
  {
    v := Mapped(true, [0, 0, 0, 0, 0, 0, 16, 0], 8, 0);
    assert |v.data| == Pow2(3);
    WindowParts(v.data, 0, 8);
    assert Window(v.data, 0, 8)[6..8] == [16, 0];
    assert [16 as byte, 0][1..] == [0] && [0 as byte][1..] == [];
    assert Little([0]) == 0 && RecordSize(v) == 16;
    forall n: nat ensures AllSkipped(v, n) { StuckReads(v, n); }
  }

  /** And one that makes the reader panic: the record's header says more bytes than can be
      copied, and the head is as far away as it says. */
  lemma PanicRing() returns (v: Mapped)
    ensures v.Valid() && Panics(v)
  {
    v := Mapped(true, [0, 0, 0, 0, 0, 0, 17, 0], 17, 0);
    assert |v.data| == Pow2(3);
    WindowParts(v.data, 0, 8);
    assert Window(v.data, 0, 8)[6..8] == [17, 0];
    assert [17 as byte, 0][1..] == [0] && [0 as byte][1..] == [];
    assert Little([0]) == 0 && RecordSize(v) == 17;
  }

  lemma SizeBound(v: Mapped)
    requires |v.data| > 0
    ensures RecordSize(v) < 0x1_0000
  {
    LittleBound(Window(v.data, v.tail, 8)[6..8]);
    assert Pow256(2) == 0x1_0000;
  }
}
