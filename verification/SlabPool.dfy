/** The slab of packet buffers: one allocation cut into n slots of size bytes, each
    followed by a marker byte, and a channel of the slots that are free. */
module SlabPool {
  import opened Options

  type byte = x: int | 0 <= x < 256

  const FREE_MARK: byte := 0xFF

  /** A Go byte slice: where it starts, its length and its capacity. */
  datatype Slice = Slice(addr: nat, len: nat, cap: nat)

  /** The free slots, in the order the channel hands them out. */
  datatype Pool = Pool(n: nat, free: seq<nat>)
  {
    ghost predicate Valid()
    {
      (forall i :: 0 <= i < |free| ==> free[i] < n) && (forall i, j :: 0 <= i < j < |free| ==> free[i] != free[j])
    }
  }

  /** What release did. Panicked is the double-free panic; Blocked is a send on a full
      channel, which nothing would ever receive from. */
  datatype Released = Foreign | Returned | Panicked | Blocked

  /** alloc as seen by the rest of the program: the slot, if there is one. */
  function Take(p: Pool, fits: bool): (Option<nat>, Pool)
  {
    if fits && |p.free| > 0 then (Some(p.free[0]), p.(free := p.free[1..])) else (None, p)
  }

  /** release as seen by the rest of the program. */
  function Give(p: Pool, slot: Option<nat>): (Released, Pool)
  {
    if slot.None? then (Foreign, p)
    else if slot.value in p.free then (Panicked, p)
    else if |p.free| >= p.n then (Blocked, p)
    else (Returned, p.(free := p.free + [slot.value]))
  }

  lemma TakeFirst(free: seq<nat>)
    requires |free| > 0 && forall i, j :: 0 <= i < j < |free| ==> free[i] != free[j]
    ensures forall s :: s in free[1..] <==> s in free && s != free[0]
  {
    assert free == [free[0]] + free[1..];
  }

  /** A channel of distinct slots that misses one of them has room for it. */
  lemma {:induction false} RoomForMissing(free: seq<nat>, n: nat, slot: nat)
    requires Pool(n, free).Valid() && slot < n && slot !in free
    ensures |free| < n
  {
    Pigeonhole(free + [slot], n);
  }

  lemma {:induction false} Pigeonhole(s: seq<nat>, n: nat)
    requires forall k :: 0 <= k < |s| ==> s[k] < n
    requires forall i, j :: 0 <= i < j < |s| ==> s[i] != s[j]
    ensures |s| <= n
  {
    if k :| 0 <= k < |s| && s[k] == n - 1 {
      var t := s[..k] + s[k + 1..];
      assert forall i :: 0 <= i < |t| ==> t[i] == s[if i < k then i else i + 1];
      Pigeonhole(t, n - 1);
    } else if |s| > 0 {
      assert s[0] < n;
      Pigeonhole(s, n - 1);
    }
  }

  /** Where byte k of slot i lies in the slab; byte size is the marker. */
  function At(i: nat, k: nat, size: nat): nat { i * (size + 1) + k }

  lemma Apart(i: nat, k: nat, j: nat, l: nat, size: nat)
    requires i < j && k <= size
    ensures At(i, k, size) < At(j, 0, size) <= At(j, l, size)
  {
    assert At(j, 0, size) - At(i, 0, size) == (j - i) * (size + 1);
    AtLeastOne(j - i, size + 1);
  }

  lemma AtLeastOne(k: nat, m: nat)
    requires k >= 1
    ensures k * m >= m
  {}

  class SlabPool {
    const start: nat // the slab's address
    const n: nat
    const size: nat
    const slab: array<byte>
    var pool: seq<Slice>
    ghost var free: seq<nat>

    ghost predicate Valid()
      reads this, slab
    {
      && 1 <= size && slab.Length == At(n, 0, size) && View().Valid() && |pool| == |free|
      && (forall k :: 0 <= k < |free| ==> pool[k] == Slice(start + At(free[k], 0, size), 0, size + 1))
      && (forall i, k :: 0 <= i < n && 0 <= k <= size ==> At(i, k, size) < slab.Length)
      && (forall i :: 0 <= i < n ==> (slab[At(i, size, size)] == FREE_MARK <==> i in free))
    }

    ghost function View(): Pool
      reads this
    {
      Pool(n, free)
    }

    /** data is the memory of slot i, as alloc hands it out. */
    ghost predicate IsSlot(data: Slice, i: nat)
    {
      i < n && data.addr == start + At(i, 0, size) && data.len <= size && data.cap == size + 1
    }

    predicate Ours(data: Slice)
    {
      data.cap == size + 1 && start <= data.addr < start + slab.Length
    }

    /** Byte x belongs to slot i, marker excluded. */
    ghost predicate Payload(x: int, i: nat)
    {
      At(i, 0, size) <= x < At(i, size, size)
    }

    constructor (start: nat, n: nat, slotSize: nat)
      ensures Valid() && fresh(slab) && this.start == start && this.n == n
      ensures size == if slotSize >= 1 then slotSize else 1
      ensures free == seq(n, i => i)
    {
      var sz := if slotSize >= 1 then slotSize else 1;
      this.start, this.n, this.size := start, n, sz;
      slab := new byte[n * (sz + 1)](_ => 0);
      pool, free := [], [];
      new;
      forall i, k | 0 <= i < n && 0 <= k <= size
        ensures At(i, k, size) < slab.Length
      {
        Apart(i, k, n, 0, size);
      }
      var i := 0;
      while i < n
        invariant 0 <= i <= n
        invariant free == seq(i, k => k) && |pool| == i
        invariant forall k :: 0 <= k < i ==> pool[k] == Slice(start + At(k, 0, size), 0, size + 1)
        invariant forall k :: 0 <= k < n ==> (slab[At(k, size, size)] == FREE_MARK <==> k < i)
        modifies this`pool, this`free, slab
      {
        var base := i * (size + 1);
        assert base + size == At(i, size, size);
        MarkersApart(i);
        slab[base + size] := FREE_MARK;
        pool := pool + [Slice(start + base, 0, size + 1)];
        free := free + [i];
        i := i + 1;
      }
      forall k | 0 <= k < n
        ensures k in free
      {
        assert free[k] == k;
      }
    }

    /** heap is where make would put a fresh slice: outside the slab. */
    method Alloc(len: nat, heap: nat) returns (data: Slice)
      requires Valid()
      requires !(start <= heap < start + slab.Length)
      modifies this`pool, this`free, slab
      ensures Valid()
      ensures View() == Take(old(View()), len <= size).1 && data.len == len
      ensures match Take(old(View()), len <= size).0
              case Some(i) =>
                && IsSlot(data, i)
                && forall x :: 0 <= x < slab.Length && x != At(i, size, size) ==> slab[x] == old(slab[x])
              case None =>
                && !Ours(data)
                && forall x :: 0 <= x < slab.Length ==> slab[x] == old(slab[x])
    {
      if len <= size && |pool| > 0 {
        var slot := pool[0];
        ghost var i := free[0];
        TakeFirst(free);
        pool, free := pool[1..], free[1..];
        MarkersApart(i);
        var marker := slot.addr - start + size;
        assert marker == At(i, size, size);
        slab[marker] := 0;
        return slot.(len := len);
      }
      data := Slice(heap, len, len);
    }

    /** release, for slices that alloc returned or that are not in the slab at all. */
    method Release(data: Slice, ghost i: nat) returns (r: Released)
      requires Valid()
      requires Ours(data) ==> IsSlot(data, i)
      modifies this`pool, this`free, slab
      ensures Valid()
      ensures (r, View()) == Give(old(View()), if Ours(data) then Some(i) else None)
      ensures r == Panicked <==> Ours(data) && i in old(free)
      ensures r != Blocked
      ensures forall x :: 0 <= x < slab.Length && !(Ours(data) && x == At(i, size, size)) ==> slab[x] == old(slab[x])
    {
      if !Ours(data) {
        return Foreign;
      }
      var marker := data.addr - start + size;
      assert marker == At(i, size, size);
      if slab[marker] == FREE_MARK {
        return Panicked;
      }
      RoomForMissing(free, n, i);
      MarkersApart(i);
      slab[marker] := FREE_MARK;
      if |pool| == n {
        return Blocked;
      }
      pool := pool + [Slice(data.addr, 0, size + 1)];
      free := free + [i];
      r := Returned;
    }

    /** The reader's copy into the slot it got: the bytes land in that slot, and no
        other slot and no marker changes. */
    method Fill(data: Slice, raw: seq<byte>, ghost i: nat)
      requires Valid()
      requires IsSlot(data, i) && |raw| == data.len
      modifies slab
      ensures Valid()
      ensures At(i, 0, size) + data.len <= slab.Length
      ensures slab[At(i, 0, size)..At(i, 0, size) + data.len] == raw
      ensures forall x, j :: 0 <= x < slab.Length && 0 <= j < n && j != i && Payload(x, j) ==> slab[x] == old(slab[x])
      ensures forall j :: 0 <= j < n ==> slab[At(j, size, size)] == old(slab[At(j, size, size)])
    {
      var at := data.addr - start;
      assert At(i, size, size) < slab.Length;
      var k := 0;
      while k < |raw|
        invariant 0 <= k <= |raw|
        invariant slab[at..at + k] == raw[..k]
        invariant forall x :: 0 <= x < slab.Length && !(at <= x < at + data.len) ==> slab[x] == old(slab[x])
      {
        slab[at + k] := raw[k];
        k := k + 1;
      }
      forall j | 0 <= j < n
        ensures slab[At(j, size, size)] == old(slab[At(j, size, size)])
      {
        if j < i { Apart(j, size, i, 0, size); }
        if i < j { Apart(i, size, j, size, size); }
      }
      forall x, j | 0 <= x < slab.Length && 0 <= j < n && j != i && Payload(x, j)
        ensures slab[x] == old(slab[x])
      {
        if j < i { Apart(j, size, i, 0, size); } else { Apart(i, size, j, 0, size); }
      }
    }

    /** The marker of slot i is no payload byte of any slot, and no other marker. */
    lemma MarkersApart(i: nat)
      requires i < n
      ensures forall j :: 0 <= j < n && j != i ==> At(j, size, size) != At(i, size, size)
      ensures forall j :: 0 <= j < n ==> !Payload(At(i, size, size), j)
    {
      forall j | 0 <= j < n && j != i
        ensures At(j, size, size) != At(i, size, size) && !Payload(At(i, size, size), j)
      {
        if j < i { Apart(j, size, i, size, size); } else { Apart(i, size, j, 0, size); }
      }
    }
  }
}
