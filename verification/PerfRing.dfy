/** The reader of a perf ring buffer: a wrapped byte ring that the kernel writes, parsed
    into records. */
module PerfRing {
  import opened Options

  newtype byte = b: int | 0 <= b < 256

  const TWO_64 := 0x1_0000_0000_0000_0000
  const SAMPLE := 9 // PERF_RECORD_SAMPLE
  const LOST := 2   // PERF_RECORD_LOST

  function Pow2(k: nat): (p: nat)
    ensures p > 0
  {
    if k == 0 then 1 else 2 * Pow2(k - 1)
  }

  /** The bitwise and of two numbers. */
  function BitAnd(a: nat, b: nat): nat
    decreases a
  {
    if a == 0 || b == 0 then 0
    else 2 * BitAnd(a / 2, b / 2) + (if a % 2 == 1 && b % 2 == 1 then 1 else 0)
  }

  lemma {:induction false} HalfMod(a: nat, m: nat)
    requires m > 0
    ensures a % (2 * m) == 2 * (a / 2 % m) + a % 2
  {
    var q, r := a / 2 / m, a / 2 % m;
    assert a / 2 == m * q + r;
    assert a == 2 * (a / 2) + a % 2;
    assert a == (2 * m) * q + (2 * r + a % 2) by { Distribute(m, q, r, a); }
    Euclid(a, 2 * m, q, 2 * r + a % 2);
  }

  lemma Distribute(m: nat, q: nat, r: nat, a: nat)
    requires a / 2 == m * q + r
    ensures 2 * (a / 2) == (2 * m) * q + 2 * r
  {}

  lemma Euclid(a: int, m: int, q: int, r: int)
    requires m > 0 && a == m * q + r && 0 <= r < m
    ensures a % m == r && a / m == q
  {
    var q', r' := a / m, a % m;
    assert a == m * q' + r';
    Subtract(m, q, q');
    NoMultiple(m, q - q');
  }

  lemma Subtract(m: int, a: int, b: int)
    ensures m * (a - b) == m * a - m * b
  {}

  lemma NoMultiple(m: int, d: int)
    requires m > 0 && -m < m * d < m
    ensures d == 0
  {}

  /** Masking with a power of two less one is the remainder. */
  lemma {:induction false} MaskIsMod(i: nat, k: nat)
    ensures BitAnd(i, Pow2(k) - 1) == i % Pow2(k)
  {
    if k == 0 {
    } else if i == 0 {
    } else {
      MaskIsMod(i / 2, k - 1);
      HalfMod(i, Pow2(k - 1));
      var b := Pow2(k) - 1;
      assert b == 2 * (Pow2(k - 1) - 1) + 1;
      assert b / 2 == Pow2(k - 1) - 1 && b % 2 == 1;
    }
  }

  /** n bytes from position i on, wrapping at the size. */
  function Window(data: seq<byte>, i: nat, n: nat): (s: seq<byte>)
    requires |data| > 0
    ensures |s| == n && forall k :: 0 <= k < n ==> s[k] == data[(i + k) % |data|]
  {
    if n == 0 then [] else Window(data, i, n - 1) + [data[(i + (n - 1)) % |data|]]
  }

  /** A little-endian number. */
  function Little(s: seq<byte>): (n: nat)
  {
    if |s| == 0 then 0 else s[0] as nat + 256 * Little(s[1..])
  }

  function Add64(a: nat, b: nat): nat { (a + b) % TWO_64 }

  /** What the ring's reader sees: its data, and the metadata page's head and tail. */
  datatype Mapped = Mapped(open: bool, data: seq<byte>, head: nat, tail: nat)
  {
    ghost predicate Valid() { head < TWO_64 && tail < TWO_64 && exists k: nat :: k >= 3 && |data| == Pow2(k) }
  }

  /** data is None where the code returns nil. */
  datatype Outcome = Outcome(data: Option<seq<byte>>, lost: nat, ok: bool)

  const EMPTY := Outcome(None, 0, false)
  const SKIPPED := Outcome(None, 0, true)

  /** What a record, with its header, is returned as. */
  function Parse(rec: seq<byte>): Outcome
    requires |rec| >= 8
  {
    var recType := Little(rec[..4]);
    if recType == SAMPLE then
      if |rec| < 12 then SKIPPED
      else
        var rawSize := Little(rec[8..12]);
        if 12 + rawSize > |rec| then SKIPPED else Outcome(Some(rec[12..12 + rawSize]), 0, true)
    else if recType == LOST then
      if |rec| < 24 then SKIPPED else Outcome(None, Little(rec[16..24]), true)
    else SKIPPED
  }

  predicate Empty(v: Mapped) { !v.open || v.tail >= v.head }

  function RecordSize(v: Mapped): nat
    requires |v.data| > 0
  {
    Little(Window(v.data, v.tail, 8)[6..8])
  }

  /** A record that copyWrap can copy: otherwise it would slice past the data. */
  predicate Copyable(v: Mapped)
    requires |v.data| > 0
  {
    v.tail % |v.data| + RecordSize(v) <= 2 * |v.data|
  }

  /** ReadRecord gets past its tests with a record that it cannot copy. */
  predicate Panics(v: Mapped)
    requires |v.data| > 0
  {
    !Empty(v) && RecordSize(v) >= 8 && Add64(v.tail, RecordSize(v)) <= v.head && !Copyable(v)
  }

  /** ReadRecord, when it does not panic: what it returns, and the new tail. */
  function Read(v: Mapped): (Outcome, nat)
    requires |v.data| > 0
  {
    if Empty(v) then (EMPTY, v.tail)
    else
      var recSize := RecordSize(v);
      if recSize < 8 then (SKIPPED, Add64(v.tail, 8))
      else if Add64(v.tail, recSize) > v.head then (SKIPPED, v.tail)
      else (Parse(Window(v.data, v.tail, recSize)), Add64(v.tail, recSize))
  }

  /** n bytes from an offset on, in one part or two. */
  function Parts(data: seq<byte>, off: nat, n: nat): seq<byte>
    requires off < |data| && off + n <= 2 * |data|
  {
    if off + n <= |data| then data[off..off + n] else data[off..] + data[..off + n - |data|]
  }

  lemma WindowParts(data: seq<byte>, i: nat, n: nat)
    requires |data| > 0 && i % |data| + n <= 2 * |data|
    ensures Window(data, i, n) == Parts(data, i % |data|, n)
  {
    var parts := Parts(data, i % |data|, n);
    forall j | 0 <= j < n ensures parts[j] == Window(data, i, n)[j] { Wrapped(i, j, |data|); }
  }

  lemma WindowFront(data: seq<byte>, i: nat, m: nat, n: nat)
    requires |data| > 0 && m <= n
    ensures Window(data, i, n)[..m] == Window(data, i, m)
  {}

  class Ring {
    const data: array<byte>
    var fd: int
    var head: nat // Data_head, which the kernel advances
    var tail: nat // Data_tail
    var tmp: seq<byte>

    ghost function View(): Mapped
      reads this, data
    {
      Mapped(fd != -1, data[..], head, tail)
    }

    constructor (data: array<byte>, fd: int)
      requires fd >= 0
      ensures this.data == data && View() == Mapped(true, data[..], 0, 0)
    {
      this.data, this.fd := data, fd;
      head, tail, tmp := 0, 0, [];
    }

    /** Go's copy of n bytes of the data from lo on into dst from at on. */
    method Copy(dst: array<byte>, at: nat, lo: nat, n: nat)
      requires dst != data && at + n <= dst.Length && lo + n <= data.Length
      modifies dst
      ensures dst[..] == old(dst[..at]) + data[lo..lo + n] + old(dst[at + n..])
    {
      forall j | 0 <= j < n { dst[at + j] := data[lo + j]; }
    }

    /** The copies from an offset on. Slicing past the data panics, after the first part has
        been copied. */
    method CopyParts(dst: array<byte>, off: nat) returns (panicked: bool)
      requires off < data.Length && dst != data
      modifies dst
      ensures panicked <==> off + dst.Length > 2 * data.Length
      ensures !panicked ==> dst[..] == Parts(data[..], off, dst.Length)
      ensures panicked ==> dst[..] == data[off..] + old(dst[data.Length - off..])
    {
      var sz := dst.Length;
      if off + sz <= data.Length {
        Copy(dst, 0, off, sz);
        assert dst[..] == data[off..off + sz];
        return false;
      }
      var n := data.Length - off;
      Copy(dst, 0, off, n);
      assert data[off..off + n] == data[off..] && dst[..n] == data[off..];
      if sz - n > data.Length { return true; }
      Copy(dst, n, 0, sz - n);
      assert dst[..] == data[off..] + data[0..sz - n];
      return false;
    }

    /** copyWrap, for a power-of-two size. */
    method CopyWrap(dst: array<byte>, i: nat) returns (panicked: bool)
      requires (exists k :: data.Length == Pow2(k)) && dst != data
      modifies dst
      ensures panicked <==> i % data.Length + dst.Length > 2 * data.Length
      ensures !panicked ==> dst[..] == Window(data[..], i, dst.Length)
      ensures panicked ==> dst[..] == data[i % data.Length..] + old(dst[data.Length - i % data.Length..])
    {
      ghost var k :| data.Length == Pow2(k);
      MaskIsMod(i, k);
      panicked := CopyParts(dst, BitAnd(i, data.Length - 1));
      if !panicked { WindowParts(data[..], i, dst.Length); }
    }

    method ReadHeader() returns (recType: nat, recSize: nat)
      requires exists k: nat :: k >= 3 && data.Length == Pow2(k)
      ensures recType == Little(Window(data[..], tail, 8)[..4]) && recSize == RecordSize(View())
    {
      EightFit(data.Length);
      var hdr := new byte[8];
      var panicked := CopyWrap(hdr, tail);
      assert hdr[..4] == hdr[..][..4] && hdr[6..] == hdr[..][6..8];
      recType, recSize := Little(hdr[..4]), Little(hdr[6..]);
    }

    method ReadRecord() returns (r: Outcome, panicked: bool)
      requires View().Valid()
      modifies this`tail, this`tmp
      ensures panicked <==> Panics(old(View()))
      ensures !panicked ==> (r, tail) == Read(old(View()))
      ensures panicked ==> tail == old(tail)
    {
      r, panicked := EMPTY, false;
      if fd == -1 { return; }
      if tail >= head { return; }
      var recType, recSize := ReadHeader();
      if recSize < 8 {
        tail := Add64(tail, 8);
        return SKIPPED, false;
      }
      if Add64(tail, recSize) > head {
        return SKIPPED, false;
      }
      var rec := new byte[recSize];
      panicked := CopyWrap(rec, tail);
      tmp := rec[..];
      if panicked { return; }
      WindowFront(data[..], tail, 4, recSize);
      WindowFront(data[..], tail, 4, 8);
      tail := Add64(tail, recSize);
      r := ParseRecord(recType, tmp);
    }

    method ParseRecord(recType: nat, rec: seq<byte>) returns (r: Outcome)
      requires |rec| >= 8 && recType == Little(rec[..4])
      ensures r == Parse(rec)
    {
      if recType == SAMPLE {
        if |rec| < 12 { return SKIPPED; }
        var rawSize := Little(rec[8..12]);
        if 12 + rawSize > |rec| { return SKIPPED; }
        return Outcome(Some(rec[12..12 + rawSize]), 0, true);
      } else if recType == LOST {
        if |rec| < 24 { return SKIPPED; }
        return Outcome(None, Little(rec[16..24]), true);
      }
      return SKIPPED;
    }
  }

  lemma {:induction false} PowAtLeast(k: nat)
    requires k >= 3
    ensures Pow2(k) >= 8
  {
    if k > 3 { PowAtLeast(k - 1); }
  }

  lemma EightFit(size: nat)
    requires exists k: nat :: k >= 3 && size == Pow2(k)
    ensures size >= 8
  {
    var k: nat :| k >= 3 && size == Pow2(k);
    PowAtLeast(k);
  }

  lemma Wrapped(i: nat, j: nat, size: nat)
    requires size > 0 && i % size + j < 2 * size
    ensures (i + j) % size == if i % size + j < size then i % size + j else i % size + j - size
  {
    var q, off := i / size, i % size;
    if off + j < size {
      Euclid(i + j, size, q, off + j);
    } else {
      assert i + j == size * (q + 1) + (off + j - size);
      Euclid(i + j, size, q + 1, off + j - size);
    }
  }
}
