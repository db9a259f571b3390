/** The sizing formula of the delayed packet pipeline, in the 64-bit arithmetic
    the program runs in, and what a caller gets from it. */
module BufferSize {
  import opened Options

  const TWO63 := 0x8000_0000_0000_0000
  const TWO64 := 0x1_0000_0000_0000_0000
  const SECOND := 1_000_000_000 // time.Second, in nanoseconds

  predicate Int64(x: int) { -TWO63 <= x < TWO63 }

  /** The int64 that a mathematical result is stored as. */
  function Wrap(x: int): (w: int)
    ensures Int64(w)
    ensures Int64(x) ==> w == x
  {
    (x + TWO63) % TWO64 - TWO63
  }

  /** Integer division as the machine does it: towards zero. */
  function Quotient(a: int, b: int): int
    requires b != 0
  {
    if a >= 0 then (if b > 0 then a / b else -(a / -b))
    else (if b > 0 then -(-a / b) else -a / -b)
  }

  /** It truncates. */
  lemma QuotientTruncates(a: int, b: int)
    requires b != 0
    ensures b > 0 && a >= 0 ==> Quotient(a, b) * b <= a < Quotient(a, b) * b + b
    ensures b > 0 && a < 0 ==> Quotient(a, b) * b - b < a <= Quotient(a, b) * b
    ensures b < 0 ==> Quotient(a, b) == -Quotient(a, -b)
  {}

  /** The ceildiv closure; None is the divide-by-zero panic. */
  function CeilDiv(a: int, b: int): Option<int>
  {
    if b == 0 then None else Some(Wrap(Quotient(Wrap(Wrap(a + b) - 1), b)))
  }

  function Max(a: int, b: int): int { if a >= b then a else b }

  function FromBitrate(delay: int, packetSize: int, bitsPerSecond: int): Option<int>
  {
    if bitsPerSecond > 0 then
      CeilDiv(Wrap(bitsPerSecond * delay), Wrap(Wrap(packetSize * 8) * SECOND))
    else Some(0)
  }

  function FromRate(delay: int, packetsPerSecond: int): Option<int>
  {
    if packetsPerSecond > 0 then CeilDiv(Wrap(packetsPerSecond * delay), SECOND) else Some(0)
  }

  function Compute(delay: int, packetSize: int, bitsPerSecond: int, packetsPerSecond: int): Option<int>
  {
    var b := FromBitrate(delay, packetSize, bitsPerSecond);
    var p := FromRate(delay, packetsPerSecond);
    if b.None? || p.None? then None else Some(Wrap(Max(b.value, p.value) * 2))
  }

  /** n full-size packets hold what arrives in delay at the peak bitrate. */
  predicate HoldsBits(n: int, delay: int, packetSize: int, bitsPerSecond: int)
  {
    bitsPerSecond * delay <= n * (packetSize * 8 * SECOND)
  }

  /** n packets hold what arrives in delay at the peak packet rate. */
  predicate HoldsRate(n: int, delay: int, packetsPerSecond: int)
  {
    packetsPerSecond * delay <= n * SECOND
  }

  predicate Holds(n: int, delay: int, packetSize: int, bitsPerSecond: int, packetsPerSecond: int)
  {
    0 <= n && HoldsBits(n, delay, packetSize, bitsPerSecond) && HoldsRate(n, delay, packetsPerSecond)
  }

  ghost predicate LeastHolding(n: int, delay: int, packetSize: int, bitsPerSecond: int, packetsPerSecond: int)
  {
    && Holds(n, delay, packetSize, bitsPerSecond, packetsPerSecond)
    && forall m :: Holds(m, delay, packetSize, bitsPerSecond, packetsPerSecond) ==> n <= m
  }

  /** What the option defaults guarantee of the arguments: positive delay and
      packet size, every value an int64. The last clause says that the number of
      bits per packet, scaled to nanoseconds, is an int64: packets under 1.15 GB. */
  predicate Arguments(delay: int, packetSize: int, bitsPerSecond: int, packetsPerSecond: int)
  {
    && 1 <= delay < TWO63 && 1 <= packetSize && packetSize * 8 * SECOND < TWO63
    && Int64(bitsPerSecond) && Int64(packetsPerSecond)
  }

  /** The dividend of the rounded-up division still fits: no product or sum overflows. */
  predicate Fits(rate: int, delay: int, divisor: int)
  {
    rate <= 0 || rate * delay + divisor - 1 < TWO63
  }

  /** The packets that a positive rate brings in delay, rounded up. */
  function Need(rate: int, delay: int, divisor: int): (n: int)
    requires divisor > 0
  {
    if rate <= 0 then 0 else (rate * delay + divisor - 1) / divisor
  }

  /** A term of the maximum is computed exactly when it does not overflow; one that
      overflows always comes out too small, never too large. */
  lemma TermExact(rate: int, delay: int, divisor: int)
    requires 1 <= delay < TWO63 && 0 < divisor < TWO63 && rate > 0
    ensures CeilDiv(Wrap(rate * delay), divisor).Some?
    ensures Fits(rate, delay, divisor) ==> CeilDiv(Wrap(rate * delay), divisor).value == Need(rate, delay, divisor)
    ensures !Fits(rate, delay, divisor) ==> CeilDiv(Wrap(rate * delay), divisor).value < Need(rate, delay, divisor)
  {
    var p := rate * delay;
    assert p >= 1 by { Product(rate, delay); }
    WrapSum(p, divisor);
    var exact := p + divisor - 1;
    var x := Wrap(exact);
    assert CeilDiv(Wrap(p), divisor) == Some(Wrap(Quotient(x, divisor)));
    if Fits(rate, delay, divisor) {
      DivBound(x, divisor);
    } else {
      WrapFar(exact);
      if x >= 0 {
        DivBound(x, divisor);
        DivGap(x, exact, divisor);
      } else {
        DivBound(-x, divisor);
        DivGap(0, exact, divisor);
      }
    }
  }

  lemma Product(a: int, b: int)
    requires a >= 1 && b >= 1
    ensures a * b >= 1
  {}

  lemma WrapSum(p: int, b: int)
    ensures Wrap(Wrap(Wrap(p) + b) - 1) == Wrap(p + b - 1)
  {
    var k := (p + TWO63) / TWO64;
    assert Wrap(p) == p - k * TWO64;
    var l := (Wrap(p) + b + TWO63) / TWO64;
    WrapShift(p + b - 1, k + l);
  }

  lemma WrapShift(x: int, k: int)
    ensures Wrap(x - k * TWO64) == Wrap(x)
  {
    var q := (x + TWO63) / TWO64;
    var r := (x + TWO63) % TWO64;
    var y := x - k * TWO64 + TWO63;
    assert y == (q - k) * TWO64 + r;
    assert y / TWO64 == q - k;
  }

  lemma WrapFar(x: int)
    requires x >= TWO63
    ensures Wrap(x) <= x - TWO64
  {
    assert (x + TWO63) / TWO64 >= 1;
  }

  lemma ProductOrder(a: int, b: int, c: int)
    requires a <= b && c >= 0
    ensures a * c <= b * c
  {}

  lemma DivBound(x: int, d: int)
    requires 0 <= x <= TWO63 && d > 0
    ensures 0 <= x / d <= x
  {
    assert x == x / d * d + x % d;
    ProductOrder(1, d, x / d);
  }

  lemma DivGap(x: int, y: int, d: int)
    requires 0 <= x && x + d <= y && d > 0
    ensures x / d < y / d
  {
    DivAtLeast(y, x / d + 1, d);
  }

  lemma DivAtLeast(y: int, k: int, d: int)
    requires d > 0 && k * d <= y
    ensures k <= y / d
  {
    assert y == y / d * d + y % d;
    if y / d < k { ProductOrder(y / d + 1, k, d); assert false; }
  }

  /** Need is the least count that holds the traffic of one rate. */
  lemma NeedIsLeast(rate: int, delay: int, divisor: int, n: int)
    requires delay >= 1 && divisor > 0 && n >= 0
    ensures Need(rate, delay, divisor) >= 0
    ensures rate * delay <= n * divisor <==> Need(rate, delay, divisor) <= n
  {
    if rate <= 0 {
      ProductOrder(rate, 0, delay);
      ProductOrder(0, n, divisor);
    } else {
      Product(rate, delay);
      RoundedUp(rate * delay, divisor, n);
    }
  }

  lemma RoundedUp(p: int, d: int, n: int)
    requires p >= 1 && d > 0 && n >= 0
    ensures (p + d - 1) / d >= 0
    ensures p <= n * d <==> (p + d - 1) / d <= n
  {
    var x := p + d - 1;
    var q := x / d;
    assert x == q * d + x % d;
    DivAtLeast(x, 0, d);
    if q <= n { ProductOrder(q, n, d); } else { ProductOrder(n + 1, q, d); }
  }

  lemma MaxIsLeast(delay: int, packetSize: int, bitsPerSecond: int, packetsPerSecond: int)
    requires delay >= 1 && packetSize >= 1
    ensures LeastHolding(Max(Need(bitsPerSecond, delay, packetSize * 8 * SECOND), Need(packetsPerSecond, delay, SECOND)),
                         delay, packetSize, bitsPerSecond, packetsPerSecond)
  {
    var d := packetSize * 8 * SECOND;
    var n := Max(Need(bitsPerSecond, delay, d), Need(packetsPerSecond, delay, SECOND));
    NeedIsLeast(bitsPerSecond, delay, d, 0);
    NeedIsLeast(packetsPerSecond, delay, SECOND, 0);
    forall m | m >= 0
      ensures Holds(m, delay, packetSize, bitsPerSecond, packetsPerSecond) <==> n <= m
    {
      NeedIsLeast(bitsPerSecond, delay, d, m);
      NeedIsLeast(packetsPerSecond, delay, SECOND, m);
    }
  }

  /** The term that decides the maximum does not overflow. A caller can check this
      before the call. */
  predicate DominantTermFits(delay: int, packetSize: int, bitsPerSecond: int, packetsPerSecond: int)
    requires packetSize >= 1
  {
    var d := packetSize * 8 * SECOND;
    var b, p := Need(bitsPerSecond, delay, d), Need(packetsPerSecond, delay, SECOND);
    (Fits(bitsPerSecond, delay, d) && p <= b) || (Fits(packetsPerSecond, delay, SECOND) && b <= p)
  }

  /** The formula returns twice the least sufficient count in exactly the cases in
      which the dominating term does not overflow. */
  lemma SizingExact(delay: int, packetSize: int, bitsPerSecond: int, packetsPerSecond: int)
    requires Arguments(delay, packetSize, bitsPerSecond, packetsPerSecond)
    ensures (exists n :: LeastHolding(n, delay, packetSize, bitsPerSecond, packetsPerSecond)
                      && Compute(delay, packetSize, bitsPerSecond, packetsPerSecond) == Some(2 * n))
            <==> DominantTermFits(delay, packetSize, bitsPerSecond, packetsPerSecond)
  {
    var d := packetSize * 8 * SECOND;
    var b, p := Need(bitsPerSecond, delay, d), Need(packetsPerSecond, delay, SECOND);
    if bitsPerSecond > 0 { TermExact(bitsPerSecond, delay, d); }
    if packetsPerSecond > 0 { TermExact(packetsPerSecond, delay, SECOND); }
    var cb, cp := FromBitrate(delay, packetSize, bitsPerSecond).value, FromRate(delay, packetsPerSecond).value;
    TermSmall(bitsPerSecond, delay, d);
    TermSmall(packetsPerSecond, delay, SECOND);
    assert Max(cb, cp) <= Max(b, p);
    assert Max(cb, cp) == Max(b, p) <==> DominantTermFits(delay, packetSize, bitsPerSecond, packetsPerSecond);
    MaxIsLeast(delay, packetSize, bitsPerSecond, packetsPerSecond);
    var n := Max(b, p);
    assert forall m :: LeastHolding(m, delay, packetSize, bitsPerSecond, packetsPerSecond) ==> m == n;
  }

  /** A computed term is far below the int64 limit, so doubling it is exact. */
  lemma TermSmall(rate: int, delay: int, divisor: int)
    requires 1 <= delay && SECOND <= divisor < TWO63
    ensures rate > 0 ==> CeilDiv(Wrap(rate * delay), divisor).Some?
    ensures rate > 0 ==> -TWO63 < 2 * CeilDiv(Wrap(rate * delay), divisor).value < TWO63
  {
    if rate > 0 {
      var x := Wrap(Wrap(Wrap(rate * delay) + divisor) - 1);
      if x >= 0 { QuotientSmall(x, divisor); } else { QuotientSmall(-x, divisor); }
    }
  }

  lemma QuotientSmall(x: int, d: int)
    requires 0 <= x <= TWO63 && SECOND <= d
    ensures 0 <= x / d && 2 * (x / d) < TWO63
  {
    assert x == x / d * d + x % d;
    ProductOrder(SECOND, d, x / d);
  }

  /** The default bitrate with a ten-second delay overflows: the buffer that comes
      back is smaller than the traffic needs. */
  lemma SizingOverflows()
    ensures Arguments(10 * SECOND, 1518, 2_500_000_000, 5000)
    ensures !DominantTermFits(10 * SECOND, 1518, 2_500_000_000, 5000)
    ensures Compute(10 * SECOND, 1518, 2_500_000_000, 5000) == Some(1_079_260)
    ensures !Holds(1_079_260, 10 * SECOND, 1518, 2_500_000_000, 5000)
  {
  }

  /** The defaults that PcapNG falls back to do not overflow, and ask for 10294 packets. */
  lemma DefaultSize()
    ensures DominantTermFits(25_000_000, 1518, 2_500_000_000, 5000)
    ensures Compute(25_000_000, 1518, 2_500_000_000, 5000) == Some(10_294)
  {
  }

  /** At most n of the arrivals fall into any half-open window as long as delay. */
  ghost predicate ArrivalBound(arrivals: seq<int>, delay: int, n: int)
  {
    forall i, j :: 0 <= i <= j < |arrivals| && arrivals[j] - arrivals[i] < delay ==> j - i + 1 <= n
  }

  /** Traffic within the peak limits: the packets of every window as long as delay
      either carry, at full size, no more bits than the peak bitrate, or are no more
      than the peak packet rate. */
  ghost predicate WithinLimits(arrivals: seq<int>, delay: int, packetSize: int, bitsPerSecond: int, packetsPerSecond: int)
  {
    forall i, j :: 0 <= i <= j < |arrivals| && arrivals[j] - arrivals[i] < delay ==>
      || (j - i + 1) * (packetSize * 8 * SECOND) <= bitsPerSecond * delay
      || (j - i + 1) * SECOND <= packetsPerSecond * delay
  }

  /** Traffic within the limits never has more than half a computed buffer of
      arrivals in one delay, which is what the delay guarantee asks for. */
  lemma LimitsMeetArrivalBound(arrivals: seq<int>, delay: int, packetSize: int, bitsPerSecond: int, packetsPerSecond: int)
    requires Arguments(delay, packetSize, bitsPerSecond, packetsPerSecond)
    requires DominantTermFits(delay, packetSize, bitsPerSecond, packetsPerSecond)
    requires WithinLimits(arrivals, delay, packetSize, bitsPerSecond, packetsPerSecond)
    ensures Compute(delay, packetSize, bitsPerSecond, packetsPerSecond).Some?
    ensures ArrivalBound(arrivals, delay, Compute(delay, packetSize, bitsPerSecond, packetsPerSecond).value / 2)
  {
    SizingExact(delay, packetSize, bitsPerSecond, packetsPerSecond);
    var n :| LeastHolding(n, delay, packetSize, bitsPerSecond, packetsPerSecond)
          && Compute(delay, packetSize, bitsPerSecond, packetsPerSecond) == Some(2 * n);
    var d := packetSize * 8 * SECOND;
    forall i, j | 0 <= i <= j < |arrivals| && arrivals[j] - arrivals[i] < delay
      ensures j - i + 1 <= n
    {
      WindowFits(j - i + 1, n, delay, packetSize, bitsPerSecond, packetsPerSecond);
    }
  }

  lemma WindowFits(k: int, n: int, delay: int, packetSize: int, bitsPerSecond: int, packetsPerSecond: int)
    requires packetSize >= 1
    requires Holds(n, delay, packetSize, bitsPerSecond, packetsPerSecond)
    requires k * (packetSize * 8 * SECOND) <= bitsPerSecond * delay || k * SECOND <= packetsPerSecond * delay
    ensures k <= n
  {
    CancelFactor(k, n, if k * SECOND <= packetsPerSecond * delay then SECOND else packetSize * 8 * SECOND);
  }

  lemma CancelFactor(k: int, n: int, d: int)
    requires d > 0 && k * d <= n * d
    ensures k <= n
  {
    if n < k { ProductOrder(n + 1, k, d); assert false; }
  }
}
