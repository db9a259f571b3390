/** The typed values of keys and properties, and their text forms. */
module KvValue {
  import opened Options
  import opened KvText
  import opened KvQuote

  // Numbers

  function Pow2(k: nat): int { if k == 0 then 1 else 2 * Pow2(k - 1) }

  function Digits(n: nat): (s: Bytes)
    ensures |s| > 0
  {
    if n < 10 then [ToByte('0' as int + n)] else Digits(n / 10) + [ToByte('0' as int + n % 10)]
  }

  /** The digits of a number in base 10 or 16; None on an empty text or a wrong digit. */
  function ParseDigits(s: Bytes, base: nat): Option<nat>
    requires base == 10 || base == 16
  {
    if |s| == 0 then None
    else
      match Unhex(s[|s| - 1])
      case None => None
      case Some(d) =>
        if d >= base then None
        else if |s| == 1 then Some(d)
        else
          match ParseDigits(s[..|s| - 1], base)
          case None => None
          case Some(high) => Some(high * base + d)
  }

  /** strconv.ParseUint with 64 bits: syntax and range errors are both None. */
  function ParseUint(s: Bytes, base: nat): Option<nat>
    requires base == 10 || base == 16
  {
    match ParseDigits(s, base)
    case None => None
    case Some(n) => if n < Pow2(64) then Some(n) else None
  }

  function FormatInt(n: int): Bytes
  {
    if n < 0 then ['-'] + Digits(-n) else Digits(n)
  }

  /** strconv.ParseInt with base 10 and 64 bits. */
  function ParseInt(s: Bytes): Option<int>
  {
    if |s| == 0 then None
    else
      var negative := s[0] == '-';
      match ParseDigits(if negative || s[0] == '+' then s[1..] else s, 10)
      case None => None
      case Some(n) =>
        if negative then (if n <= Pow2(63) then Some(0 - n) else None)
        else if n < Pow2(63) then Some(n) else None
  }

  predicate IsDigits(s: Bytes) { forall i :: 0 <= i < |s| ==> '0' <= s[i] <= '9' }

  lemma {:induction false} DigitsParse(n: nat)
    ensures ParseDigits(Digits(n), 10) == Some(n) && IsDigits(Digits(n))
  {
    if n >= 10 {
      DigitsParse(n / 10);
      var s := Digits(n);
      assert s[..|s| - 1] == Digits(n / 10);
    }
  }

  lemma IntRoundTrip(n: int)
    requires -Pow2(63) <= n < Pow2(63)
    ensures ParseInt(FormatInt(n)) == Some(n)
  {
    DigitsParse(if n < 0 then -n else n);
    if n < 0 { assert FormatInt(n)[1..] == Digits(-n); }
  }

  // Hashes

  /** hex.EncodeToString. */
  function HexString(s: Bytes): Bytes
  {
    if |s| == 0 then [] else Hex(s[0] as int, 2) + HexString(s[1..])
  }

  /** hex.DecodeString: two digits a byte, of either case. */
  function DecodeHex(s: Bytes): Option<Bytes>
  {
    if |s| == 0 then Some([])
    else if |s| == 1 then None
    else
      match (Unhex(s[0]), Unhex(s[1]), DecodeHex(s[2..]))
      case (Some(high), Some(low), Some(rest)) => Some([ToByte(high * 16 + low)] + rest)
      case _ => None
  }

  lemma HexPair(n: nat)
    requires n < 256
    ensures Hex(n, 2) == [HexDigit(n / 16), HexDigit(n % 16)]
    ensures Unhex(HexDigit(n / 16)) == Some(n / 16) && Unhex(HexDigit(n % 16)) == Some(n % 16)
  {
    var high := n / 16;
    assert 0 <= high < 16 && high % 16 == high;
    assert Hex(high / 16, 0) == [];
    assert Hex(high, 1) == [HexDigit(high)];
    UnhexDigit(high);
    UnhexDigit(n % 16);
  }

  lemma UnhexDigit(d: nat)
    requires d < 16
    ensures Unhex(HexDigit(d)) == Some(d)
  {}

  lemma {:induction false} HexStringRoundTrip(s: Bytes)
    ensures DecodeHex(HexString(s)) == Some(s)
  {
    if |s| > 0 {
      HexStringRoundTrip(s[1..]);
      var n := s[0] as int;
      HexPair(n);
      assert HexString(s)[2..] == HexString(s[1..]);
      assert HexString(s)[0] == HexDigit(n / 16) && HexString(s)[1] == HexDigit(n % 16);
      assert ToByte(n / 16 * 16 + n % 16) == s[0] && s == [s[0]] + s[1..];
    }
  }

  lemma {:induction false} HexStringBare(s: Bytes)
    ensures AllBare(HexString(s))
  {
    if |s| > 0 {
      HexStringBare(s[1..]);
      HexPair(s[0] as int);
    }
  }

  /** Hash.String. */
  function HashString(alg: Bytes, val: Bytes): Bytes
  {
    if alg == [] then [] else alg + [':'] + HexString(val)
  }

  function DecodeHash(s: Bytes): Result<Value>
  {
    if s == [] then Ok(VHash([], []))
    else
      match Cut(s, ':')
      case None => Err("hash: expected type:hex")
      case Some((alg, digest)) =>
        match DecodeHex(digest)
        case None => Err("hash: invalid hex")
        case Some(val) => Ok(VHash(alg, val))
  }

  /** A hash survives its text form exactly if it is zero or its algorithm is a non-empty
      text without a colon. */
  lemma HashRoundTripExact(alg: Bytes, val: Bytes)
    ensures DecodeHash(HashString(alg, val)) == Ok(VHash(alg, val))
            <==> (alg == [] && val == []) || (alg != [] && ':' !in alg)
  {
    HexStringRoundTrip(val);
    if alg != [] {
      var s := HashString(alg, val);
      if ':' !in alg {
        CutFirst(alg, ':', HexString(val));
      } else {
        CutShortens(s, ':');
        assert Cut(s, ':').Some? ==> ':' !in Cut(s, ':').value.0;
      }
    }
  }

  // Values

  /** A type that brings its own text form; its values stand for themselves as bytes,
      zero is the zero value, show is what fmt.Sprint prints. */
  datatype Codec = Codec(marshal: Bytes -> Option<Bytes>, unmarshal: Bytes -> Option<Bytes>, show: Bytes -> Bytes, zero: Bytes)

  type Bits = b: nat | 1 <= b <= 64 witness 64

  datatype Kind = KText(codec: Codec) | KString | KInt(bits: Bits) | KUint(bits: Bits) | KUnixTime | KHash

  datatype Value =
    | VText(text: Bytes)
    | VString(str: Bytes)
    | VInt(i: int)
    | VUint(u: nat)
    | VUnixTime(seconds: int)
    | VHash(alg: Bytes, val: Bytes)

  /** v is a value of kind k, within the range of its type. */
  predicate HasKind(v: Value, k: Kind)
  {
    match (k, v)
    case (KText(_), VText(_)) => true
    case (KString, VString(_)) => true
    case (KInt(bits), VInt(n)) => -Pow2(bits - 1) <= n < Pow2(bits - 1)
    case (KUint(bits), VUint(n)) => n < Pow2(bits)
    case (KUnixTime, VUnixTime(n)) => -Pow2(63) <= n < Pow2(63)
    case (KHash, VHash(_, _)) => true
    case _ => false
  }

  function ZeroOf(k: Kind): Value
  {
    match k
    case KText(c) => VText(c.zero)
    case KString => VString([])
    case KInt(_) => VInt(0)
    case KUint(_) => VUint(0)
    case KUnixTime => VUnixTime(0)
    case KHash => VHash([], [])
  }

  /** The text of a value before quoting; None when its own marshaller fails. */
  function Plain(k: Kind, v: Value): Option<Bytes>
    requires HasKind(v, k)
  {
    match v
    case VText(x) => k.codec.marshal(x)
    case VString(s) => Some(s)
    case VInt(n) => Some(FormatInt(n))
    case VUint(n) => Some(Digits(n))
    case VUnixTime(n) => Some(FormatInt(n))
    case VHash(alg, val) => Some(HashString(alg, val))
  }

  /** encodeVal: only texts and strings are quoted. */
  function EncodeVal(k: Kind, v: Value, isPrint: int -> bool): Result<Bytes>
    requires HasKind(v, k)
  {
    match Plain(k, v)
    case None => Err("marshal text")
    case Some(s) => Ok(if k.KText? || k.KString? then QuoteStr(s, isPrint) else s)
  }

  /** What reflect's SetInt and SetUint keep of a number. */
  function Truncate(n: int, bits: Bits, signed: bool): int
  {
    PowPositive(bits);
    var m := n % Pow2(bits);
    if signed && m >= Pow2(bits - 1) then m - Pow2(bits) else m
  }

  lemma {:induction false} PowPositive(k: nat)
    ensures Pow2(k) > 0
  {
    if k > 0 { PowPositive(k - 1); }
  }

  lemma TruncateNone(n: int, bits: Bits, signed: bool)
    requires if signed then -Pow2(bits - 1) <= n < Pow2(bits - 1) else 0 <= n < Pow2(bits)
    ensures Truncate(n, bits, signed) == n
  {
    PowPositive(bits);
    if n < 0 { Remainder(n, Pow2(bits)); } else { Small(n, Pow2(bits)); }
  }

  lemma Small(n: int, m: int)
    requires 0 <= n < m
    ensures n % m == n
  {}

  lemma Remainder(n: int, m: int)
    requires -m <= n < 0
    ensures n % m == n + m || n == -m
  {
    if n > -m {
      var q, r := n / m, n % m;
      assert n == m * q + r;
      QuotientIsMinusOne(m, q, r);
    }
  }

  lemma QuotientIsMinusOne(m: int, q: int, r: int)
    requires m > 0 && 0 <= r < m && -m < m * q + r < 0
    ensures q == -1
  {
    if q >= 0 { ProductOrder(0, q, m); assert false; }
    if q <= -2 { ProductOrder(q, -2, m); assert false; }
  }

  lemma ProductOrder(a: int, b: int, m: int)
    requires a <= b && m > 0
    ensures m * a <= m * b
  {}

  /** decodeVal. */
  function DecodeVal(k: Kind, s: Bytes): Result<Value>
  {
    match k
    case KText(c) => (match c.unmarshal(s) case None => Err("unmarshal text") case Some(x) => Ok(VText(x)))
    case KString => Ok(VString(s))
    case KInt(bits) => (match ParseInt(s) case None => Err("parse int") case Some(n) => Ok(VInt(Truncate(n, bits, true))))
    case KUint(bits) =>
      var hex := |s| >= 2 && s[0] == '0' && (s[1] == 'x' || s[1] == 'X');
      (match ParseUint(if hex then s[2..] else s, if hex then 16 else 10)
       case None => Err("parse uint")
       case Some(n) => TruncateRange(n, bits); Ok(VUint(Truncate(n, bits, false))))
    case KUnixTime => (match ParseInt(s) case None => Err("unixtime") case Some(n) => Ok(VUnixTime(n)))
    case KHash => DecodeHash(s)
  }

  lemma TruncateRange(n: nat, bits: Bits)
    ensures Truncate(n, bits, false) >= 0
  {
    PowPositive(bits);
  }

  /** What is asked of a value so that it survives: its own text form is inverse where it
      brings one, and a hash has an algorithm the line format can hold. */
  predicate Survives(k: Kind, v: Value)
  {
    && HasKind(v, k)
    && match v
       case VText(x) => k.codec.marshal(x).Some? && k.codec.unmarshal(k.codec.marshal(x).value) == Some(x)
       case VHash(alg, val) => (alg == [] && val == []) || (alg != [] && IsToken(alg) && ':' !in alg)
       case _ => true
  }

  lemma {:induction false} PowGrows(j: nat, k: nat)
    requires j <= k
    ensures Pow2(j) <= Pow2(k)
  {
    if j < k { PowGrows(j, k - 1); PowPositive(k - 1); }
  }

  /** Decoding a value's text gives the value back. */
  lemma DecodePlain(k: Kind, v: Value)
    requires Survives(k, v)
    ensures Plain(k, v).Some? && DecodeVal(k, Plain(k, v).value) == Ok(v)
  {
    match v
    case VInt(n) =>
      PowGrows(k.bits - 1, 63);
      IntRoundTrip(n);
      TruncateNone(n, k.bits, true);
    case VUint(n) =>
      PowGrows(k.bits, 64);
      DigitsParse(n);
      assert IsDigits(Digits(n));
      TruncateNone(n, k.bits, false);
    case VUnixTime(n) => IntRoundTrip(n);
    case VHash(alg, val) => HashRoundTripExact(alg, val);
    case _ =>
  }

  /** A text that a line holds as it is: no delimiter and no line end. */
  lemma BarePlain(k: Kind, v: Value)
    requires Survives(k, v) && !k.KText? && !k.KString?
    ensures var s := Plain(k, v).value; IsToken(s) && (|s| > 0 ==> s[|s| - 1] !in LINE_ENDS)
  {
    match v
    case VInt(n) => BareInt(n);
    case VUint(n) => BareInt(n);
    case VUnixTime(n) => BareInt(n);
    case VHash(alg, val) => BareHash(alg, val);
  }

  lemma BareInt(n: int)
    ensures var s := FormatInt(n); IsToken(s) && |s| > 0 && s[|s| - 1] !in LINE_ENDS
  {
    var m := if n < 0 then -n else n;
    DigitsParse(m);
    DigitsAreToken(Digits(m));
  }

  lemma DigitsAreToken(s: Bytes)
    requires IsDigits(s) && |s| > 0
    ensures IsToken(s) && IsToken(['-'] + s) && s[|s| - 1] !in LINE_ENDS
  {}

  lemma BareHash(alg: Bytes, val: Bytes)
    requires (alg == [] && val == []) || IsToken(alg)
    ensures var s := HashString(alg, val); IsToken(s) && (|s| > 0 ==> s[|s| - 1] !in LINE_ENDS)
  {
    HexStringBare(val);
  }

  /** Cutting an encoded value off a line and decoding it gives the value back. An empty
      text is no value that can be cut off. */
  lemma ValueThroughLine(k: Kind, v: Value, isPrint: int -> bool, rest: Bytes)
    requires Survives(k, v) && EndsToken(rest)
    ensures EncodeVal(k, v, isPrint).Ok? && Plain(k, v).Some? && DecodeVal(k, Plain(k, v).value) == Ok(v)
    ensures var e := EncodeVal(k, v, isPrint).value;
      if Plain(k, v).value == [] then e == []
      else
        && |e| > 0 && e[0] !in {' ', '\t', '#'} && e[|e| - 1] !in LINE_ENDS && '\n' !in e
        && CutValue(e + rest) == Ok((Plain(k, v).value, rest))
  {
    DecodePlain(k, v);
    var s := Plain(k, v).value;
    if s != [] {
      if k.KText? || k.KString? {
        CutValueQuoteStr(s, isPrint, rest);
      } else {
        BarePlain(k, v);
        CutBareToken(s, rest);
        assert (s + rest)[0] == s[0] && TrimLeft(s + rest) == s + rest;
      }
    }
  }
}
