/** Quoted values: strconv.Quote and Unquote of the Go standard library, as far as the
    line format uses them, and the format's own scan for the closing quote. Escapes
    are those of "String literals" in the Go Programming Language Specification. */
module KvQuote {
  import opened Options
  import opened KvText

  const RUNE_ERROR := 0xFFFD

  predicate Cont(c: Byte) { 0x80 <= c as int < 0xC0 }

  /** utf8.ValidRune, from the surrogate gap up to the last code point. */
  predicate ValidRune(r: int) { 0 <= r < 0xD800 || 0xE000 <= r < 0x110000 }

  /** The length of the UTF-8 sequence at the start of s: 0 if it is not one. */
  function SequenceLength(s: Bytes): (n: nat)
    ensures n <= |s|
  {
    if |s| == 0 then 0
    else
      var a := s[0] as int;
      if a < 0x80 then 1
      else if 0xC2 <= a < 0xE0 then (if |s| >= 2 && Cont(s[1]) then 2 else 0)
      else if 0xE0 <= a < 0xF0 then
        if |s| >= 3 && Cont(s[1]) && Cont(s[2]) && (a == 0xE0 ==> s[1] as int >= 0xA0) && (a == 0xED ==> s[1] as int < 0xA0)
        then 3 else 0
      else if 0xF0 <= a < 0xF5 then
        if |s| >= 4 && Cont(s[1]) && Cont(s[2]) && Cont(s[3]) && (a == 0xF0 ==> s[1] as int >= 0x90) && (a == 0xF4 ==> s[1] as int < 0x90)
        then 4 else 0
      else 0
  }

  /** utf8.DecodeRuneInString on a non-empty string: the rune and how many bytes it takes. */
  function DecodeRune(s: Bytes): (int, nat)
    requires |s| > 0
  {
    var n := SequenceLength(s);
    var a := s[0] as int;
    if n == 0 then (RUNE_ERROR, 1)
    else if n == 1 then (a, 1)
    else if n == 2 then ((a - 0xC0) * 0x40 + (s[1] as int - 0x80), 2)
    else if n == 3 then ((a - 0xE0) * 0x1000 + (s[1] as int - 0x80) * 0x40 + (s[2] as int - 0x80), 3)
    else ((a - 0xF0) * 0x40000 + (s[1] as int - 0x80) * 0x1000 + (s[2] as int - 0x80) * 0x40 + (s[3] as int - 0x80), 4)
  }

  function ToByte(n: int): Byte
    requires 0 <= n < 256
  {
    n as char
  }

  /** utf8.AppendRune. */
  function EncodeRune(r: int): Bytes
    requires ValidRune(r)
  {
    if r < 0x80 then [ToByte(r)]
    else if r < 0x800 then [ToByte(0xC0 + r / 0x40), ToByte(0x80 + r % 0x40)]
    else if r < 0x10000 then [ToByte(0xE0 + r / 0x1000), ToByte(0x80 + r / 0x40 % 0x40), ToByte(0x80 + r % 0x40)]
    else [ToByte(0xF0 + r / 0x40000), ToByte(0x80 + r / 0x1000 % 0x40), ToByte(0x80 + r / 0x40 % 0x40), ToByte(0x80 + r % 0x40)]
  }

  lemma Digits64(a: int, b: int)
    requires 0 <= b < 0x40
    ensures (a * 0x40 + b) / 0x40 == a && (a * 0x40 + b) % 0x40 == b
  {}

  /** Decoding a valid sequence and encoding the rune gives the sequence back. */
  lemma RuneRoundTrip(s: Bytes)
    requires |s| > 0 && SequenceLength(s) > 0
    ensures var (r, n) := DecodeRune(s);
      && n == SequenceLength(s) && ValidRune(r) && EncodeRune(r) == s[..n]
      && (r < 0x80 <==> n == 1)
  {
    var n := SequenceLength(s);
    if n == 2 { RoundTrip2(s); }
    else if n == 3 { RoundTrip3(s); }
    else if n == 4 { RoundTrip4(s); }
  }

  lemma RoundTrip2(s: Bytes)
    requires SequenceLength(s) == 2
    ensures var (r, n) := DecodeRune(s); 0x80 <= r < 0x800 && EncodeRune(r) == s[..2]
  {
    Digits64(s[0] as int - 0xC0, s[1] as int - 0x80);
  }

  lemma RoundTrip3(s: Bytes)
    requires SequenceLength(s) == 3
    ensures var (r, n) := DecodeRune(s); 0x800 <= r < 0x10000 && ValidRune(r) && EncodeRune(r) == s[..3]
  {
    var a, b, c := s[0] as int - 0xE0, s[1] as int - 0x80, s[2] as int - 0x80;
    var x := a * 0x40 + b;
    assert DecodeRune(s).0 == x * 0x40 + c;
    Digits64(a, b);
    Digits64(x, c);
  }

  lemma RoundTrip4(s: Bytes)
    requires SequenceLength(s) == 4
    ensures var (r, n) := DecodeRune(s); 0x10000 <= r && ValidRune(r) && EncodeRune(r) == s[..4]
  {
    var a, b, c, d := s[0] as int - 0xF0, s[1] as int - 0x80, s[2] as int - 0x80, s[3] as int - 0x80;
    var x := a * 0x40 + b;
    var y := x * 0x40 + c;
    var r := DecodeRune(s).0;
    assert r == y * 0x40 + d;
    Digits64(a, b);
    Digits64(x, c);
    Digits64(y, d);
    assert r / 0x40 == y && r / 0x1000 == x && r / 0x40000 == a;
  }

  // Hexadecimal digits

  function HexDigit(n: int): Byte
    requires 0 <= n < 16
  {
    ToByte(if n < 10 then '0' as int + n else 'a' as int + n - 10)
  }

  function Unhex(c: Byte): Option<int>
  {
    if '0' <= c <= '9' then Some(c as int - '0' as int)
    else if 'a' <= c <= 'f' then Some(c as int - 'a' as int + 10)
    else if 'A' <= c <= 'F' then Some(c as int - 'A' as int + 10)
    else None
  }

  /** n as exactly k digits. */
  function Hex(n: nat, k: nat): (s: Bytes)
    ensures |s| == k
    decreases k
  {
    if k == 0 then [] else Hex(n / 16, k - 1) + [HexDigit(n % 16)]
  }

  function ParseHex(s: Bytes): Option<nat>
  {
    if |s| == 0 then Some(0)
    else
      match (ParseHex(s[..|s| - 1]), Unhex(s[|s| - 1]))
      case (Some(high), Some(low)) => Some(high * 16 + low)
      case _ => None
  }

  function Pow16(k: nat): nat { if k == 0 then 1 else 16 * Pow16(k - 1) }

  lemma {:induction false} HexRoundTrip(n: nat, k: nat)
    requires n < Pow16(k)
    ensures ParseHex(Hex(n, k)) == Some(n)
    ensures forall i :: 0 <= i < k ==> Hex(n, k)[i] !in {'\\', '\"', '\n'}
  {
    if k > 0 {
      HexRoundTrip(n / 16, k - 1);
      var s := Hex(n, k);
      assert s[..|s| - 1] == Hex(n / 16, k - 1);
    }
  }

  // Quoting

  /** The escape letter of a rune that has one. */
  function Letter(r: int): Option<Byte>
  {
    match r
    case 7 => Some('a')
    case 8 => Some('b')
    case 12 => Some('f')
    case 10 => Some('n')
    case 13 => Some('r')
    case 9 => Some('t')
    case 11 => Some('v')
    case _ => None
  }

  /** What Quote writes for the rune at the start of s. isPrint is strconv.IsPrint, which
      for ASCII accepts exactly the characters from space to tilde. */
  function QuoteRune(s: Bytes, isPrint: int -> bool): Bytes
    requires |s| > 0
  {
    var (r, n) := DecodeRune(s);
    if SequenceLength(s) == 0 then ['\\', 'x'] + Hex(s[0] as int, 2)
    else if r == '\"' as int || r == '\\' as int then ['\\', s[0]]
    else if (if r < 0x80 then 0x20 <= r < 0x7F else isPrint(r)) then s[..n]
    else if Letter(r).Some? then ['\\', Letter(r).value]
    else if r < 0x20 || r == 0x7F then ['\\', 'x'] + Hex(r, 2)
    else if r < 0x10000 then ['\\', 'u'] + Hex(r, 4)
    else ['\\', 'U'] + Hex(r, 8)
  }

  function QuoteBody(s: Bytes, isPrint: int -> bool): Bytes
    decreases |s|
  {
    if |s| == 0 then []
    else
      RuneWidth(s);
      QuoteRune(s, isPrint) + QuoteBody(s[DecodeRune(s).1..], isPrint)
  }

  lemma RuneWidth(s: Bytes)
    requires |s| > 0
    ensures 1 <= DecodeRune(s).1 <= |s|
  {}

  function Quote(s: Bytes, isPrint: int -> bool): Bytes
  {
    ['\"'] + QuoteBody(s, isPrint) + ['\"']
  }

  /** strconv.UnquoteChar for a double-quoted string: the bytes that Unquote appends, and
      the rest of the input. */
  function UnquoteChar(s: Bytes): Option<(Bytes, Bytes)>
    requires |s| > 0
  {
    if s[0] == '\"' then None
    else if s[0] as int >= 0x80 then
      var (r, n) := DecodeRune(s);
      RuneWidth(s);
      DecodedValid(s);
      Some((EncodeRune(r), s[n..]))
    else if s[0] != '\\' then Some(([s[0]], s[1..]))
    else if |s| == 1 then None
    else
      var t := s[2..];
      match s[1]
      case 'a' => Some(([ToByte(7)], t))
      case 'b' => Some(([ToByte(8)], t))
      case 'f' => Some(([ToByte(12)], t))
      case 'n' => Some(([ToByte(10)], t))
      case 'r' => Some(([ToByte(13)], t))
      case 't' => Some(([ToByte(9)], t))
      case 'v' => Some(([ToByte(11)], t))
      case 'x' => UnquoteHex(t, 2)
      case 'u' => UnquoteHex(t, 4)
      case 'U' => UnquoteHex(t, 8)
      case '\\' => Some((['\\'], t))
      case '\"' => Some((['\"'], t))
      case _ => if '0' <= s[1] <= '7' then UnquoteOctal(s[1], t) else None
  }

  lemma DecodedValid(s: Bytes)
    requires |s| > 0
    ensures ValidRune(DecodeRune(s).0)
  {
    if SequenceLength(s) > 0 { RuneRoundTrip(s); }
  }

  /** The k digits of an escape; two digits are a byte, more are a rune. */
  function UnquoteHex(t: Bytes, k: nat): Option<(Bytes, Bytes)>
  {
    if |t| < k then None
    else
      match ParseHex(t[..k])
      case None => None
      case Some(v) =>
        if k == 2 then (if v < 256 then Some(([ToByte(v)], t[k..])) else None)
        else if ValidRune(v) then Some((EncodeRune(v), t[k..]))
        else None
  }

  function UnquoteOctal(c: Byte, t: Bytes): Option<(Bytes, Bytes)>
    requires '0' <= c <= '7'
  {
    if |t| < 2 || !('0' <= t[0] <= '7') || !('0' <= t[1] <= '7') then None
    else
      var v := (c as int - '0' as int) * 64 + (t[0] as int - '0' as int) * 8 + (t[1] as int - '0' as int);
      if v > 255 then None else Some(([ToByte(v)], t[2..]))
  }

  /** The loop of Unquote: up to the closing quote, refusing a raw line end. The result is
      the unquoted text and what follows the closing quote. */
  function UnquoteBody(s: Bytes): Option<(Bytes, Bytes)>
    decreases |s|
  {
    if |s| == 0 then None
    else if s[0] == '\"' then Some(([], s[1..]))
    else
      match UnquoteChar(s)
      case None => None
      case Some((out, rest)) =>
        if s[0] == '\n' then None
        else
          UnquoteShortens(s);
          match UnquoteBody(rest)
          case None => None
          case Some((more, end)) => Some((out + more, end))
  }

  lemma UnquoteShortens(s: Bytes)
    requires |s| > 0
    ensures UnquoteChar(s).Some? ==> |UnquoteChar(s).value.1| < |s|
  {
    RuneWidth(s);
  }

  function Unquote(s: Bytes): Option<Bytes>
  {
    if |s| < 2 || s[0] != '\"' then None
    else
      match UnquoteBody(s[1..])
      case Some((out, rest)) => if rest == [] then Some(out) else None
      case None => None
  }

  /** Unquoting what Quote wrote for one rune gives that rune's bytes back. */
  lemma UnquoteOneRune(s: Bytes, isPrint: int -> bool, tail: Bytes)
    requires |s| > 0
    ensures var q := QuoteRune(s, isPrint);
      && |q| > 0 && q[0] != '\"' && q[0] != '\n'
      && UnquoteChar(q + tail) == Some((s[..DecodeRune(s).1], tail))
  {
    var (r, n) := DecodeRune(s);
    var q := QuoteRune(s, isPrint);
    if SequenceLength(s) == 0 {
      EscapedHex(s[0] as int, 2, 'x', tail);
      assert s[..1] == [ToByte(s[0] as int)];
    } else {
      RuneRoundTrip(s);
      if r == '\"' as int || r == '\\' as int {
        assert (q + tail)[2..] == tail;
      } else if (if r < 0x80 then 0x20 <= r < 0x7F else isPrint(r)) {
        RawRune(s, tail);
      } else if Letter(r).Some? {
        assert (q + tail)[2..] == tail;
      } else if r < 0x20 || r == 0x7F {
        EscapedHex(r, 2, 'x', tail);
      } else if r < 0x10000 {
        EscapedHex(r, 4, 'u', tail);
      } else {
        EscapedHex(r, 8, 'U', tail);
      }
    }
  }

  lemma EscapedHex(n: nat, k: nat, kind: Byte, tail: Bytes)
    requires (kind == 'x' && k == 2 && n < 0x100) || (kind == 'u' && k == 4 && n < 0x10000) || (kind == 'U' && k == 8 && n < 0x110000)
    ensures var q: Bytes := ['\\', kind] + Hex(n, k);
      UnquoteChar(q + tail)
      == if k == 2 then Some(([ToByte(n)], tail)) else if ValidRune(n) then Some((EncodeRune(n), tail)) else None
  {
    assert Pow16(2) == 0x100 && Pow16(4) == 0x10000 && Pow16(8) == 0x1_0000_0000;
    HexRoundTrip(n, k);
    EscapedDigits(Hex(n, k), n, k, kind, tail);
  }

  lemma EscapedDigits(digits: Bytes, n: nat, k: nat, kind: Byte, tail: Bytes)
    requires (kind == 'x' && k == 2 && n < 0x100) || (kind == 'u' && k == 4) || (kind == 'U' && k == 8)
    requires |digits| == k && ParseHex(digits) == Some(n)
    ensures UnquoteChar(['\\', kind] + digits + tail)
      == if k == 2 then Some(([ToByte(n)], tail)) else if ValidRune(n) then Some((EncodeRune(n), tail)) else None
  {
    EscapeParts('\\', kind, digits, tail);
    UnquoteEscape(['\\', kind] + digits + tail, kind, k);
    UnquoteDigits(digits + tail, n, k);
  }

  lemma UnquoteEscape(t: Bytes, kind: Byte, k: nat)
    requires (kind == 'x' && k == 2) || (kind == 'u' && k == 4) || (kind == 'U' && k == 8)
    requires |t| >= 2 && t[0] == '\\' && t[1] == kind
    ensures UnquoteChar(t) == UnquoteHex(t[2..], k)
  {}

  lemma UnquoteDigits(t: Bytes, n: nat, k: nat)
    requires |t| >= k && ParseHex(t[..k]) == Some(n) && (k == 2 ==> n < 0x100)
    ensures UnquoteHex(t, k)
      == if k == 2 then Some(([ToByte(n)], t[k..])) else if ValidRune(n) then Some((EncodeRune(n), t[k..])) else None
  {}

  lemma EscapeParts(a: Byte, b: Byte, digits: Bytes, tail: Bytes)
    ensures var t := [a, b] + digits + tail;
      && t[0] == a && t[1] == b && t[2..] == digits + tail
      && t[2..][..|digits|] == digits && t[2..][|digits|..] == tail
  {}

  lemma RawRune(s: Bytes, tail: Bytes)
    requires |s| > 0 && SequenceLength(s) > 0
    requires var r := DecodeRune(s).0; r < 0x80 ==> 0x20 <= r < 0x7F && r != '\"' as int && r != '\\' as int
    ensures var n := DecodeRune(s).1; UnquoteChar(s[..n] + tail) == Some((s[..n], tail))
  {
    var (r, n) := DecodeRune(s);
    RuneRoundTrip(s);
    var t := s[..n] + tail;
    assert t[n..] == tail && t[..n] == s[..n];
    if n > 1 {
      SamePrefix(s, t, n);
    }
  }

  /** The first rune depends only on its own bytes. */
  lemma SamePrefix(s: Bytes, t: Bytes, n: nat)
    requires |s| > 0 && n == SequenceLength(s) > 0 && n <= |t| && t[..n] == s[..n]
    ensures SequenceLength(t) == n && DecodeRune(t) == DecodeRune(s)
  {
    assert forall i :: 0 <= i < n ==> t[i] == t[..n][i] == s[..n][i] == s[i];
  }

  /** The first rune of a text, as it is quoted and as it is unquoted, and the rest. */
  lemma QuoteBodySplit(s: Bytes, isPrint: int -> bool) returns (q: Bytes, out: Bytes, rest: Bytes)
    requires |s| > 0
    ensures s == out + rest && |rest| < |s| && QuoteBody(s, isPrint) == q + QuoteBody(rest, isPrint)
    ensures |q| > 0 && q[0] != '\"' && q[0] != '\n'
    ensures forall tail: Bytes :: UnquoteChar(q + tail) == Some((out, tail))
  {
    RuneWidth(s);
    q, out, rest := QuoteRune(s, isPrint), s[..DecodeRune(s).1], s[DecodeRune(s).1..];
    UnquoteOneRune(s, isPrint, []);
    forall tail: Bytes
      ensures UnquoteChar(q + tail) == Some((out, tail))
    {
      UnquoteOneRune(s, isPrint, tail);
    }
  }

  /** Unquote is the inverse of Quote, whatever follows the closing quote. */
  lemma {:induction false} UnquoteQuoteBody(s: Bytes, isPrint: int -> bool, end: Bytes)
    requires |end| > 0 && end[0] == '\"'
    ensures UnquoteBody(QuoteBody(s, isPrint) + end) == Some((s, end[1..]))
    decreases |s|
  {
    if |s| == 0 {
      assert [] + end == end;
    } else {
      var q, out, rest := QuoteBodySplit(s, isPrint);
      UnquoteQuoteBody(rest, isPrint, end);
      UnquoteMore(q, out, QuoteBody(rest, isPrint), rest, end);
    }
  }

  lemma UnquoteMore(q: Bytes, out: Bytes, more: Bytes, rest: Bytes, end: Bytes)
    requires |q| > 0 && q[0] != '\"' && q[0] != '\n' && |end| > 0
    requires UnquoteChar(q + (more + end)) == Some((out, more + end))
    requires UnquoteBody(more + end) == Some((rest, end[1..]))
    ensures UnquoteBody((q + more) + end) == Some((out + rest, end[1..]))
  {
    UnquoteFirst(q + (more + end), out, more + end, rest, end[1..]);
    assert (q + more) + end == q + (more + end);
  }

  lemma UnquoteFirst(t: Bytes, out: Bytes, tail: Bytes, rest: Bytes, end: Bytes)
    requires |t| > 0 && t[0] != '\"' && t[0] != '\n'
    requires UnquoteChar(t) == Some((out, tail)) && UnquoteBody(tail) == Some((rest, end))
    ensures UnquoteBody(t) == Some((out + rest, end))
  {
    UnquoteShortens(t);
  }

  lemma UnquoteQuote(s: Bytes, isPrint: int -> bool)
    ensures Unquote(Quote(s, isPrint)) == Some(s)
  {
    assert Quote(s, isPrint)[1..] == QuoteBody(s, isPrint) + ['\"'];
    UnquoteQuoteBody(s, isPrint, ['\"']);
  }

  // The line format's scan for the closing quote

  function Shift(end: Option<nat>, k: nat): Option<nat>
  {
    if end.None? then None else Some(end.value + k)
  }

  /** How far cutQuoted moves from just after the opening quote to just after the closing
      one: a backslash skips the byte that follows it. None when the quote is missing. */
  function Scan(s: Bytes): (end: Option<nat>)
    ensures end.Some? ==> 0 < end.value <= |s|
  {
    if |s| == 0 then None
    else if s[0] == '\"' then Some(1)
    else if s[0] != '\\' then Shift(Scan(s[1..]), 1)
    else if |s| == 1 then None
    else Shift(Scan(s[2..]), 2)
  }

  /** A stretch that the scan passes over without stopping inside. */
  predicate Passed(q: Bytes)
  {
    if |q| > 0 && q[0] == '\\' then |q| >= 2 && Free(q[2..], {'\\', '\"'}) else Free(q, {'\\', '\"'})
  }

  lemma {:induction false} ScanFree(q: Bytes, tail: Bytes)
    requires Free(q, {'\\', '\"'})
    ensures Scan(q + tail) == Shift(Scan(tail), |q|)
  {
    if |q| == 0 {
      assert q + tail == tail;
    } else {
      ScanFree(q[1..], tail);
      assert (q + tail)[1..] == q[1..] + tail && (q + tail)[0] == q[0];
    }
  }

  lemma ScanPassed(q: Bytes, tail: Bytes)
    requires Passed(q)
    ensures Scan(q + tail) == Shift(Scan(tail), |q|)
  {
    if |q| > 0 && q[0] == '\\' {
      ScanEscape(q, tail);
    } else {
      ScanFree(q, tail);
    }
  }

  lemma ScanEscape(q: Bytes, tail: Bytes)
    requires |q| >= 2 && q[0] == '\\' && Free(q[2..], {'\\', '\"'})
    ensures Scan(q + tail) == Shift(Scan(tail), |q|)
  {
    ScanFree(q[2..], tail);
    var t := q + tail;
    assert t[0] == '\\' && t[2..] == q[2..] + tail;
  }

  lemma HexFree(n: nat, k: nat, kind: Byte)
    requires n < Pow16(k)
    ensures Passed(['\\', kind] + Hex(n, k))
  {
    HexRoundTrip(n, k);
    assert (['\\', kind] + Hex(n, k))[2..] == Hex(n, k);
  }

  lemma QuotedRunePassed(s: Bytes, isPrint: int -> bool)
    requires |s| > 0
    ensures Passed(QuoteRune(s, isPrint))
    ensures forall i :: 0 <= i < |QuoteRune(s, isPrint)| ==> QuoteRune(s, isPrint)[i] != '\n'
  {
    var (r, n) := DecodeRune(s);
    assert Pow16(2) == 0x100 && Pow16(4) == 0x10000 && Pow16(8) == 0x1_0000_0000;
    if SequenceLength(s) == 0 {
      HexFree(s[0] as int, 2, 'x');
      HexRoundTrip(s[0] as int, 2);
    } else {
      RuneRoundTrip(s);
      if r == '\"' as int || r == '\\' as int {
      } else if (if r < 0x80 then 0x20 <= r < 0x7F else isPrint(r)) {
        RawPassed(s);
      } else if Letter(r).Some? {
      } else {
        var k := if r < 0x20 || r == 0x7F then 2 else if r < 0x10000 then 4 else 8;
        HexFree(r, k, if k == 2 then 'x' else if k == 4 then 'u' else 'U');
        HexRoundTrip(r, k);
      }
    }
  }

  lemma RawPassed(s: Bytes)
    requires |s| > 0 && SequenceLength(s) > 0
    requires var r := DecodeRune(s).0; r < 0x80 ==> 0x20 <= r < 0x7F && r != '\"' as int && r != '\\' as int
    ensures var q := s[..DecodeRune(s).1]; |q| > 0 && q[0] != '\\' && Free(q, {'\\', '\"', '\n'})
  {
    RuneRoundTrip(s);
  }

  lemma QuoteBodyPassed(s: Bytes, isPrint: int -> bool) returns (q: Bytes, rest: Bytes)
    requires |s| > 0
    ensures QuoteBody(s, isPrint) == q + QuoteBody(rest, isPrint) && Passed(q) && |rest| < |s|
  {
    RuneWidth(s);
    QuotedRunePassed(s, isPrint);
    q, rest := QuoteRune(s, isPrint), s[DecodeRune(s).1..];
  }

  /** The scan stops at precisely the quote that closes the string. */
  lemma {:induction false} ScanQuoteBody(s: Bytes, isPrint: int -> bool, end: Bytes)
    requires |end| > 0 && end[0] == '\"'
    ensures Scan(QuoteBody(s, isPrint) + end) == Some(|QuoteBody(s, isPrint)| + 1)
    decreases |s|
  {
    if |s| == 0 {
      assert [] + end == end;
    } else {
      var q, rest := QuoteBodyPassed(s, isPrint);
      ScanQuoteBody(rest, isPrint, end);
      ScanMore(q, QuoteBody(rest, isPrint), end);
    }
  }

  lemma ScanMore(q: Bytes, more: Bytes, end: Bytes)
    requires Passed(q) && Scan(more + end) == Some(|more| + 1)
    ensures Scan((q + more) + end) == Some(|q + more| + 1)
  {
    ScanPassed(q, more + end);
    assert (q + more) + end == q + (more + end);
  }

  lemma {:induction false} QuotedOneLine(s: Bytes, isPrint: int -> bool)
    ensures '\n' !in QuoteBody(s, isPrint)
    decreases |s|
  {
    if |s| > 0 {
      RuneWidth(s);
      QuotedRunePassed(s, isPrint);
      QuotedOneLine(s[DecodeRune(s).1..], isPrint);
    }
  }

  // quoteStr and the functions that cut values off a line

  predicate IsBareRune(c: Byte)
  {
    || 'a' <= c <= 'z' || 'A' <= c <= 'Z' || '0' <= c <= '9'
    || c in {'-', '_', '.', '/', ':', '+'}
  }

  /** A byte outside ASCII is never part of a bare rune, so bytes decide as runes do. */
  function QuoteStr(s: Bytes, isPrint: int -> bool): Bytes
  {
    if forall i :: 0 <= i < |s| ==> IsBareRune(s[i]) then s else Quote(s, isPrint)
  }

  function CutQuoted(s: Bytes): Result<(Bytes, Bytes)>
    requires |s| > 0
  {
    match Scan(s[1..])
    case None => Err("unterminated string")
    case Some(n) =>
      match Unquote(s[..n + 1])
      case None => Err("invalid syntax")
      case Some(token) => Ok((token, s[n + 1..]))
  }

  function CutValue(s: Bytes): Result<(Bytes, Bytes)>
  {
    var t := TrimLeft(s);
    if |t| == 0 then Err("unexpected end of line")
    else if t[0] == '\"' then CutQuoted(t)
    else
      var (token, rest) := CutBare(t);
      if token == [] then Err("empty value") else Ok((token, rest))
  }

  /** The loop of cutQuoted, on the index it uses. */
  method ScanToQuote(s: Bytes) returns (end: Option<nat>)
    requires |s| > 0
    ensures end == Shift(Scan(s[1..]), 1)
    ensures end.Some? ==> 1 < end.value <= |s|
  {
    var i := 1;
    while i < |s|
      invariant 1 <= i <= |s| + 1
      invariant i <= |s| ==> Scan(s[1..]) == Shift(Scan(s[i..]), i - 1)
      invariant i > |s| ==> Scan(s[1..]).None?
    {
      if s[i] == '\\' {
        assert i + 2 <= |s| ==> s[i..][2..] == s[i + 2..];
        i := i + 2;
      } else if s[i] == '\"' {
        return Some(i + 1);
      } else {
        assert s[i..][1..] == s[i + 1..];
        i := i + 1;
      }
    }
    end := None;
  }

  lemma CutBareValue(s: Bytes, rest: Bytes)
    requires |s| > 0 && EndsToken(rest) && forall i :: 0 <= i < |s| ==> IsBareRune(s[i])
    ensures CutValue(s + rest) == Ok((s, rest))
    ensures Free(s, {' ', '\t', '#', '\n'})
  {
    CutBareToken(s, rest);
    assert (s + rest)[0] == s[0];
    assert TrimLeft(s + rest) == s + rest;
  }

  lemma CutQuotedValue(s: Bytes, isPrint: int -> bool, rest: Bytes)
    ensures CutValue(Quote(s, isPrint) + rest) == Ok((s, rest))
  {
    ScanQuoteBody(s, isPrint, ['\"'] + rest);
    UnquoteQuote(s, isPrint);
    CutWhole(QuoteBody(s, isPrint), s, rest);
  }

  lemma CutWhole(body: Bytes, s: Bytes, rest: Bytes)
    requires Scan(body + (['\"'] + rest)) == Some(|body| + 1)
    requires Unquote(['\"'] + body + ['\"']) == Some(s)
    ensures CutValue(['\"'] + body + ['\"'] + rest) == Ok((s, rest))
  {
    var q: Bytes := ['\"'] + body + ['\"'];
    QuotedParts(body, rest);
    CutValueQuoted(q + rest, |body| + 1, s);
  }

  lemma QuotedParts(body: Bytes, rest: Bytes)
    ensures var q: Bytes := ['\"'] + body + ['\"'];
      && (q + rest)[0] == '\"' && (q + rest)[1..] == body + (['\"'] + rest)
      && (q + rest)[..|body| + 2] == q && (q + rest)[|body| + 2..] == rest
  {}

  lemma CutValueQuoted(t: Bytes, n: nat, s: Bytes)
    requires |t| > 0 && t[0] == '\"' && Scan(t[1..]) == Some(n) && Unquote(t[..n + 1]) == Some(s)
    ensures CutValue(t) == Ok((s, t[n + 1..]))
  {
    assert TrimLeft(t) == t;
  }

  /** Cutting a quoted or bare value off a line gives back what quoteStr was given, for
      every non-empty byte string. */
  lemma CutValueQuoteStr(s: Bytes, isPrint: int -> bool, rest: Bytes)
    requires |s| > 0 && EndsToken(rest)
    ensures CutValue(QuoteStr(s, isPrint) + rest) == Ok((s, rest))
    ensures '\n' !in QuoteStr(s, isPrint)
    ensures |QuoteStr(s, isPrint)| > 0 && QuoteStr(s, isPrint)[0] !in {' ', '\t', '#'}
  {
    if forall i :: 0 <= i < |s| ==> IsBareRune(s[i]) {
      CutBareValue(s, rest);
    } else {
      CutQuotedValue(s, isPrint, rest);
      QuotedOneLine(s, isPrint);
    }
  }

  lemma {:induction false} TrimLeftShortens(s: Bytes)
    ensures |TrimLeft(s)| <= |s|
  {
    if |s| > 0 && s[0] in BLANKS { TrimLeftShortens(s[1..]); }
  }

  /** A value that is cut off takes at least one byte with it. */
  lemma CutValueShortens(s: Bytes)
    ensures CutValue(s).Ok? ==> |CutValue(s).value.1| < |s|
  {
    TrimLeftShortens(s);
    CutBareSplits(TrimLeft(s));
  }

  /** An empty value cannot be written: its text is empty, and cutting a value off does
      not give it back. */
  lemma EmptyValueLost(isPrint: int -> bool, rest: Bytes)
    ensures QuoteStr([], isPrint) == [] && CutValue(QuoteStr([], isPrint) + rest) != Ok(([], rest))
  {
    assert [] + rest == rest;
    CutValueShortens(rest);
  }
}
