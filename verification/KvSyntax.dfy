/** What the reader makes of text that Marshal may not have written: blanks, comments, numbers
    and escapes, each said by the bytes themselves. */
module KvSyntax {
  import opened Options
  import opened KvText
  import opened KvQuote
  import opened KvValue
  import opened KvObject
  import opened KvEntries
  import opened KvFile

  // Blanks, tokens and comments

  predicate Blank(s: Bytes) { forall i :: 0 <= i < |s| ==> s[i] == ' ' || s[i] == '\t' }

  predicate StartsBlank(s: Bytes) { |s| > 0 && (s[0] == ' ' || s[0] == '\t') }

  predicate EndsBlank(s: Bytes) { |s| > 0 && (s[|s| - 1] == ' ' || s[|s| - 1] == '\t') }

  lemma {:induction false} TrimLeftExact(blanks: Bytes, t: Bytes)
    requires Blank(blanks) && !StartsBlank(t)
    ensures TrimLeft(blanks + t) == t
  {
    if |blanks| > 0 {
      assert (blanks + t)[1..] == blanks[1..] + t;
      TrimLeftExact(blanks[1..], t);
    } else {
      assert blanks + t == t;
    }
  }

  /** The end of a line is trimmed off with all blanks and returns before it, and nothing else. */
  lemma {:induction false} LineEndExact(t: Bytes, ends: Bytes)
    requires forall i :: 0 <= i < |ends| ==> ends[i] == '\r' || ends[i] == '\n' || Blank([ends[i]])
    requires !EndsBlank(t) && (|t| > 0 ==> t[|t| - 1] != '\r' && t[|t| - 1] != '\n')
    ensures TrimRight(t + ends, LINE_ENDS) == t
  {
    if |ends| > 0 {
      var front, last := ends[..|ends| - 1], ends[|ends| - 1];
      assert t + ends == (t + front) + [last];
      assert Blank([last]) ==> [last][0] in BLANKS;
      TrimRightOne(t + front, last, LINE_ENDS);
      LineEndExact(t, front);
    } else {
      assert t + ends == t;
    }
  }

  lemma {:induction false} TrimBlanks(t: Bytes, blanks: Bytes)
    requires Blank(blanks) && !EndsBlank(t)
    ensures TrimRight(t + blanks, BLANKS) == t
  {
    if |blanks| > 0 {
      var front, last := blanks[..|blanks| - 1], blanks[|blanks| - 1];
      assert t + blanks == (t + front) + [last];
      TrimRightOne(t + front, last, BLANKS);
      TrimBlanks(t, front);
    } else {
      assert t + blanks == t;
    }
  }

  predicate Delimiter(c: Byte) { c == ' ' || c == '\t' || c == '=' || c == '#' || c == '\"' }

  /** A token ends before the first blank, '=', '#' or quote, or at the end. */
  lemma TokenExact(s: Bytes, token: Bytes, rest: Bytes)
    ensures CutBare(s) == (token, rest) <==>
      && s == token + rest && (|rest| > 0 ==> Delimiter(rest[0]))
      && forall i :: 0 <= i < |token| ==> !Delimiter(token[i])
  {
    CutBareSplits(s);
    if s == token + rest && (|rest| > 0 ==> Delimiter(rest[0])) && forall i :: 0 <= i < |token| ==> !Delimiter(token[i]) {
      CutBareToken(token, rest);
    }
  }

  /** A comment is what follows '#' and one space, if there is one, without the blanks at its
      end; the blanks before the '#' do not matter. */
  lemma CommentExact(before: Bytes, c: Bytes, after: Bytes)
    requires Blank(before) && Blank(after) && !EndsBlank(c)
    ensures CutComment(before + (['#', ' '] + (c + after))) == c
    ensures |c| > 0 && c[0] != ' ' ==> CutComment(before + (['#'] + (c + after))) == c
    ensures CutComment(before) == []
  {
    var spaced: Bytes, close: Bytes := ['#', ' '] + (c + after), ['#'] + (c + after);
    TrimLeftExact(before, spaced);
    TrimLeftExact(before, close);
    TrimLeftExact(before, []);
    assert before + [] == before;
    assert spaced[2..] == c + after && close[1..] == c + after;
    TrimBlanks(c, after);
  }

  /** A file starts with '#', a space and the tag, on a line of their own. */
  lemma FileStarts(sc: Schema, c: Contents, orders: seq<seq<Value>>, isPrint: int -> bool)
    requires CoversAll(sc, c, orders)
    ensures Print(sc, c, orders, isPrint).Ok? ==>
      var data := Print(sc, c, orders, isPrint).value;
      |data| >= |sc.tag| + 3 && data[0] == '#' && data[1] == ' ' && data[2..|sc.tag| + 2] == sc.tag && data[|sc.tag| + 2] == '\n'
  {
    var lines := FileLines(sc, c, orders, 0, isPrint);
    if lines.Ok? {
      var all := [Magic(sc)] + lines.value;
      assert all[0] == Magic(sc);
      assert Terminated(all) == Magic(sc) + ['\n'] + Terminated(all[1..]);
    }
  }

  // Numbers

  /** What a digit stands for, by its ASCII code; 99 if it is none. */
  function DigitValue(c: Byte): nat
  {
    var n := c as int;
    if 48 <= n <= 57 then n - 48 else if 65 <= n <= 70 then n - 55 else if 97 <= n <= 102 then n - 87 else 99
  }

  predicate Numeral(s: Bytes, base: nat) { forall i :: 0 <= i < |s| ==> DigitValue(s[i]) < base }

  function Power(base: nat, k: nat): nat { if k == 0 then 1 else base * Power(base, k - 1) }

  /** The number that digits stand for, each by its place. */
  function Number(s: Bytes, base: nat): nat
  {
    if |s| == 0 then 0 else DigitValue(s[0]) * Power(base, |s| - 1) + Number(s[1..], base)
  }

  lemma {:induction false} NumberAppend(s: Bytes, c: Byte, base: nat)
    ensures Number(s + [c], base) == Number(s, base) * base + DigitValue(c)
  {
    if |s| == 0 {
      assert s + [c] == [c] && [c][1..] == [];
    } else {
      var d, p := DigitValue(s[0]), Power(base, |s| - 1);
      assert (s + [c])[0] == s[0] && (s + [c])[1..] == s[1..] + [c];
      NumberAppend(s[1..], c, base);
      assert Power(base, |s|) == base * p;
      Horner(d, p, base, Number(s[1..], base));
    }
  }

  lemma Horner(d: nat, p: nat, base: nat, n: nat)
    ensures d * (base * p) + n * base == (d * p + n) * base
  {}

  lemma NumberSplit(s: Bytes, base: nat)
    requires |s| > 0
    ensures Number(s, base) == Number(s[..|s| - 1], base) * base + DigitValue(s[|s| - 1])
    ensures Numeral(s, base) <==> Numeral(s[..|s| - 1], base) && DigitValue(s[|s| - 1]) < base
  {
    assert s == s[..|s| - 1] + [s[|s| - 1]];
    NumberAppend(s[..|s| - 1], s[|s| - 1], base);
  }

  /** Digits are those of the base and of either case, and count by their place. */
  lemma {:induction false} DigitsExact(s: Bytes, base: nat)
    requires base == 10 || base == 16
    ensures ParseDigits(s, base) == if |s| > 0 && Numeral(s, base) then Some(Number(s, base)) else None
  {
    if |s| > 0 {
      NumberSplit(s, base);
      if |s| > 1 { DigitsExact(s[..|s| - 1], base); }
    }
  }

  lemma {:induction false} HexExact(s: Bytes)
    ensures ParseHex(s) == if Numeral(s, 16) then Some(Number(s, 16)) else None
  {
    if |s| > 0 {
      NumberSplit(s, 16);
      HexExact(s[..|s| - 1]);
    }
  }

  function Unsigned(s: Bytes): Bytes { if |s| > 0 && (s[0] == '+' || s[0] == '-') then s[1..] else s }

  function Signed(s: Bytes): int
  {
    var n: int := Number(Unsigned(s), 10);
    if |s| > 0 && s[0] == '-' then -n else n
  }

  lemma {:induction false} PowAdd(j: nat, k: nat)
    ensures Pow2(j + k) == Pow2(j) * Pow2(k)
  {
    if j > 0 {
      PowAdd(j - 1, k);
      Doubled(Pow2(j - 1), Pow2(k));
    }
  }

  lemma Doubled(a: int, b: int)
    ensures 2 * (a * b) == 2 * a * b
  {}

  lemma Pow64()
    ensures Pow2(63) == 0x8000_0000_0000_0000 && Pow2(64) == 0x1_0000_0000_0000_0000
  {
    assert Pow2(8) == 0x100;
    PowAdd(8, 8);
    PowAdd(16, 16);
    PowAdd(32, 32);
    assert Pow2(64) == 2 * Pow2(63);
  }

  /** A signed number is digits after a sign or none, within 64 bits. */
  lemma IntExact(s: Bytes, n: int)
    ensures ParseInt(s) == Some(n) <==>
      |Unsigned(s)| > 0 && Numeral(Unsigned(s), 10) && n == Signed(s) && -0x8000_0000_0000_0000 <= n <= 0x7FFF_FFFF_FFFF_FFFF
  {
    DigitsExact(Unsigned(s), 10);
    Pow64();
  }

  lemma {:induction false} DigitsShort(n: nat)
    ensures Numeral(Digits(n), 10) && Number(Digits(n), 10) == n && (Digits(n)[0] == '0' <==> n == 0)
    ensures n == 0 ==> |Digits(n)| == 1
  {
    if n >= 10 {
      DigitsShort(n / 10);
      NumberSplit(Digits(n), 10);
      assert Digits(n)[..|Digits(n)| - 1] == Digits(n / 10);
    } else {
      assert Number(Digits(n)[1..], 10) == 0 && Power(10, 0) == 1;
    }
  }

  /** A number is written as it must be: with a sign exactly if it is negative, without leading
      zeros, and with digits that come to it. */
  lemma IntWritten(n: int)
    ensures var s := FormatInt(n); var digits := if n < 0 then s[1..] else s;
      && (s[0] == '-' <==> n < 0) && |digits| > 0 && Numeral(digits, 10) && Signed(s) == n
      && (digits[0] == '0' ==> |digits| == 1 && n == 0)
  {
    DigitsShort(if n < 0 then -n else n);
    if n < 0 { assert FormatInt(n)[1..] == Digits(-n); }
    assert n >= 0 ==> DigitValue(FormatInt(n)[0]) < 10;
  }

  /** An unsigned number is hexadecimal after 0x or 0X and decimal otherwise, without a sign. */
  lemma UintExact(s: Bytes, u: nat)
    ensures var hex := |s| >= 2 && s[0] == '0' && (s[1] == 'x' || s[1] == 'X');
      var digits, base := if hex then s[2..] else s, if hex then 16 else 10;
      DecodeVal(KUint(64), s) == Ok(VUint(u)) <==>
        |digits| > 0 && Numeral(digits, base) && u == Number(digits, base) < 0x1_0000_0000_0000_0000
  {
    var hex := |s| >= 2 && s[0] == '0' && (s[1] == 'x' || s[1] == 'X');
    var digits, base := if hex then s[2..] else s, if hex then 16 else 10;
    DigitsExact(digits, base);
    Pow64();
    if ParseUint(digits, base).Some? { TruncateNone(ParseUint(digits, base).value, 64, false); }
  }

  /** A narrower field keeps the number in its range that differs by a multiple of 2^bits. */
  lemma TruncateExact(n: int, bits: Bits, signed: bool) returns (q: int)
    ensures Truncate(n, bits, signed) == n - q * Pow2(bits)
    ensures if signed then -Pow2(bits - 1) <= Truncate(n, bits, signed) < Pow2(bits - 1)
            else 0 <= Truncate(n, bits, signed) < Pow2(bits)
  {
    PowPositive(bits);
    PowPositive(bits - 1);
    var m := Pow2(bits);
    q := n / m;
    assert n == q * m + n % m;
    if signed && n % m >= Pow2(bits - 1) {
      assert (q + 1) * m == q * m + m;
      q := q + 1;
    }
  }

  /** Whatever is read is a value of its kind, within its range. */
  lemma DecodedHasKind(k: Kind, s: Bytes)
    ensures DecodeVal(k, s).Ok? ==> HasKind(DecodeVal(k, s).value, k)
  {
    if k.KInt? && ParseInt(s).Some? { var q := TruncateExact(ParseInt(s).value, k.bits, true); }
    if k.KUint? && DecodeVal(k, s).Ok? {
      var hex := |s| >= 2 && s[0] == '0' && (s[1] == 'x' || s[1] == 'X');
      var q := TruncateExact(ParseUint(if hex then s[2..] else s, if hex then 16 else 10).value, k.bits, false);
    }
    if k.KUnixTime? && ParseInt(s).Some? {
      Pow64();
      IntExact(s, ParseInt(s).value);
    }
  }

  /** Each byte is that of two digits. */
  predicate DigestOf(s: Bytes, v: Bytes)
    requires |s| == 2 * |v|
  {
    forall i :: 0 <= i < |v| ==> v[i] as int == 16 * DigitValue(s[2 * i]) + DigitValue(s[2 * i + 1])
  }

  /** A digest is one byte for every two hexadecimal digits. */
  lemma {:induction false} DigestExact(s: Bytes, v: Bytes)
    ensures DecodeHex(s) == Some(v) <==> |s| == 2 * |v| && Numeral(s, 16) && DigestOf(s, v)
  {
    if |s| >= 2 && |v| > 0 {
      DigestExact(s[2..], v[1..]);
      DigestFirst(s, v);
      DecodeFirst(s, v);
    }
  }

  lemma DecodeFirst(s: Bytes, v: Bytes)
    requires |s| >= 2 && |v| > 0
    ensures DecodeHex(s) == Some(v) <==>
      && DigitValue(s[0]) < 16 && DigitValue(s[1]) < 16 && v[0] as int == 16 * DigitValue(s[0]) + DigitValue(s[1])
      && DecodeHex(s[2..]) == Some(v[1..])
  {
    DigitRead(s[0]);
    DigitRead(s[1]);
    DecodeStep(s);
    if DigitValue(s[0]) < 16 && DigitValue(s[1]) < 16 && DecodeHex(s[2..]).Some? {
      FirstAndRest(ToByte(16 * DigitValue(s[0]) + DigitValue(s[1])), DecodeHex(s[2..]).value, v);
    }
  }

  lemma DigitRead(c: Byte)
    ensures Unhex(c) == if DigitValue(c) < 16 then Some(DigitValue(c)) else None
  {}

  lemma DecodeStep(s: Bytes)
    requires |s| >= 2
    ensures Unhex(s[0]).None? || Unhex(s[1]).None? || DecodeHex(s[2..]).None? ==> DecodeHex(s).None?
    ensures Unhex(s[0]).Some? && Unhex(s[1]).Some? && DecodeHex(s[2..]).Some? ==>
      DecodeHex(s) == Some([ToByte(16 * Unhex(s[0]).value + Unhex(s[1]).value)] + DecodeHex(s[2..]).value)
  {}

  lemma FirstAndRest<T>(a: T, rest: seq<T>, v: seq<T>)
    requires |v| > 0
    ensures [a] + rest == v <==> v[0] == a && rest == v[1..]
  {
    assert v == [v[0]] + v[1..];
  }

  lemma DigestFirst(s: Bytes, v: Bytes)
    requires |s| >= 2 && |v| > 0
    ensures Numeral(s, 16) <==> DigitValue(s[0]) < 16 && DigitValue(s[1]) < 16 && Numeral(s[2..], 16)
    ensures |s| == 2 * |v| ==>
      (DigestOf(s, v) <==> v[0] as int == 16 * DigitValue(s[0]) + DigitValue(s[1]) && DigestOf(s[2..], v[1..]))
  {
    assert forall i :: 2 <= i < |s| ==> s[i] == s[2..][i - 2];
    if |s| == 2 * |v| { DigestRest(s, v); }
  }

  lemma DigestRest(s: Bytes, v: Bytes)
    requires |s| == 2 * |v| && |v| > 0
    ensures DigestOf(s, v) <==> v[0] as int == 16 * DigitValue(s[0]) + DigitValue(s[1]) && DigestOf(s[2..], v[1..])
  {
    assert forall i :: 0 <= i < |v[1..]| ==> v[1..][i] == v[i + 1] && s[2..][2 * i] == s[2 * (i + 1)] && s[2..][2 * i + 1] == s[2 * (i + 1) + 1];
    assert forall i :: 1 <= i < |v| ==> v[i] == v[1..][i - 1] && s[2 * i] == s[2..][2 * (i - 1)] && s[2 * i + 1] == s[2..][2 * (i - 1) + 1];
  }

  // Escapes

  /** UTF-8 is a bijection: every code point but the surrogates has a sequence, of which it
      is what is decoded. */
  lemma RuneHasSequence(r: int)
    requires 0 <= r < 0xD800 || 0xE000 <= r < 0x110000
    ensures ValidRune(r) && SequenceLength(EncodeRune(r)) == |EncodeRune(r)| && DecodeRune(EncodeRune(r)).0 == r
  {
    if r >= 0x10000 { Sequence4(r, r / 0x40); }
    else if r >= 0x800 { Sequence3(r, r / 0x40); }
    else if r >= 0x80 { Sequence2(r); }
  }

  lemma Sequence2(r: int)
    requires 0x80 <= r < 0x800
    ensures SequenceLength(EncodeRune(r)) == 2 && DecodeRune(EncodeRune(r)).0 == r
  {
    assert EncodeRune(r)[1] as int == 0x80 + r % 0x40;
  }

  lemma Sequence3(r: int, q: int)
    requires 0x800 <= r < 0x10000 && (r < 0xD800 || 0xE000 <= r) && q == r / 0x40
    ensures SequenceLength(EncodeRune(r)) == 3 && DecodeRune(EncodeRune(r)).0 == r
  {
    var s := EncodeRune(r);
    assert r / 0x1000 == q / 0x40;
    assert s[0] as int == 0xE0 + q / 0x40 && s[1] as int == 0x80 + q % 0x40 && s[2] as int == 0x80 + r % 0x40;
  }

  lemma Sequence4(r: int, q: int)
    requires 0x10000 <= r < 0x110000 && q == r / 0x40
    ensures SequenceLength(EncodeRune(r)) == 4 && DecodeRune(EncodeRune(r)).0 == r
  {
    var s, p := EncodeRune(r), q / 0x40;
    assert r / 0x1000 == p && r / 0x40000 == p / 0x40;
    assert s[0] as int == 0xF0 + p / 0x40 && s[1] as int == 0x80 + p % 0x40;
    assert s[2] as int == 0x80 + q % 0x40 && s[3] as int == 0x80 + r % 0x40;
  }

  /** The letters that stand for a control character, the backslash and the quote. */
  lemma LetterEscapes(i: nat, t: Bytes)
    requires i < 9
    ensures UnquoteChar(['\\', "abfnrtv\\\""[i]] + t) == Some(([ToByte([7, 8, 12, 10, 13, 9, 11, 92, 34][i])], t))
  {
    assert (['\\', "abfnrtv\\\""[i]] + t)[2..] == t;
  }

  /** Two hexadecimal digits after x are a byte; four after u and eight after U are a code
      point that is not a surrogate. */
  lemma HexEscapes(kind: Byte, digits: Bytes, t: Bytes)
    requires (kind == 'x' && |digits| == 2) || (kind == 'u' && |digits| == 4) || (kind == 'U' && |digits| == 8)
    ensures var r := UnquoteChar(['\\', kind] + (digits + t));
      && (r.Some? <==> Numeral(digits, 16) && (kind == 'x' || Number(digits, 16) < 0xD800 || 0xE000 <= Number(digits, 16) < 0x110000))
      && (r.Some? && kind == 'x' ==> Number(digits, 16) < 256 && r.value == ([ToByte(Number(digits, 16))], t))
      && (r.Some? && kind != 'x' ==> ValidRune(Number(digits, 16)) && r.value == (EncodeRune(Number(digits, 16)), t))
  {
    var s: Bytes := ['\\', kind] + (digits + t);
    assert s[2..] == digits + t;
    UnquoteEscape(s, kind, |digits|);
    HexTaken(digits, t);
  }

  lemma HexTaken(digits: Bytes, t: Bytes)
    ensures var r, k := UnquoteHex(digits + t, |digits|), |digits|;
      && (r.Some? <==> Numeral(digits, 16) && (k == 2 || Number(digits, 16) < 0xD800 || 0xE000 <= Number(digits, 16) < 0x110000))
      && (r.Some? && k == 2 ==> Number(digits, 16) < 256 && r.value == ([ToByte(Number(digits, 16))], t))
      && (r.Some? && k != 2 ==> ValidRune(Number(digits, 16)) && r.value == (EncodeRune(Number(digits, 16)), t))
  {
    assert (digits + t)[..|digits|] == digits && (digits + t)[|digits|..] == t;
    HexExact(digits);
    if |digits| == 2 && Numeral(digits, 16) { TwoDigits(digits); }
  }

  lemma TwoDigits(digits: Bytes)
    requires |digits| == 2
    ensures Number(digits, 16) == 16 * DigitValue(digits[0]) + DigitValue(digits[1])
  {
    assert digits[1..][1..] == [];
    assert Power(16, 0) == 1 && Power(16, 1) == 16;
    assert Number(digits[1..], 16) == DigitValue(digits[1]);
  }

  /** Three octal digits are a byte. */
  lemma OctalEscapes(a: Byte, b: Byte, c: Byte, t: Bytes)
    requires DigitValue(a) < 8
    ensures var r, n := UnquoteChar(['\\', a, b, c] + t), 64 * DigitValue(a) + 8 * DigitValue(b) + DigitValue(c);
      && (r.Some? <==> DigitValue(b) < 8 && DigitValue(c) < 8 && n < 256)
      && (r.Some? ==> r.value == ([ToByte(n)], t))
  {
    var s: Bytes := ['\\', a, b, c] + t;
    assert s[2..] == [b, c] + t && s[2..][2..] == t;
  }

  /** Nothing else may follow a backslash, and an escape must be complete. */
  lemma OtherEscapes(s: Bytes)
    requires |s| > 0 && s[0] == '\\'
    ensures UnquoteChar(s).Some? ==> |s| >= 2 && (s[1] in "abfnrtv\\\"xuU" || DigitValue(s[1]) < 8)
    ensures UnquoteChar(s).Some? && s[1] == 'x' ==> |s| >= 4
    ensures UnquoteChar(s).Some? && s[1] == 'u' ==> |s| >= 6
    ensures UnquoteChar(s).Some? && s[1] == 'U' ==> |s| >= 10
    ensures UnquoteChar(s).Some? && DigitValue(s[1]) < 8 ==> |s| >= 4
  {}

  /** A byte that is no part of a UTF-8 sequence becomes the replacement character; anything
      else but quotes and backslashes stands for itself. */
  lemma PlainExact(s: Bytes)
    requires |s| > 0 && s[0] != '\\'
    ensures s[0] == '\"' <==> UnquoteChar(s).None?
    ensures s[0] != '\"' && SequenceLength(s) == 0 ==>
      UnquoteChar(s) == Some(([ToByte(0xEF), ToByte(0xBF), ToByte(0xBD)], s[1..]))
    ensures s[0] != '\"' && SequenceLength(s) > 0 ==>
      UnquoteChar(s) == Some((s[..SequenceLength(s)], s[SequenceLength(s)..]))
  {
    if SequenceLength(s) > 0 { RuneRoundTrip(s); }
  }

  // What Quote writes

  lemma DigitWritten(d: nat)
    requires d < 16
    ensures HexDigit(d) == "0123456789abcdef"[d]
  {}

  /** Control characters that have a letter are written with it. */
  lemma LettersWritten(i: nat, t: Bytes, isPrint: int -> bool)
    requires i < 7
    ensures QuoteRune([ToByte([7, 8, 12, 10, 13, 9, 11][i])] + t, isPrint) == ['\\', "abfnrtv"[i]]
  {}

  /** Other ASCII characters are written as they are from space to tilde, with a backslash before
      quotes and backslashes, and as a byte otherwise. */
  lemma AsciiWritten(c: Byte, t: Bytes, isPrint: int -> bool)
    requires c as int < 0x80 && c as int !in [7, 8, 12, 10, 13, 9, 11]
    ensures QuoteRune([c] + t, isPrint) ==
      if c == '\"' || c == '\\' then ['\\', c]
      else if ' ' <= c <= '~' then [c]
      else ['\\', 'x', "0123456789abcdef"[c as int / 16], "0123456789abcdef"[c as int % 16]]
  {
    var s := [c] + t;
    assert s[..1] == [c] && SequenceLength(s) == 1 && DecodeRune(s) == (c as int, 1);
    ByteWritten(c);
    assert Letter(c as int).None?;
  }

  lemma ByteWritten(c: Byte)
    ensures Hex(c as int, 2) == ["0123456789abcdef"[c as int / 16], "0123456789abcdef"[c as int % 16]]
  {
    HexPair(c as int);
    DigitWritten(c as int / 16);
    DigitWritten(c as int % 16);
  }

  /** Longer sequences are written as they are if they are printable, and otherwise as a code
      point of four digits, or of eight for a sequence of four bytes; bytes that belong to no
      sequence are written as such. */
  lemma WideWritten(s: Bytes, isPrint: int -> bool)
    requires |s| > 0 && s[0] as int >= 0x80
    ensures QuoteRune(s, isPrint) ==
      var n, r := SequenceLength(s), DecodeRune(s).0;
      if n == 0 then ['\\', 'x', "0123456789abcdef"[s[0] as int / 16], "0123456789abcdef"[s[0] as int % 16]]
      else if isPrint(r) then s[..n]
      else if n <= 3 then ['\\', 'u'] + Hex(r, 4)
      else ['\\', 'U'] + Hex(r, 8)
  {
    ByteWritten(s[0]);
    if SequenceLength(s) == 2 { RoundTrip2(s); }
    if SequenceLength(s) == 3 { RoundTrip3(s); }
    if SequenceLength(s) == 4 { RoundTrip4(s); }
  }

  // The closing quote

  /** There is an odd number of backslashes right before s[i]. */
  predicate Escaped(s: Bytes, i: nat)
    requires i <= |s|
  {
    i > 0 && s[i - 1] == '\\' && !Escaped(s, i - 1)
  }

  predicate Closing(s: Bytes, i: nat) { i < |s| && s[i] == '\"' && !Escaped(s, i) }

  /** The scan stops after the first quote that is not escaped. */
  lemma ClosingQuote(s: Bytes, n: nat)
    ensures Scan(s) == Some(n) <==> n > 0 && Closing(s, n - 1) && forall i :: 0 <= i < n - 1 ==> !Closing(s, i)
  {
    assert s[0..] == s;
    ScanFrom(s, 0, n);
  }

  lemma {:induction false} ScanFrom(s: Bytes, k: nat, n: nat)
    requires k <= |s| && !Escaped(s, k)
    ensures Shift(Scan(s[k..]), k) == Some(n) <==> n > k && Closing(s, n - 1) && forall i :: k <= i < n - 1 ==> !Closing(s, i)
    decreases |s| - k
  {
    if k < |s| {
      if s[k] == '\"' {
        assert Closing(s, k);
      } else if s[k] != '\\' {
        assert s[k..][1..] == s[k + 1..];
        ScanFrom(s, k + 1, n);
        assert !Closing(s, k);
      } else if k + 1 < |s| {
        assert s[k..][2..] == s[k + 2..];
        ScanFrom(s, k + 2, n);
        assert Escaped(s, k + 1);
        assert !Closing(s, k) && !Closing(s, k + 1);
      }
    }
  }

  /** The scan of s stops where rest is left over, on the same line. */
  predicate EndsAt(s: Bytes, rest: Bytes)
  {
    |rest| < |s| && Scan(s) == Some(|s| - |rest|) && '\n' !in s[..|s| - |rest|]
  }

  /** What Unquote accepts is one quoted text on one line: the scan ends where it does. */
  lemma {:induction false} UnquoteEnds(s: Bytes)
    ensures UnquoteBody(s).Some? ==> EndsAt(s, UnquoteBody(s).value.1)
    decreases |s|
  {
    if |s| > 0 && s[0] != '\"' && UnquoteChar(s).Some? {
      var n := CharPassed(s);
      UnquoteEnds(s[n..]);
      if UnquoteBody(s).Some? {
        assert UnquoteBody(s).value.1 == UnquoteBody(s[n..]).value.1;
        EndsMore(s, n, UnquoteBody(s[n..]).value.1);
      }
    }
  }

  lemma EndsMore(s: Bytes, n: nat, rest: Bytes)
    requires n <= |s| && EndsAt(s[n..], rest) && Scan(s) == Shift(Scan(s[n..]), n) && '\n' !in s[..n]
    ensures EndsAt(s, rest)
  {
    InTwoParts(s, n, |s[n..]| - |rest|);
  }

  lemma InTwoParts(s: Bytes, n: nat, m: nat)
    requires n + m <= |s|
    ensures '\n' !in s[..n] && '\n' !in s[n..][..m] ==> '\n' !in s[..n + m]
  {
    assert s[..n + m] == s[..n] + s[n..][..m];
  }

  /** A character of a quoted text takes bytes that the scan passes over. */
  lemma CharPassed(s: Bytes) returns (n: nat)
    requires |s| > 0 && s[0] != '\"' && UnquoteChar(s).Some?
    ensures 0 < n <= |s| && UnquoteChar(s).value.1 == s[n..] && Scan(s) == Shift(Scan(s[n..]), n)
    ensures s[0] != '\n' ==> '\n' !in s[..n]
  {
    if s[0] == '\\' { n := EscapePassed(s); } else { n := PlainPassed(s); }
    assert s == s[..n] + s[n..];
    ScanPassed(s[..n], s[n..]);
  }

  lemma PlainPassed(s: Bytes) returns (n: nat)
    requires |s| > 0 && s[0] != '\"' && s[0] != '\\'
    ensures 0 < n <= |s| && UnquoteChar(s).Some? && UnquoteChar(s).value.1 == s[n..] && Passed(s[..n])
    ensures s[0] != '\n' ==> '\n' !in s[..n]
  {
    PlainExact(s);
    n := if SequenceLength(s) == 0 then 1 else SequenceLength(s);
  }

  lemma EscapePassed(s: Bytes) returns (n: nat)
    requires |s| > 0 && s[0] == '\\' && UnquoteChar(s).Some?
    ensures 0 < n <= |s| && UnquoteChar(s).value.1 == s[n..] && Passed(s[..n]) && '\n' !in s[..n]
  {
    var k := if s[1] == 'x' then 2 else if s[1] == 'u' then 4 else if s[1] == 'U' then 8 else 0;
    if k > 0 {
      n := 2 + k;
      UnquoteEscape(s, s[1], k);
      HexExact(s[2..][..k]);
      DigitsPassed(s, k);
    } else if '0' <= s[1] <= '7' {
      n := 4;
    } else {
      n := 2;
    }
  }

  lemma DigitsPassed(s: Bytes, k: nat)
    requires |s| >= 2 + k && s[0] == '\\' && s[1] != '\n' && Numeral(s[2..][..k], 16)
    ensures Passed(s[..2 + k]) && '\n' !in s[..2 + k] && s[2..][k..] == s[2 + k..]
  {
    assert s[..2 + k][2..] == s[2..][..k];
  }

  lemma UnquoteExact(s: Bytes)
    ensures Unquote(s).Some? ==> |s| >= 2 && s[0] == '\"' && '\n' !in s && Scan(s[1..]) == Some(|s| - 1)
  {
    if |s| >= 2 {
      UnquoteEnds(s[1..]);
      assert s == [s[0]] + s[1..];
    }
  }

  /** A string is written as it is exactly if all of it is letters, digits and -_./:+ */
  lemma BareExact(s: Bytes, isPrint: int -> bool)
    ensures QuoteStr(s, isPrint) == s <==> forall i :: 0 <= i < |s| ==> Harmless(s[i])
    ensures QuoteStr(s, isPrint) == s || QuoteStr(s, isPrint) == Quote(s, isPrint)
  {
    assert forall i :: 0 <= i < |s| ==> (Harmless(s[i]) <==> IsBareRune(s[i]));
    QuoteGrows(s, isPrint);
  }

  predicate Harmless(c: Byte)
  {
    var n := c as int;
    97 <= n <= 122 || 65 <= n <= 90 || 48 <= n <= 57 || n == 45 || n == 95 || n == 46 || n == 47 || n == 58 || n == 43
  }

  lemma {:induction false} QuoteGrows(s: Bytes, isPrint: int -> bool)
    ensures |QuoteBody(s, isPrint)| >= |s|
    decreases |s|
  {
    if |s| > 0 {
      RuneWidth(s);
      QuoteGrows(s[DecodeRune(s).1..], isPrint);
      RuneGrows(s, isPrint);
    }
  }

  lemma RuneGrows(s: Bytes, isPrint: int -> bool)
    requires |s| > 0
    ensures |QuoteRune(s, isPrint)| >= DecodeRune(s).1
  {}
}
