/** Which hashes come back from a line. Their text is written as it is, without quotes, and
    read like any other value, so an algorithm may look like a delimiter, a quoted string
    or a line end. */
module KvHash {
  import opened Options
  import opened KvText
  import opened KvQuote
  import opened KvValue
  import opened KvObject

  /** The line on which a text starts, as Unmarshal trims it. */
  function LineOf(text: Bytes): Bytes
    requires |text| > 0
  {
    FirstLineExists(text);
    TrimRight(Lines(text)[0], LINE_ENDS)
  }

  lemma FirstLineExists(text: Bytes)
    requires |text| > 0
    ensures |Lines(text)| > 0
  {}

  /** What the value at the start of a line is decoded as. */
  function ReadHash(line: Bytes): Result<Value>
  {
    match CutValue(line)
    case Err(e) => Err(e)
    case Ok((token, rest)) => DecodeHash(token)
  }

  // Lines and blanks

  lemma LinePrefix(text: Bytes)
    requires |text| > 0
    ensures LineOf(text) <= text && '\n' !in LineOf(text)
  {
    var line, t := Lines(text)[0], LineOf(text);
    EndsLine(text);
    var tail := TrimRightCuts(line, LINE_ENDS);
    TrimRightEnds(line, LINE_ENDS);
    assert t <= line <= text;
    forall i | 0 <= i < |t|
      ensures t[i] != '\n'
    {
      assert t[i] == line[i];
    }
  }

  lemma EndsLine(text: Bytes)
    requires |text| > 0
    ensures Lines(text)[0] <= text
    ensures forall i :: 0 <= i < |Lines(text)[0]| && Lines(text)[0][i] == '\n' ==> i == |Lines(text)[0]| - 1
  {
    CutShortens(text, '\n');
    if Cut(text, '\n').None? { NoCut(text, '\n'); }
  }

  lemma {:induction false} NoCut(s: Bytes, at: Byte)
    requires Cut(s, at).None?
    ensures at !in s
  {
    if |s| > 0 { NoCut(s[1..], at); }
  }

  lemma {:induction false} CutNone(s: Bytes, at: Byte)
    requires at !in s
    ensures Cut(s, at).None?
  {
    if |s| > 0 { CutNone(s[1..], at); }
  }

  lemma {:induction false} TrimLeftSplit(s: Bytes) returns (p: nat)
    ensures p <= |s| && s[p..] == TrimLeft(s) && forall i :: 0 <= i < p ==> s[i] in BLANKS
    ensures p < |s| ==> s[p] !in BLANKS
  {
    p := 0;
    if |s| > 0 && s[0] in BLANKS {
      var q := TrimLeftSplit(s[1..]);
      p := q + 1;
      assert s[1..][q..] == s[p..];
    }
  }

  // A good algorithm

  lemma {:induction false} TrimRightKeeps(s: Bytes, rest: Bytes, cut: set<char>) returns (more: Bytes)
    requires |s| > 0 && s[|s| - 1] !in cut
    ensures more <= rest && TrimRight(s + rest, cut) == s + more
  {
    more := rest;
    if |rest| > 0 && rest[|rest| - 1] in cut {
      assert (s + rest)[..|s + rest| - 1] == s + rest[..|rest| - 1];
      more := TrimRightKeeps(s, rest[..|rest| - 1], cut);
    } else if |rest| == 0 {
      assert s + rest == s;
    }
  }

  lemma HashEndsBare(alg: Bytes, val: Bytes)
    requires alg != []
    ensures var h := HashString(alg, val);
      |h| > |alg| && h[..|alg|] == alg && h[|alg|] == ':' && h[|h| - 1] !in LINE_ENDS && AllBare(h[|alg|..])
  {
    HexStringBare(val);
    var h := HashString(alg, val);
    assert h[|alg|..] == [':'] + HexString(val);
    assert h[|h| - 1] == h[|alg|..][|h| - |alg| - 1];
  }

  lemma GoodHashRead(alg: Bytes, val: Bytes, rest: Bytes)
    requires alg != [] && IsToken(alg) && ':' !in alg && '\n' !in rest && EndsToken(rest)
    ensures ReadHash(LineOf(HashString(alg, val) + rest)) == Ok(VHash(alg, val))
  {
    var h := HashString(alg, val);
    HashEndsBare(alg, val);
    assert h == alg + h[|alg|..];
    assert Free(h, DELIMITERS) && '\n' !in h;
    assert '\n' !in h + rest;
    CutNone(h + rest, '\n');
    var more := TrimRightKeeps(h, rest, LINE_ENDS);
    CutBareToken(h, more);
    assert (h + more)[0] == h[0] == alg[0] && TrimLeft(h + more) == h + more;
    assert CutValue(h + more) == Ok((h, more));
    HashRoundTripExact(alg, val);
  }

  // A bad one

  /** The text that a decoded hash was read from. */
  lemma DecodedFrom(token: Bytes, alg: Bytes, val: Bytes)
    requires alg != [] && DecodeHash(token) == Ok(VHash(alg, val))
    ensures ':' !in alg && alg + [':'] <= token
  {
    CutShortens(token, ':');
  }

  predicate Ascii(s: Bytes) { forall i :: 0 <= i < |s| ==> s[i] as int < 0x80 }

  lemma {:induction false} HexAscii(s: Bytes)
    requires ParseHex(s).Some?
    ensures Ascii(s) && ':' !in s
  {
    if |s| > 0 {
      HexAscii(s[..|s| - 1]);
      assert s == s[..|s| - 1] + [s[|s| - 1]];
    }
  }

  /** An escape is ASCII, holds no colon, and is no shorter than what it stands for. */
  lemma EscapeShrinks(q: Bytes) returns (k: nat)
    requires |q| > 0 && q[0] == '\\' && UnquoteChar(q).Some?
    ensures 2 <= k <= |q| && UnquoteChar(q).value.1 == q[k..] && |UnquoteChar(q).value.0| <= k
    ensures Ascii(q[..k]) && ':' !in q[..k]
  {
    if q[1] == 'x' {
      k := HexShrinks(q, 2);
    } else if q[1] == 'u' {
      k := HexShrinks(q, 4);
    } else if q[1] == 'U' {
      k := HexShrinks(q, 8);
    } else if '0' <= q[1] <= '7' {
      k := 4;
      assert q[2..][2..] == q[4..];
    } else {
      k := 2;
    }
  }

  lemma HexShrinks(q: Bytes, digits: nat) returns (k: nat)
    requires |q| >= 2 && q[0] == '\\' && q[1] in {'x', 'u', 'U'} && UnquoteHex(q[2..], digits).Some?
    requires digits == 2 || digits == 4 || digits == 8
    ensures k == digits + 2 <= |q| && UnquoteHex(q[2..], digits).value.1 == q[k..]
    ensures |UnquoteHex(q[2..], digits).value.0| <= k
    ensures Ascii(q[..k]) && ':' !in q[..k]
  {
    k := digits + 2;
    HexAscii(q[2..][..digits]);
    assert q[2..][digits..] == q[k..];
    assert q[..k] == [q[0], q[1]] + q[2..][..digits];
  }

  /** A byte outside ASCII stands for something that starts with one. */
  lemma RawStarts(q: Bytes)
    requires |q| > 0 && q[0] as int >= 0x80 && UnquoteChar(q).Some?
    ensures var out := UnquoteChar(q).value.0; |out| > 0 && out[0] as int >= 0x80
  {
    if SequenceLength(q) > 0 { RuneRoundTrip(q); }
  }

  /** Unquoting never catches up with its input. The input is what follows a front in the
      algorithm: of the algorithm, i bytes after the front have been read and o have come
      out, q is what is left to read, and all that was read is ASCII. */
  ghost predicate Behind(alg: Bytes, front: nat, i: nat, o: nat, q: Bytes, tail: Bytes)
  {
    && 0 < front && front + i <= |alg| && o <= i && Ascii(alg[..front + i])
    && q <= alg[front + i..] + ([':'] + tail)
  }

  /** So what comes out is not the algorithm and a colon: the colon that follows the
      algorithm is read before the algorithm has come out. */
  lemma {:induction false} NeverCatchesUp(alg: Bytes, front: nat, i: nat, o: nat, q: Bytes, tail: Bytes)
    requires Behind(alg, front, i, o, q, tail) && ':' !in alg
    ensures UnquoteBody(q).Some? ==> !(alg[o..] + [':'] <= UnquoteBody(q).value.0)
    decreases |q|
  {
    assert |alg[o..] + [':']| > 0;
    if |q| > 0 && q[0] != '\"' && UnquoteBody(q).Some? {
      var (out, rest) := UnquoteChar(q).value;
      UnquoteShortens(q);
      var more := UnquoteBody(rest).value.0;
      assert UnquoteBody(q).value.0 == out + more;
      if front + i == |alg| {
        assert q[0] == ':' && out == [':'];
        FirstDiffers(alg, o, out, more);
      } else {
        assert q[0] == alg[front + i];
        if q[0] as int >= 0x80 {
          RawStarts(q);
          assert alg[o] == alg[..front + i][o];
          FirstDiffers(alg, o, out, more);
        } else {
          var k := 1;
          if q[0] == '\\' { k := EscapeShrinks(q); }
          ReadMore(alg, front, i, o, q, tail, k, |out|);
          NeverCatchesUp(alg, front, i + k, o + |out|, rest, tail);
          OutMore(alg, o, out, more);
        }
      }
    }
  }

  lemma FirstDiffers(alg: Bytes, o: nat, out: Bytes, more: Bytes)
    requires o < |alg| && |out| > 0 && out[0] != alg[o]
    ensures !(alg[o..] + [':'] <= out + more)
  {
    assert (alg[o..] + [':'])[0] == alg[o] != (out + more)[0];
  }

  lemma InPrefix(a: Bytes, s: Bytes, at: nat)
    requires a <= s && at < |s|
    ensures at < |a| ==> s[at] in a
  {
    if at < |a| { assert a[at] == s[at]; }
  }

  lemma ReadMore(alg: Bytes, front: nat, i: nat, o: nat, q: Bytes, tail: Bytes, k: nat, n: nat)
    requires Behind(alg, front, i, o, q, tail) && front + i < |alg|
    requires 1 <= k <= |q| && n <= k && Ascii(q[..k]) && ':' !in q[..k]
    ensures Behind(alg, front, i + k, o + n, q[k..], tail)
  {
    var input := alg[front + i..] + ([':'] + tail);
    var left := |alg| - front - i;
    InPrefix(q[..k], input, left);
    assert forall j :: 0 <= j < k ==> alg[front + i + j] == input[j] == q[..k][j];
    assert alg[..front + i + k] == alg[..front + i] + q[..k];
    assert input[k..] == alg[front + i + k..] + ([':'] + tail);
  }

  lemma OutMore(alg: Bytes, o: nat, out: Bytes, more: Bytes)
    requires o + |out| <= |alg|
    ensures alg[o..] + [':'] <= out + more ==> alg[o + |out|..] + [':'] <= more
  {
    var want := alg[o..] + [':'];
    if want <= out + more {
      assert want[|out|..] == alg[o + |out|..] + [':'];
      assert want[|out|..] <= (out + more)[|out|..] == more;
    }
  }

  /** A token that was quoted on its line is not the text of a hash with that algorithm. */
  lemma QuotedIsOther(alg: Bytes, tail: Bytes, line: Bytes, p: nat, n: nat)
    requires line <= alg + ([':'] + tail) && p < |line| && line[p] == '\"' && ':' !in alg
    requires forall i :: 0 <= i < p ==> line[i] in BLANKS
    requires p + n + 1 <= |line| && Unquote(line[p..][..n + 1]).Some?
    ensures !(alg + [':'] <= Unquote(line[p..][..n + 1]).value)
  {
    var input := alg + ([':'] + tail);
    InPrefix(line[..p + 1], input, |alg|);
    assert ':' !in line[..p + 1];
    var q := line[p..][..n + 1][1..];
    assert q == line[p + 1..p + n + 1];
    assert input[p + 1..] == alg[p + 1..] + ([':'] + tail);
    assert q <= input[p + 1..];
    assert forall i :: 0 <= i <= p ==> alg[i] == line[i];
    assert Behind(alg, p + 1, 0, 0, q, tail);
    NeverCatchesUp(alg, p + 1, 0, 0, q, tail);
    assert alg[0..] == alg;
  }

  lemma BareIsToken(t: Bytes, alg: Bytes)
    requires alg + [':'] <= CutBare(t).0
    ensures '\n' !in t ==> IsToken(alg)
  {
    var token := CutBare(t).0;
    CutBareSplits(t);
    forall i | 0 <= i < |alg|
      ensures alg[i] == token[i] == t[i]
    {
      assert (alg + [':'])[i] == alg[i];
    }
  }

  lemma TokenIsToken(line: Bytes, p: nat, alg: Bytes, tail: Bytes)
    requires p <= |line| && line[p..] == TrimLeft(line) && forall i :: 0 <= i < p ==> line[i] in BLANKS
    requires line <= alg + ([':'] + tail) && '\n' !in line && ':' !in alg
    requires CutValue(line).Ok? && alg + [':'] <= CutValue(line).value.0
    ensures IsToken(alg)
  {
    var t := line[p..];
    if t[0] == '\"' {
      var n := Scan(t[1..]).value;
      assert CutValue(line).value.0 == Unquote(t[..n + 1]).value;
      QuotedIsOther(alg, tail, line, p, n);
    } else {
      BareIsToken(t, alg);
      assert forall i :: 0 <= i < |t| ==> t[i] == line[p + i];
    }
  }

  lemma ReadFromToken(line: Bytes, alg: Bytes, val: Bytes, tail: Bytes)
    requires line <= alg + ([':'] + tail) && '\n' !in line && alg != []
    requires ReadHash(line) == Ok(VHash(alg, val))
    ensures IsToken(alg) && ':' !in alg
  {
    var p := TrimLeftSplit(line);
    DecodedFrom(CutValue(line).value.0, alg, val);
    TokenIsToken(line, p, alg, tail);
  }

  lemma TextParts(alg: Bytes, val: Bytes, rest: Bytes)
    requires alg != []
    ensures HashString(alg, val) + rest == alg + ([':'] + (HexString(val) + rest))
  {}

  lemma BadHashLost(alg: Bytes, val: Bytes, rest: Bytes)
    requires alg != [] && ReadHash(LineOf(HashString(alg, val) + rest)) == Ok(VHash(alg, val))
    ensures IsToken(alg) && ':' !in alg
  {
    var text := HashString(alg, val) + rest;
    LinePrefix(text);
    TextParts(alg, val, rest);
    ReadFromToken(LineOf(text), alg, val, HexString(val) + rest);
  }

  /** A hash with an algorithm comes back from the line that it is written on exactly if its
      algorithm has no colon, blank, quote, sign of equality or of a comment, and no line
      end: what the format asks of a hash is neither too much nor too little. */
  lemma HashOnLineExact(alg: Bytes, val: Bytes, rest: Bytes)
    requires alg != [] && '\n' !in rest && EndsToken(rest)
    ensures ReadHash(LineOf(HashString(alg, val) + rest)) == Ok(VHash(alg, val)) <==> Survives(KHash, VHash(alg, val))
  {
    if Survives(KHash, VHash(alg, val)) {
      GoodHashRead(alg, val, rest);
    } else if ReadHash(LineOf(HashString(alg, val) + rest)) == Ok(VHash(alg, val)) {
      BadHashLost(alg, val, rest);
    }
  }
}
