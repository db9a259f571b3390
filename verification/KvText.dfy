/** Byte strings, and the few string functions of the line format. */
module KvText {
  import opened Options

  /** A byte, shown as the character with that code. */
  type Byte = c: char | c as int < 256 witness ' '
  type Bytes = seq<Byte>

  const BLANKS: set<char> := {' ', '\t'}
  const LINE_ENDS: set<char> := {'\r', '\n', ' ', '\t'}
  const DELIMITERS: set<char> := {' ', '\t', '=', '#', '\"'}

  function TrimLeft(s: Bytes): Bytes
  {
    if |s| > 0 && s[0] in BLANKS then TrimLeft(s[1..]) else s
  }

  function TrimRight(s: Bytes, cut: set<char>): Bytes
  {
    if |s| > 0 && s[|s| - 1] in cut then TrimRight(s[..|s| - 1], cut) else s
  }

  /** Splits before the first delimiter. */
  function CutBare(s: Bytes): (Bytes, Bytes)
  {
    if |s| == 0 || s[0] in DELIMITERS then ([], s)
    else var (token, rest) := CutBare(s[1..]); ([s[0]] + token, rest)
  }

  predicate Free(s: Bytes, cut: set<char>)
  {
    forall i :: 0 <= i < |s| ==> s[i] !in cut
  }

  /** A byte that neither ends a token nor is trimmed off a line. */
  predicate Bare(c: Byte)
  {
    c != ' ' && c != '\t' && c != '=' && c != '#' && c != '\"' && c != '\r' && c != '\n'
  }

  /** A text that stays on its line and is cut off it whole. */
  predicate IsToken(s: Bytes) { Free(s, DELIMITERS) && '\n' !in s }

  predicate AllBare(s: Bytes) { forall i :: 0 <= i < |s| ==> Bare(s[i]) }

  lemma BareIsFree(s: Bytes)
    requires AllBare(s)
    ensures Free(s, DELIMITERS) && '\n' !in s && (|s| > 0 ==> s[|s| - 1] !in LINE_ENDS)
  {}

  /** Where a token may end: at the end of the line, at a blank or at a comment. */
  predicate EndsToken(rest: Bytes)
  {
    |rest| == 0 || rest[0] in BLANKS || rest[0] == '#'
  }

  lemma {:induction false} CutBareToken(token: Bytes, rest: Bytes)
    requires Free(token, DELIMITERS) && (|rest| == 0 || rest[0] in DELIMITERS)
    ensures CutBare(token + rest) == (token, rest)
  {
    if |token| > 0 {
      assert token == [token[0]] + token[1..];
      assert (token + rest)[1..] == token[1..] + rest && (token + rest)[0] == token[0];
      CutBareToken(token[1..], rest);
    } else {
      assert token + rest == rest;
    }
  }

  lemma {:induction false} CutBareSplits(s: Bytes)
    ensures var (token, rest) := CutBare(s);
      && s == token + rest && Free(token, DELIMITERS)
      && (|rest| == 0 || rest[0] in DELIMITERS)
  {
    if |s| > 0 && s[0] !in DELIMITERS { CutBareSplits(s[1..]); }
  }

  lemma TrimRightOne(s: Bytes, c: Byte, cut: set<char>)
    requires c in cut
    ensures TrimRight(s + [c], cut) == TrimRight(s, cut)
  {
    assert (s + [c])[..|s|] == s;
  }

  /** Cuts at the first occurrence of a byte; None when there is none. */
  function Cut(s: Bytes, at: Byte): Option<(Bytes, Bytes)>
  {
    if |s| == 0 then None
    else if s[0] == at then Some(([], s[1..]))
    else
      match Cut(s[1..], at)
      case None => None
      case Some((before, after)) => Some(([s[0]] + before, after))
  }

  lemma {:induction false} CutFirst(before: Bytes, at: Byte, after: Bytes)
    requires at !in before
    ensures Cut(before + [at] + after, at) == Some((before, after))
  {
    var s := before + [at] + after;
    if |before| == 0 {
      assert s[1..] == after;
    } else {
      assert before == [before[0]] + before[1..];
      assert s[1..] == before[1..] + [at] + after && s[0] == before[0];
      CutFirst(before[1..], at, after);
    }
  }

  /** The lines of a file, each with its line end if it has one. */
  function Lines(data: Bytes): (lines: seq<Bytes>)
    decreases |data|
  {
    if |data| == 0 then []
    else
      match Cut(data, '\n')
      case None => [data]
      case Some((line, rest)) =>
        CutShortens(data, '\n');
        [line + ['\n']] + Lines(rest)
  }

  lemma {:induction false} CutShortens(s: Bytes, at: Byte)
    ensures Cut(s, at).Some? ==> s == Cut(s, at).value.0 + [at] + Cut(s, at).value.1
    ensures Cut(s, at).Some? ==> |Cut(s, at).value.1| < |s| && at !in Cut(s, at).value.0
  {
    if |s| > 0 && s[0] != at {
      CutShortens(s[1..], at);
      if Cut(s[1..], at).Some? {
        var (before, after) := Cut(s[1..], at).value;
        assert s == [s[0]] + s[1..];
        assert [s[0]] + (before + [at] + after) == ([s[0]] + before) + [at] + after;
      }
    }
  }

  /** Lines terminated one by one are read back one by one. */
  function Terminated(lines: seq<Bytes>): Bytes
  {
    if |lines| == 0 then [] else lines[0] + ['\n'] + Terminated(lines[1..])
  }

  lemma {:induction false} LinesOfTerminated(lines: seq<Bytes>)
    requires forall i :: 0 <= i < |lines| ==> '\n' !in lines[i]
    ensures |Lines(Terminated(lines))| == |lines|
    ensures forall i :: 0 <= i < |lines| ==> Lines(Terminated(lines))[i] == lines[i] + ['\n']
  {
    if |lines| > 0 {
      CutFirst(lines[0], '\n', Terminated(lines[1..]));
      LinesOfTerminated(lines[1..]);
    }
  }
}
