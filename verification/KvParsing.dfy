/** What becomes of every line that Unmarshal reads, and the order that Marshal writes in. */
module KvParsing {
  import opened Options
  import opened KvText
  import opened KvQuote
  import opened KvValue
  import opened KvObject
  import opened KvLine
  import opened KvEntries
  import opened KvFile
  import opened KvHash
  import opened KvMarshal

  // One line

  /** A trimmed line that says nothing: it is blank or a comment. */
  predicate SaysNothing(line: Bytes) { |line| == 0 || line[0] == '#' }

  /** The line starts with the name of a type, and what follows describes an object of it. */
  ghost predicate HoldsObject(sc: Schema, line: Bytes)
  {
    exists i: nat, o: Obj :: HoldsThis(sc, line, i, o)
  }

  predicate HoldsThis(sc: Schema, line: Bytes, i: nat, o: Obj)
  {
    i < |sc.objs| && sc.objs[i].name == CutBare(line).0 && Describes(sc.objs[i], CutBare(line).1, o)
  }

  /** A line is skipped exactly if it says nothing, and malformed exactly if it says
      something that is not an object of a named type. */
  lemma LineExact(sc: Schema, line: Bytes)
    requires forall i, j :: 0 <= i < j < |sc.objs| ==> sc.objs[i].name != sc.objs[j].name
    ensures Reading(sc, line).Skipped? <==> SaysNothing(line)
    ensures Reading(sc, line).Malformed? <==> !SaysNothing(line) && !HoldsObject(sc, line)
    ensures forall i, o :: Reading(sc, line) == Object(i, o) <==> !SaysNothing(line) && HoldsThis(sc, line, i, o)
  {
    forall i: nat, o: Obj
      ensures Reading(sc, line) == Object(i, o) <==> !SaysNothing(line) && HoldsThis(sc, line, i, o)
    {
      if i < |sc.objs| {
        DecodeObjExact(sc.objs[i], CutBare(line).1, o);
        ObjIndexOf(sc.objs, i);
      }
    }
    if HoldsObject(sc, line) && !SaysNothing(line) {
      var i: nat, o: Obj :| HoldsThis(sc, line, i, o);
      assert Reading(sc, line) == Object(i, o);
    }
    if Reading(sc, line).Object? {
      var e := Reading(sc, line);
      assert HoldsThis(sc, line, e.index, e.obj);
    }
  }

  predicate Listed(ps: seq<Pair>, name: Bytes) { exists j :: 0 <= j < |ps| && ps[j].name == name }

  /** A property that a line does not list is optional, and has the zero value of its type. */
  lemma UnlistedExact(t: ObjType, s: Bytes, o: Obj, p: Prop, i: nat)
    requires Describes(t, s, o) && i < |t.props| && p == t.props[i]
    requires !Listed(Pairs(CutValue(s).value.1).value.0, p.name)
    ensures p.optional
    ensures match p.kind
      case KText(c) => o.props[i] == VText(c.zero)
      case KString => o.props[i] == VString([])
      case KInt(_) => o.props[i] == VInt(0)
      case KUint(_) => o.props[i] == VUint(0)
      case KUnixTime => o.props[i] == VUnixTime(0)
      case KHash => o.props[i] == VHash([], [])
  {
    var ps := Pairs(CutValue(s).value.1).value.0;
    NamesListed(ps, p.name);
    assert forall j :: 0 <= j < |ps| ==> PropIndex(t.props, ps[j].name) != Some(i);
  }

  /** The line lists the property. */
  predicate Mentions(s: Bytes, name: Bytes)
  {
    CutValue(s).Ok? && Pairs(CutValue(s).value.1).Ok? && Listed(Pairs(CutValue(s).value.1).value.0, name)
  }

  /** The comment after the listed properties. */
  function CommentIn(s: Bytes): Bytes
  {
    if CutValue(s).Ok? && Pairs(CutValue(s).value.1).Ok? then CutComment(Pairs(CutValue(s).value.1).value.1) else []
  }

  lemma RequiredIsMentioned(t: ObjType, s: Bytes, o: Obj, i: nat)
    requires Describes(t, s, o) && i < |t.props| && !t.props[i].optional
    ensures Mentions(s, t.props[i].name) && o.comment == if t.comment then CommentIn(s) else []
  {
    NamesListed(Pairs(CutValue(s).value.1).value.0, t.props[i].name);
  }

  lemma NamesListed(ps: seq<Pair>, name: Bytes)
    ensures name in Names(ps) <==> Listed(ps, name)
  {
    if name in Names(ps) { var p :| p in ps && p.name == name; }
    if j :| 0 <= j < |ps| && ps[j].name == name { assert ps[j] in ps; }
  }

  // Lines that say nothing

  /** Text that is read as one line which says nothing. */
  predicate Remark(s: Bytes)
  {
    && |s| > 0 && s[|s| - 1] == '\n' && '\n' !in s[..|s| - 1]
    && (TrimRight(s, LINE_ENDS) == [] || s[0] == '#')
  }

  lemma {:induction false} LinesAppend(a: Bytes, b: Bytes)
    requires |a| > 0 && a[|a| - 1] == '\n'
    ensures Lines(a + b) == Lines(a) + Lines(b)
    decreases |a|
  {
    CutShortens(a, '\n');
    if Cut(a, '\n').None? { NoCut(a, '\n'); }
    var (line, rest) := Cut(a, '\n').value;
    CutFirst(line, '\n', rest + b);
    assert a + b == line + ['\n'] + (rest + b);
    if |rest| == 0 {
      assert rest + b == b && Lines(rest) == [];
      assert Lines(a) == [line + ['\n']];
    } else {
      assert rest[|rest| - 1] == a[|a| - 1];
      LinesAppend(rest, b);
      assert Lines(a) == [line + ['\n']] + Lines(rest);
      assert [line + ['\n']] + (Lines(rest) + Lines(b)) == ([line + ['\n']] + Lines(rest)) + Lines(b);
    }
  }

  lemma {:induction false} TrimAllAppend(a: seq<Bytes>, b: seq<Bytes>)
    ensures TrimAll(a + b) == TrimAll(a) + TrimAll(b)
  {
    forall i | 0 <= i < |a + b| ensures TrimAll(a + b)[i] == (TrimAll(a) + TrimAll(b))[i] {
      assert (a + b)[i] == if i < |a| then a[i] else b[i - |a|];
    }
  }

  lemma RemarkIsOneLine(s: Bytes)
    requires Remark(s)
    ensures Lines(s) == [s] && SaysNothing(TrimRight(s, LINE_ENDS))
  {
    var front := s[..|s| - 1];
    assert s == front + ['\n'] + [];
    CutFirst(front, '\n', []);
    assert Lines([]) == [];
    var tail := TrimRightCuts(s, LINE_ENDS);
    var t := TrimRight(s, LINE_ENDS);
    if t != [] { assert t[0] == (t + tail)[0] == s[0]; }
    assert front + ['\n'] == s;
    assert Lines(s) == [front + ['\n']] + Lines([]);
  }

  /** What the loop returns when a skipped line has gone by: the same, but that the lines
      after it have greater numbers. */
  function OneLineLater(r: Decoded, from: nat): Decoded
  {
    if r.BadLine? && r.number >= from then BadLine(r.number + 1, r.reason) else r
  }

  lemma {:induction false} NumbersShift(es: seq<Entry>, number: nat, from: nat, c: Contents)
    requires InRange(es, |c|) && from <= number
    ensures Collect(es, number + 1, c) == OneLineLater(Collect(es, number, c), from)
    decreases |es|
  {
    if |es| > 0 {
      match es[0]
      case Skipped => NumbersShift(es[1..], number + 1, from, c);
      case Malformed(_) =>
      case Object(i, o) => if o.key !in c[i] { NumbersShift(es[1..], number + 1, from, c[i := c[i][o.key := o]]); }
    }
  }

  lemma {:induction false} SkippedBetween(a: seq<Entry>, b: seq<Entry>, number: nat, c: Contents)
    requires InRange(a, |c|) && InRange(b, |c|)
    ensures InRange(a + [Skipped] + b, |c|) && InRange(a + b, |c|)
    ensures Collect(a + [Skipped] + b, number, c) == OneLineLater(Collect(a + b, number, c), number + |a|)
    decreases |a|
  {
    var with, without := a + [Skipped] + b, a + b;
    assert forall j :: 0 <= j < |without| ==> without[j] == if j < |a| then a[j] else b[j - |a|];
    assert forall j :: 0 <= j < |with| ==> with[j] == if j < |a| then a[j] else if j == |a| then Skipped else b[j - |a| - 1];
    if |a| == 0 {
      assert with[1..] == b && without == b;
      NumbersShift(b, number, number, c);
    } else {
      assert with[1..] == a[1..] + [Skipped] + b && without[1..] == a[1..] + b;
      match a[0]
      case Skipped => SkippedBetween(a[1..], b, number + 1, c);
      case Malformed(_) =>
      case Object(i, o) => if o.key !in c[i] { SkippedBetween(a[1..], b, number + 1, c[i := c[i][o.key := o]]); }
    }
  }

  /** Blank lines and comments may stand anywhere after the magic: with one more of them the
      same contents are decoded, or the same error is found, one line later if it comes
      after the new line. */
  lemma RemarksDoNotMatter(sc: Schema, a: Bytes, remark: Bytes, b: Bytes)
    requires |a| > 0 && a[|a| - 1] == '\n' && Remark(remark)
    ensures Parse(sc, a + remark + b) == OneLineLater(Parse(sc, a + b), |Lines(a)| + 1)
  {
    RemarkIsOneLine(remark);
    LinesAppend(a, b);
    LinesAppend(a + remark, b);
    LinesAppend(a, remark);
    var la, lr, lb := TrimAll(Lines(a)), TrimRight(remark, LINE_ENDS), TrimAll(Lines(b));
    TrimAllAppend(Lines(a), Lines(b));
    TrimAllAppend(Lines(a) + [remark], Lines(b));
    TrimAllAppend(Lines(a), [remark]);
    assert TrimAll([remark]) == [lr];
    FirstLineExists(a);
    ParseFileSkips(sc, la, lr, lb);
  }

  lemma ParseFileSkips(sc: Schema, la: seq<Bytes>, lr: Bytes, lb: seq<Bytes>)
    requires |la| > 0 && SaysNothing(lr)
    ensures ParseFile(sc, la + [lr] + lb) == OneLineLater(ParseFile(sc, la + lb), |la| + 1)
  {
    assert (la + [lr] + lb)[0] == la[0] == (la + lb)[0];
    if la[0] == Magic(sc) {
      var read := Reader(sc);
      assert (la + [lr] + lb)[1..] == la[1..] + [lr] + lb && (la + lb)[1..] == la[1..] + lb;
      ReadAppend(read, la[1..], lb);
      ReadAppend(read, la[1..] + [lr], lb);
      ReadAppend(read, la[1..], [lr]);
      assert ReadAll(read, [lr]) == [read(lr)] == [Skipped];
      var ea, eb := Entries(sc, la[1..]), Entries(sc, lb);
      SkippedBetween(ea, eb, 2, EmptyMaps(|sc.objs|));
    }
  }

  // Errors

  /** The object's place is taken by an entry before it. */
  ghost predicate Taken(es: seq<Entry>, j: nat)
    requires j < |es|
  {
    es[j].Object? && exists k :: 0 <= k < j && es[k].Object? && Slot(es[k]) == Slot(es[j])
  }

  /** The j-th entry ends the loop: it is malformed, or its place is taken. */
  ghost predicate Bad(es: seq<Entry>, j: nat)
    requires j < |es|
  {
    es[j].Malformed? || Taken(es, j)
  }

  ghost predicate FirstBad(es: seq<Entry>, j: nat, reason: string)
  {
    && j < |es| && Bad(es, j) && (forall k :: 0 <= k < j ==> !Bad(es, k))
    && reason == if es[j].Malformed? then es[j].reason else "duplicate"
  }

  /** After some entries the maps have exactly their places. */
  ghost predicate Places(es: seq<Entry>, n: nat, c: Contents)
    requires n <= |es|
  {
    forall i, k :: 0 <= i < |c| ==> (k in c[i] <==> exists j :: 0 <= j < n && es[j].Object? && Slot(es[j]) == (i, k))
  }

  lemma NothingTaken(es: seq<Entry>, none: Contents)
    requires forall i :: 0 <= i < |none| ==> none[i] == map[]
    ensures Places(es, 0, none)
  {}

  lemma PlacesNext(es: seq<Entry>, n: nat, c: Contents)
    requires n < |es| && InRange(es, |c|) && Places(es, n, c)
    ensures es[n].Object? ==> (es[n].obj.key in c[es[n].index] <==> Taken(es, n))
    ensures !es[n].Object? ==> Places(es, n + 1, c)
    ensures es[n].Object? ==> Places(es, n + 1, c[es[n].index := c[es[n].index][es[n].obj.key := es[n].obj]])
  {
    var d := if es[n].Object? then c[es[n].index := c[es[n].index][es[n].obj.key := es[n].obj]] else c;
    forall i, k | 0 <= i < |d|
      ensures k in d[i] <==> exists j :: 0 <= j < n + 1 && es[j].Object? && Slot(es[j]) == (i, k)
    {
      if k in d[i] {
        if es[n].Object? && Slot(es[n]) == (i, k) {
        } else {
          var j :| 0 <= j < n && es[j].Object? && Slot(es[j]) == (i, k);
        }
      }
      if j :| 0 <= j < n + 1 && es[j].Object? && Slot(es[j]) == (i, k) {
        if j < n { assert k in c[i]; }
      }
    }
  }

  predicate FailsAt(r: Decoded, from: nat, number: nat, reason: string)
  {
    r.BadLine? && r.number == from + number && r.reason == reason
  }

  /** From the n-th entry on, with the maps filled by those before: the loop fails at the
      n + j-th exactly if that is the first bad one. */
  lemma {:induction false} CollectFails(es: seq<Entry>, n: nat, number: nat, c: Contents, j: nat, reason: string)
    requires n <= |es| && InRange(es, |c|) && Places(es, n, c)
    requires forall k :: 0 <= k < n ==> !Bad(es, k)
    ensures InRange(es[n..], |c|)
    ensures FailsAt(Collect(es[n..], number, c), number, j, reason) <==> FirstBad(es, n + j, reason)
    decreases |es| - n
  {
    assert forall k :: 0 <= k < |es[n..]| ==> es[n..][k] == es[n + k];
    if n < |es| {
      CollectNext(es, n, number, c);
      PlacesNext(es, n, c);
      if Bad(es, n) {
        FirstIsBad(es, n, n + j, reason);
      } else {
        NotHere(es, n, j, reason);
        var d := if es[n].Object? then c[es[n].index := c[es[n].index][es[n].obj.key := es[n].obj]] else c;
        if j > 0 {
          CollectFails(es, n + 1, number + 1, d, j - 1, reason);
        } else {
          NumbersFrom(es[n + 1..], number + 1, d);
        }
      }
    }
  }

  lemma FirstIsBad(es: seq<Entry>, n: nat, j: nat, reason: string)
    requires n < |es| && n <= j && Bad(es, n) && forall k :: 0 <= k < n ==> !Bad(es, k)
    ensures FirstBad(es, j, reason) <==> j == n && reason == if es[n].Malformed? then es[n].reason else "duplicate"
  {}

  lemma NotHere(es: seq<Entry>, n: nat, j: nat, reason: string)
    requires n < |es| && !Bad(es, n)
    ensures j == 0 ==> !FirstBad(es, n + j, reason)
  {}

  /** Unmarshal fails with line number and reason exactly if that line is the first after
      the magic that is malformed, for this reason, or whose key an object of the same
      type has before it. */
  lemma BadLineExact(sc: Schema, data: Bytes, number: nat, reason: string)
    ensures Parse(sc, data) == BadLine(number, reason) <==>
      var lines := TrimAll(Lines(data));
      && |lines| > 0 && lines[0] == Magic(sc) && number >= 2
      && FirstBad(Entries(sc, lines[1..]), number - 2, reason)
  {
    var lines := TrimAll(Lines(data));
    if |lines| > 0 && lines[0] == Magic(sc) {
      LoopFailsExact(Entries(sc, lines[1..]), EmptyMaps(|sc.objs|), number, reason);
    }
  }

  lemma LoopFailsExact(es: seq<Entry>, none: Contents, number: nat, reason: string)
    requires InRange(es, |none|) && forall i :: 0 <= i < |none| ==> none[i] == map[]
    ensures Collect(es, 2, none) == BadLine(number, reason) <==> number >= 2 && FirstBad(es, number - 2, reason)
  {
    assert es[0..] == es;
    NumbersFrom(es, 2, none);
    NothingTaken(es, none);
    if number >= 2 { CollectFails(es, 0, 2, none, number - 2, reason); }
  }

  /** Errors are numbered from where the loop starts. */
  lemma {:induction false} NumbersFrom(es: seq<Entry>, number: nat, c: Contents)
    requires InRange(es, |c|)
    ensures Collect(es, number, c).BadLine? ==> number <= Collect(es, number, c).number
    decreases |es|
  {
    if |es| > 0 {
      match es[0]
      case Skipped => NumbersFrom(es[1..], number + 1, c);
      case Malformed(_) =>
      case Object(i, o) => if o.key !in c[i] { NumbersFrom(es[1..], number + 1, c[i := c[i][o.key := o]]); }
    }
  }

  // The order of keys

  /** a comes before b: it is a prefix of b, or the first byte that differs is smaller. */
  ghost predicate Before(a: Bytes, b: Bytes)
  {
    a <= b || exists i :: 0 <= i < |a| && i < |b| && a[..i] == b[..i] && a[i] < b[i]
  }

  lemma FirstDifference(a: Bytes, b: Bytes, i: nat)
    requires |a| > 0 && |b| > 0 && a[0] == b[0] && i < |a| - 1 && i < |b| - 1
    ensures a[1..][..i] == b[1..][..i] <==> a[..i + 1] == b[..i + 1]
  {
    assert a[..i + 1] == [a[0]] + a[1..][..i] && b[..i + 1] == [b[0]] + b[1..][..i];
    assert a[..i + 1][1..] == a[1..][..i] && b[..i + 1][1..] == b[1..][..i];
  }

  lemma SameFirst(a: Bytes, b: Bytes, i: nat)
    requires i < |a| && i < |b| && a[..i] == b[..i]
    ensures i > 0 ==> a[0] == b[0]
  {
    if i > 0 { assert a[..i][0] == b[..i][0]; }
  }

  /** strings.Compare puts strings in the order of their bytes. */
  lemma {:induction false} OrderIsLexicographic(a: Bytes, b: Bytes)
    ensures Leq(a, b) <==> Before(a, b)
  {
    if |a| > 0 && |b| > 0 && a[0] == b[0] {
      var c, d := a[1..], b[1..];
      OrderIsLexicographic(c, d);
      assert a == [a[0]] + c && b == [b[0]] + d;
      assert c <= d <==> a <= b;
      if i :| 0 <= i < |c| && i < |d| && c[..i] == d[..i] && c[i] < d[i] {
        FirstDifference(a, b, i);
        assert a[..i + 1] == b[..i + 1] && a[i + 1] < b[i + 1];
      }
      if i :| 0 <= i < |a| && i < |b| && a[..i] == b[..i] && a[i] < b[i] {
        FirstDifference(a, b, i - 1);
        assert c[..i - 1] == d[..i - 1] && c[i - 1] < d[i - 1];
      }
    } else if |a| > 0 && |b| > 0 {
      assert a[..0] == b[..0];
      if i :| 0 <= i < |a| && i < |b| && a[..i] == b[..i] && a[i] < b[i] { SameFirst(a, b, i); }
    }
  }

  /** The keys of a map are written in the order of the bytes of their strings. */
  lemma KeysAscend(t: ObjType, m: map<Value, Obj>, keys: seq<Value>, i: nat, j: nat)
    requires IsOrder(t, m, keys) && i < j < |keys|
    ensures Before(KeyString(t.key, keys[i]), KeyString(t.key, keys[j]))
  {
    OrderIsLexicographic(KeyString(t.key, keys[i]), KeyString(t.key, keys[j]));
  }
}
