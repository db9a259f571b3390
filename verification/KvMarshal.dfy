/** Marshal and Unmarshal as loops. */
module KvMarshal {
  import opened Options
  import opened KvText
  import opened KvValue
  import opened KvObject
  import opened KvLine
  import opened KvEntries
  import opened KvFile

  // Sorting keys

  lemma {:induction false} LeqTotal(a: Bytes, b: Bytes)
    ensures Leq(a, b) || Leq(b, a)
  {
    if |a| > 0 && |b| > 0 && a[0] == b[0] { LeqTotal(a[1..], b[1..]); }
  }

  lemma {:induction false} LeqAntisymmetric(a: Bytes, b: Bytes)
    requires Leq(a, b) && Leq(b, a)
    ensures a == b
  {
    if |a| > 0 {
      LeqAntisymmetric(a[1..], b[1..]);
      assert a == [a[0]] + a[1..] && b == [b[0]] + b[1..];
    }
  }

  lemma {:induction false} LeqTransitive(a: Bytes, b: Bytes, c: Bytes)
    requires Leq(a, b) && Leq(b, c)
    ensures Leq(a, c)
  {
    if |a| > 0 && |b| > 0 && |c| > 0 && a[0] == b[0] == c[0] { LeqTransitive(a[1..], b[1..], c[1..]); }
  }

  predicate InOrder(k: Kind, x: Value, y: Value)
    requires HasKind(x, k) && HasKind(y, k)
  {
    Leq(KeyString(k, x), KeyString(k, y))
  }

  lemma AllBelow(k: Kind, keys: seq<Value>, x: Value, p: nat)
    requires AllKind(k, keys) && Sorted(k, keys) && HasKind(x, k) && 0 < p <= |keys| && InOrder(k, keys[p - 1], x)
    ensures forall i :: 0 <= i < p ==> InOrder(k, keys[i], x)
  {
    forall i | 0 <= i < p ensures InOrder(k, keys[i], x) {
      if i < p - 1 { LeqTransitive(KeyString(k, keys[i]), KeyString(k, keys[p - 1]), KeyString(k, x)); }
    }
  }

  lemma AllAbove(k: Kind, keys: seq<Value>, x: Value, p: nat)
    requires AllKind(k, keys) && Sorted(k, keys) && HasKind(x, k) && p < |keys| && InOrder(k, x, keys[p])
    ensures forall i :: p <= i < |keys| ==> InOrder(k, x, keys[i])
  {
    forall i | p <= i < |keys| ensures InOrder(k, x, keys[i]) {
      if i > p { LeqTransitive(KeyString(k, x), KeyString(k, keys[p]), KeyString(k, keys[i])); }
    }
  }

  predicate SortedKeys(k: Kind, keys: seq<Value>) { AllKind(k, keys) && Sorted(k, keys) && Distinct(keys) }

  lemma InsertedAt(keys: seq<Value>, x: Value, p: nat)
    requires p <= |keys|
    ensures var r := keys[..p] + [x] + keys[p..];
      forall i :: 0 <= i < |r| ==> r[i] == if i < p then keys[i] else if i == p then x else keys[i - 1]
  {}

  lemma SameMembers(keys: seq<Value>, x: Value, p: nat)
    requires p <= |keys|
    ensures forall y :: y in keys[..p] + [x] + keys[p..] <==> y in keys || y == x
  {
    assert keys == keys[..p] + keys[p..];
  }

  /** A place for x: after everything that is below it, before the rest. */
  lemma Inserted(k: Kind, keys: seq<Value>, x: Value, p: nat)
    requires SortedKeys(k, keys) && x !in keys && HasKind(x, k) && p <= |keys|
    requires forall i :: 0 <= i < p ==> InOrder(k, keys[i], x)
    requires forall i :: p <= i < |keys| ==> InOrder(k, x, keys[i])
    ensures SortedKeys(k, keys[..p] + [x] + keys[p..])
    ensures forall y :: y in keys[..p] + [x] + keys[p..] <==> y in keys || y == x
  {
    var r := keys[..p] + [x] + keys[p..];
    InsertedAt(keys, x, p);
    forall i | 0 <= i < |r| ensures HasKind(r[i], k) {}
    forall i, j | 0 <= i < j < |r| ensures r[i] != r[j] {}
    forall i, j | 0 <= i < j < |r| ensures InOrder(k, r[i], r[j]) {}
    SameMembers(keys, x, p);
  }

  method FindPlace(k: Kind, keys: seq<Value>, x: Value) returns (p: nat)
    requires AllKind(k, keys) && HasKind(x, k)
    ensures p <= |keys|
    ensures p > 0 ==> InOrder(k, keys[p - 1], x)
    ensures p < |keys| ==> InOrder(k, x, keys[p])
  {
    p := |keys|;
    while p > 0 && !InOrder(k, keys[p - 1], x)
      invariant 0 <= p <= |keys|
      invariant p < |keys| ==> InOrder(k, x, keys[p])
    {
      LeqTotal(KeyString(k, keys[p - 1]), KeyString(k, x));
      p := p - 1;
    }
  }

  method Insert(k: Kind, keys: seq<Value>, x: Value) returns (r: seq<Value>)
    requires SortedKeys(k, keys) && x !in keys && HasKind(x, k)
    ensures SortedKeys(k, r)
    ensures forall y :: y in r <==> y in keys || y == x
  {
    var p := FindPlace(k, keys, x);
    if p > 0 { AllBelow(k, keys, x, p); }
    if p < |keys| { AllAbove(k, keys, x, p); }
    Inserted(k, keys, x, p);
    r := keys[..p] + [x] + keys[p..];
  }

  /** The keys of a map, in whatever order it yields them, sorted by their strings. */
  method SortKeys(t: ObjType, m: map<Value, Obj>) returns (keys: seq<Value>)
    requires TypedMap(t, m)
    ensures IsOrder(t, m, keys) && Covers(t, m, keys)
  {
    var left := m.Keys;
    keys := [];
    while left != {}
      invariant left <= m.Keys && SortedKeys(t.key, keys)
      invariant forall k :: k in m <==> k in left || k in keys
      invariant forall k :: k in keys ==> k !in left
      decreases |left|
    {
      var k :| k in left;
      keys := Insert(t.key, keys, k);
      left := left - {k};
    }
  }

  // Marshal

  lemma {:induction false} TerminatedAppend(a: seq<Bytes>, b: seq<Bytes>)
    ensures Terminated(a + b) == Terminated(a) + Terminated(b)
  {
    if |a| == 0 {
      assert a + b == b;
    } else {
      TerminatedAppend(a[1..], b);
      assert (a + b)[0] == a[0] && (a + b)[1..] == a[1..] + b;
      Associate(a[0] + ['\n'], Terminated(a[1..]), Terminated(b));
    }
  }

  lemma Associate(a: Bytes, b: Bytes, c: Bytes)
    ensures (a + b) + c == a + (b + c)
  {}

  predicate Encodes(t: ObjType, o: Obj, isPrint: int -> bool) { Typed(t, o) && EncodeObj(t, o, isPrint).Ok? }

  predicate AllEncode(t: ObjType, m: map<Value, Obj>, isPrint: int -> bool)
  {
    forall k :: k in m ==> Encodes(t, m[k], isPrint)
  }

  lemma {:induction false} ObjLinesOk(t: ObjType, m: map<Value, Obj>, keys: seq<Value>, isPrint: int -> bool)
    requires Covers(t, m, keys)
    ensures ObjLines(t, m, keys, isPrint).Ok? <==> forall j :: 0 <= j < |keys| ==> Encodes(t, m[keys[j]], isPrint)
  {
    if |keys| > 0 {
      ObjLinesOk(t, m, keys[1..], isPrint);
      if forall j :: 0 <= j < |keys[1..]| ==> Encodes(t, m[keys[1..][j]], isPrint) {
        forall j | 0 < j < |keys| ensures Encodes(t, m[keys[j]], isPrint) { assert keys[j] == keys[1..][j - 1]; }
      }
    }
  }

  lemma ListedEncode(t: ObjType, m: map<Value, Obj>, keys: seq<Value>, isPrint: int -> bool)
    requires Covers(t, m, keys) && Lists(m, keys)
    ensures ObjLines(t, m, keys, isPrint).Ok? <==> AllEncode(t, m, isPrint)
  {
    ObjLinesOk(t, m, keys, isPrint);
    if forall j :: 0 <= j < |keys| ==> Encodes(t, m[keys[j]], isPrint) {
      forall k | k in m ensures Encodes(t, m[k], isPrint) { var j :| 0 <= j < |keys| && keys[j] == k; }
    }
  }

  lemma ObjLinesNext(t: ObjType, m: map<Value, Obj>, keys: seq<Value>, n: nat, isPrint: int -> bool,
                     all: Result<seq<Bytes>>, written: seq<Bytes>)
    requires n < |keys| && Covers(t, m, keys) && Covers(t, m, keys[n..]) && Covers(t, m, keys[n + 1..])
    requires Continues(all, written, ObjLines(t, m, keys[n..], isPrint))
    ensures match EncodeObj(t, m[keys[n]], isPrint)
      case Ok(line) => Continues(all, written + [line], ObjLines(t, m, keys[n + 1..], isPrint))
      case Err(e) => all == Err(e)
  {
    assert keys[n..][1..] == keys[n + 1..];
    var line := EncodeObj(t, m[keys[n]], isPrint);
    var more := ObjLines(t, m, keys[n + 1..], isPrint);
    if line.Ok? && more.Ok? { assert written + ([line.value] + more.value) == (written + [line.value]) + more.value; }
  }

  /** Marshal's inner loop: the lines of one map, each with its line end. */
  method WriteMap(t: ObjType, m: map<Value, Obj>, keys: seq<Value>, isPrint: int -> bool) returns (r: Result<Bytes>)
    requires Covers(t, m, keys)
    ensures r == match ObjLines(t, m, keys, isPrint)
      case Ok(lines) => Ok(Terminated(lines))
      case Err(e) => Err(e)
  {
    var buf: Bytes := [];
    ghost var all, written: seq<Bytes> := ObjLines(t, m, keys, isPrint), [];
    assert all.Ok? ==> [] + all.value == all.value;
    assert keys[0..] == keys;
    for n := 0 to |keys|
      invariant Continues(all, written, ObjLines(t, m, keys[n..], isPrint))
      invariant buf == Terminated(written)
    {
      var line := EncodeLine(t, m[keys[n]], isPrint);
      ObjLinesNext(t, m, keys, n, isPrint, all, written);
      if line.Err? { return line; }
      TerminatedAppend(written, [line.value]);
      assert Terminated([line.value]) == line.value + ['\n'];
      written := written + [line.value];
      buf := buf + (line.value + ['\n']);
    }
    assert written + [] == written;
    r := Ok(buf);
  }

  method WriteSorted(t: ObjType, m: map<Value, Obj>, isPrint: int -> bool)
    returns (r: Result<Bytes>, ghost keys: seq<Value>, ghost lines: seq<Bytes>)
    requires TypedMap(t, m)
    ensures r.Ok? <==> AllEncode(t, m, isPrint)
    ensures r.Ok? ==> MapWritten(t, m, keys, isPrint, lines) && r.value == Terminated(lines)
  {
    var sorted := SortKeys(t, m);
    keys, lines := sorted, [];
    r := WriteMap(t, m, sorted, isPrint);
    ListedEncode(t, m, keys, isPrint);
    if r.Ok? { lines := ObjLines(t, m, keys, isPrint).value; }
  }

  /** Every object of the first n maps has a line. */
  predicate FirstEncode(sc: Schema, c: Contents, n: nat, isPrint: int -> bool)
    requires n <= |c| == |sc.objs|
  {
    forall i :: 0 <= i < n ==> AllEncode(sc.objs[i], c[i], isPrint)
  }

  lemma EncodeNext(sc: Schema, c: Contents, n: nat, isPrint: int -> bool)
    requires n < |c| == |sc.objs| && FirstEncode(sc, c, n, isPrint)
    ensures FirstEncode(sc, c, n + 1, isPrint) <==> AllEncode(sc.objs[n], c[n], isPrint)
    ensures FirstEncode(sc, c, |c|, isPrint) ==> FirstEncode(sc, c, n + 1, isPrint)
  {}

  /** Marshal succeeds exactly if every object does, and writes the keys of each map in
      the order of their strings. */
  method Marshal(sc: Schema, c: Contents, isPrint: int -> bool) returns (r: Result<Bytes>, ghost orders: seq<seq<Value>>)
    requires TypedFile(sc, c)
    ensures r.Ok? <==> FirstEncode(sc, c, |c|, isPrint)
    ensures r.Ok? ==> AreOrders(sc, c, orders) && CoversAll(sc, c, orders) && Print(sc, c, orders, isPrint) == r
  {
    var buf := Magic(sc) + ['\n'];
    orders := [];
    ghost var per: seq<seq<Bytes>> := [];
    for i := 0 to |c|
      invariant |orders| == |per| == i
      invariant FirstWritten(sc, c, orders, isPrint, per)
      invariant FirstEncode(sc, c, i, isPrint)
      invariant buf == Text(sc, per)
    {
      var text;
      ghost var keys, lines;
      text, keys, lines := WriteSorted(sc.objs[i], c[i], isPrint);
      EncodeNext(sc, c, i, isPrint);
      if text.Err? { return text, orders; }
      TextNext(sc, per, lines);
      WrittenNext(sc, c, orders, isPrint, per, keys, lines);
      buf := buf + text.value;
      orders, per := orders + [keys], per + [lines];
    }
    MarshalWrites(sc, c, orders, isPrint, per);
    r := Ok(buf);
  }

  lemma WrittenNext(sc: Schema, c: Contents, orders: seq<seq<Value>>, isPrint: int -> bool, per: seq<seq<Bytes>>,
                    keys: seq<Value>, lines: seq<Bytes>)
    requires FirstWritten(sc, c, orders, isPrint, per) && |per| < |c|
    requires MapWritten(sc.objs[|per|], c[|per|], keys, isPrint, lines)
    ensures FirstWritten(sc, c, orders + [keys], isPrint, per + [lines])
  {
    var orders', per' := orders + [keys], per + [lines];
    assert forall n :: 0 <= n < |per| ==> orders'[n] == orders[n] && per'[n] == per[n];
    assert orders'[|per|] == keys && per'[|per|] == lines;
  }

  /** The text written after some maps. */
  function Text(sc: Schema, per: seq<seq<Bytes>>): Bytes { Magic(sc) + ['\n'] + Terminated(FlatTo(per)) }

  lemma TextNext(sc: Schema, per: seq<seq<Bytes>>, lines: seq<Bytes>)
    ensures Text(sc, per + [lines]) == Text(sc, per) + Terminated(lines)
  {
    assert (per + [lines])[..|per|] == per;
    TerminatedAppend(FlatTo(per), lines);
  }

  predicate FirstWritten(sc: Schema, c: Contents, orders: seq<seq<Value>>, isPrint: int -> bool, per: seq<seq<Bytes>>)
  {
    && |orders| == |per| <= |c| == |sc.objs|
    && forall n :: 0 <= n < |per| ==> MapWritten(sc.objs[n], c[n], orders[n], isPrint, per[n])
  }

  predicate MapWritten(t: ObjType, m: map<Value, Obj>, keys: seq<Value>, isPrint: int -> bool, lines: seq<Bytes>)
  {
    IsOrder(t, m, keys) && Covers(t, m, keys) && ObjLines(t, m, keys, isPrint) == Ok(lines)
  }

  function FlatTo(per: seq<seq<Bytes>>): seq<Bytes>
  {
    if |per| == 0 then [] else FlatTo(per[..|per| - 1]) + per[|per| - 1]
  }

  lemma {:induction false} FlatToFlat(per: seq<seq<Bytes>>, i: nat)
    requires i <= |per|
    ensures FlatTo(per) == FlatTo(per[..i]) + Flat(per, i)
    decreases |per| - i
  {
    if i == |per| {
      assert per[..i] == per;
    } else {
      FlatToFlat(per, i + 1);
      assert per[..i + 1][..i] == per[..i];
    }
  }

  lemma MarshalWrites(sc: Schema, c: Contents, orders: seq<seq<Value>>, isPrint: int -> bool, per: seq<seq<Bytes>>)
    requires FirstWritten(sc, c, orders, isPrint, per) && |per| == |c|
    ensures AreOrders(sc, c, orders) && CoversAll(sc, c, orders)
    ensures Print(sc, c, orders, isPrint) == Ok(Text(sc, per))
  {
    AllWritten(sc, c, orders, isPrint, per);
    FlatLines(sc, c, orders, isPrint, per, 0);
    TextFlat(sc, per);
  }

  lemma TextFlat(sc: Schema, per: seq<seq<Bytes>>)
    ensures Text(sc, per) == Terminated([Magic(sc)] + Flat(per, 0))
  {
    FlatToFlat(per, 0);
    assert [] + Flat(per, 0) == Flat(per, 0);
    TerminatedAppend([Magic(sc)], Flat(per, 0));
    assert Terminated([Magic(sc)]) == Magic(sc) + ['\n'];
  }

  lemma AllWritten(sc: Schema, c: Contents, orders: seq<seq<Value>>, isPrint: int -> bool, per: seq<seq<Bytes>>)
    requires FirstWritten(sc, c, orders, isPrint, per) && |per| == |c|
    ensures AreOrders(sc, c, orders) && CoversAll(sc, c, orders)
    ensures forall n :: 0 <= n < |c| ==> ObjLines(sc.objs[n], c[n], orders[n], isPrint) == Ok(per[n])
  {
    forall n | 0 <= n < |c|
      ensures IsOrder(sc.objs[n], c[n], orders[n]) && Covers(sc.objs[n], c[n], orders[n])
      ensures ObjLines(sc.objs[n], c[n], orders[n], isPrint) == Ok(per[n])
    {
      assert MapWritten(sc.objs[n], c[n], orders[n], isPrint, per[n]);
    }
  }

  // Unmarshal

  lemma CollectNext(es: seq<Entry>, n: nat, number: nat, c: Contents)
    requires n < |es| && InRange(es, |c|)
    ensures InRange(es[n..], |c|) && InRange(es[n + 1..], |c|)
    ensures Collect(es[n..], number, c)
      == if es[n].Skipped? then Collect(es[n + 1..], number + 1, c)
         else if es[n].Malformed? then BadLine(number, es[n].reason)
         else if es[n].obj.key in c[es[n].index] then BadLine(number, "duplicate")
         else Collect(es[n + 1..], number + 1, c[es[n].index := c[es[n].index][es[n].obj.key := es[n].obj]])
  {
    assert es[n..][1..] == es[n + 1..];
  }

  /** What the loop does with one line after the first. */
  method ReadLine(sc: Schema, line: Bytes) returns (e: Entry)
    ensures e == Reading(sc, line)
  {
    if line == [] || line[0] == '#' { return Skipped; }
    var (name, rest) := CutBare(line);
    var i := ObjIndex(sc.objs, name);
    if i.None? { return Malformed("unknown object type"); }
    var o := DecodeLine(sc.objs[i.value], rest);
    e := if o.Err? then Malformed(o.reason) else Object(i.value, o.value);
  }

  method Unmarshal(sc: Schema, data: Bytes) returns (r: Decoded)
    ensures r == Parse(sc, data)
  {
    var raw := Lines(data);
    if |raw| == 0 { return BadMagic([], Magic(sc)); }
    var first := TrimRight(raw[0], LINE_ENDS);
    if first != Magic(sc) { return BadMagic(first, Magic(sc)); }
    var c := EmptyMaps(|sc.objs|);
    ghost var es := Entries(sc, TrimAll(raw)[1..]);
    for n := 1 to |raw|
      invariant |c| == |sc.objs|
      invariant Collect(es, 2, EmptyMaps(|sc.objs|)) == Collect(es[n - 1..], n + 1, c)
    {
      CollectNext(es, n - 1, n + 1, c);
      var e := ReadLine(sc, TrimRight(raw[n], LINE_ENDS));
      assert e == es[n - 1];
      match e {
        case Skipped =>
        case Malformed(reason) => return BadLine(n + 1, reason);
        case Object(i, o) =>
          if o.key in c[i] { return BadLine(n + 1, "duplicate"); }
          c := c[i := c[i][o.key := o]];
      }
    }
    r := Decoded(c);
  }
}
