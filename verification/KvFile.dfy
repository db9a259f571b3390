/** Whole files: what Marshal writes and Unmarshal reads. */
module KvFile {
  import opened Options
  import opened KvText
  import opened KvValue
  import opened KvObject
  import opened KvEntries

  /** The top-level struct: its magic tag, and a map for each type of object. */
  datatype Schema = Schema(tag: Bytes, objs: seq<ObjType>)

  function Magic(sc: Schema): Bytes { ['#', ' '] + sc.tag }

  // Reading

  function TrimAll(raw: seq<Bytes>): (lines: seq<Bytes>)
    ensures |lines| == |raw| && forall i :: 0 <= i < |raw| ==> lines[i] == TrimRight(raw[i], LINE_ENDS)
  {
    if |raw| == 0 then [] else [TrimRight(raw[0], LINE_ENDS)] + TrimAll(raw[1..])
  }

  /** mapByObjName; two types of one name do not get past fileInfoOf. */
  function ObjIndex(objs: seq<ObjType>, name: Bytes): (i: Option<nat>)
    ensures i.Some? ==> i.value < |objs| && objs[i.value].name == name
    ensures i.None? ==> forall j :: 0 <= j < |objs| ==> objs[j].name != name
  {
    if |objs| == 0 then None
    else if objs[|objs| - 1].name == name then Some(|objs| - 1)
    else ObjIndex(objs[..|objs| - 1], name)
  }

  predicate IsObject(line: Bytes) { line != [] && line[0] != '#' }

  function Reading(sc: Schema, line: Bytes): (e: Entry)
    ensures e.Object? ==> e.index < |sc.objs|
  {
    if !IsObject(line) then Skipped
    else
      var (name, rest) := CutBare(line);
      match ObjIndex(sc.objs, name)
      case None => Malformed("unknown object type")
      case Some(i) =>
        match DecodeObj(sc.objs[i], rest)
        case Err(e) => Malformed(e)
        case Ok(o) => Object(i, o)
  }

  /** Each line read on its own. */
  function ReadAll(read: Bytes -> Entry, lines: seq<Bytes>): (es: seq<Entry>)
    ensures |es| == |lines| && forall j :: 0 <= j < |es| ==> es[j] == read(lines[j])
  {
    if |lines| == 0 then [] else [read(lines[0])] + ReadAll(read, lines[1..])
  }

  function Reader(sc: Schema): Bytes -> Entry { line => Reading(sc, line) }

  function EmptyMaps(n: nat): (c: Contents)
    ensures |c| == n && forall i :: 0 <= i < n ==> c[i] == map[]
  {
    if n == 0 then [] else [map[]] + EmptyMaps(n - 1)
  }

  function Entries(sc: Schema, lines: seq<Bytes>): (es: seq<Entry>)
    ensures InRange(es, |sc.objs|)
  {
    ReadAll(Reader(sc), lines)
  }

  function ParseFile(sc: Schema, lines: seq<Bytes>): Decoded
  {
    if |lines| == 0 then BadMagic([], Magic(sc))
    else if lines[0] != Magic(sc) then BadMagic(lines[0], Magic(sc))
    else Collect(Entries(sc, lines[1..]), 2, EmptyMaps(|sc.objs|))
  }

  function Parse(sc: Schema, data: Bytes): Decoded { ParseFile(sc, TrimAll(Lines(data))) }

  // Writing

  /** The order of strings.Compare. */
  predicate Leq(a: Bytes, b: Bytes)
  {
    |a| == 0 || (|b| > 0 && (a[0] < b[0] || (a[0] == b[0] && Leq(a[1..], b[1..]))))
  }

  /** What keys are sorted by. Hash has a String method, and a type with its own text form
      may have one. */
  function KeyString(k: Kind, v: Value): Bytes
    requires HasKind(v, k)
  {
    match v
    case VText(x) => k.codec.show(x)
    case VString(s) => s
    case VInt(n) => FormatInt(n)
    case VUint(n) => Digits(n)
    case VUnixTime(n) => FormatInt(n)
    case VHash(alg, val) => HashString(alg, val)
  }

  predicate TypedMap(t: ObjType, m: map<Value, Obj>)
  {
    forall k :: k in m ==> HasKind(k, t.key) && Typed(t, m[k])
  }

  predicate TypedFile(sc: Schema, c: Contents)
  {
    |c| == |sc.objs| && forall i :: 0 <= i < |c| ==> TypedMap(sc.objs[i], c[i])
  }

  predicate Distinct(keys: seq<Value>) { forall i, j :: 0 <= i < j < |keys| ==> keys[i] != keys[j] }

  predicate AllKind(k: Kind, keys: seq<Value>) { forall i :: 0 <= i < |keys| ==> HasKind(keys[i], k) }

  predicate Sorted(k: Kind, keys: seq<Value>)
    requires AllKind(k, keys)
  {
    forall i, j :: 0 <= i < j < |keys| ==> Leq(KeyString(k, keys[i]), KeyString(k, keys[j]))
  }

  /** All keys of a map, each once. */
  predicate Lists(m: map<Value, Obj>, keys: seq<Value>)
  {
    Distinct(keys) && Within(m, keys) && forall k :: k in m ==> k in keys
  }

  predicate Within(m: map<Value, Obj>, keys: seq<Value>) { forall j :: 0 <= j < |keys| ==> keys[j] in m }

  /** All keys of a map in the order of their strings; keys of the same string may stand
      either way, as the map is iterated in any order. */
  predicate IsOrder(t: ObjType, m: map<Value, Obj>, keys: seq<Value>)
  {
    Lists(m, keys) && AllKind(t.key, keys) && Sorted(t.key, keys)
  }

  predicate AreOrders(sc: Schema, c: Contents, orders: seq<seq<Value>>)
    requires |c| == |sc.objs|
  {
    |orders| == |c| && forall i :: 0 <= i < |c| ==> IsOrder(sc.objs[i], c[i], orders[i])
  }

  predicate Covers(t: ObjType, m: map<Value, Obj>, keys: seq<Value>)
  {
    forall i :: 0 <= i < |keys| ==> keys[i] in m && Typed(t, m[keys[i]])
  }

  predicate CoversAll(sc: Schema, c: Contents, orders: seq<seq<Value>>)
  {
    |orders| == |c| == |sc.objs| && forall i :: 0 <= i < |c| ==> Covers(sc.objs[i], c[i], orders[i])
  }

  function ObjLines(t: ObjType, m: map<Value, Obj>, keys: seq<Value>, isPrint: int -> bool): Result<seq<Bytes>>
    requires Covers(t, m, keys)
  {
    if |keys| == 0 then Ok([])
    else
      match EncodeObj(t, m[keys[0]], isPrint)
      case Err(e) => Err(e)
      case Ok(line) =>
        match ObjLines(t, m, keys[1..], isPrint)
        case Err(e) => Err(e)
        case Ok(more) => Ok([line] + more)
  }

  /** The lines of the i-th map and those after it. */
  function FileLines(sc: Schema, c: Contents, orders: seq<seq<Value>>, i: nat, isPrint: int -> bool): Result<seq<Bytes>>
    requires CoversAll(sc, c, orders) && i <= |c|
    decreases |c| - i
  {
    if i == |c| then Ok([])
    else
      match ObjLines(sc.objs[i], c[i], orders[i], isPrint)
      case Err(e) => Err(e)
      case Ok(lines) =>
        match FileLines(sc, c, orders, i + 1, isPrint)
        case Err(e) => Err(e)
        case Ok(more) => Ok(lines + more)
  }

  function Print(sc: Schema, c: Contents, orders: seq<seq<Value>>, isPrint: int -> bool): Result<Bytes>
    requires CoversAll(sc, c, orders)
  {
    match FileLines(sc, c, orders, 0, isPrint)
    case Err(e) => Err(e)
    case Ok(lines) => Ok(Terminated([Magic(sc)] + lines))
  }

  // What can be stored

  predicate GoodSchema(sc: Schema)
  {
    && sc.tag != [] && '\n' !in sc.tag && sc.tag[|sc.tag| - 1] !in LINE_ENDS
    && (forall i :: 0 <= i < |sc.objs| ==> GoodType(sc.objs[i]))
    && (forall i, j :: 0 <= i < j < |sc.objs| ==> sc.objs[i].name != sc.objs[j].name)
  }

  /** Each object stands under its own key, and a line can hold it. */
  predicate StorableMap(t: ObjType, m: map<Value, Obj>)
  {
    forall k :: k in m ==> m[k].key == k && Storable(t, m[k])
  }

  predicate StorableFile(sc: Schema, c: Contents)
  {
    |c| == |sc.objs| && forall i :: 0 <= i < |c| ==> StorableMap(sc.objs[i], c[i])
  }

  // Round trip

  lemma {:induction false} ObjIndexOf(objs: seq<ObjType>, i: nat)
    requires i < |objs| && forall i, j :: 0 <= i < j < |objs| ==> objs[i].name != objs[j].name
    ensures ObjIndex(objs, objs[i].name) == Some(i)
  {
    if i < |objs| - 1 { ObjIndexOf(objs[..|objs| - 1], i); }
  }

  /** The object's line is read back as this object, under this key. */
  predicate ReadsBack(t: ObjType, i: nat, key: Value, o: Obj, isPrint: int -> bool, read: Bytes -> Entry)
  {
    && o.key == key && Typed(t, o) && EncodeObj(t, o, isPrint).Ok?
    && var line := EncodeObj(t, o, isPrint).value;
    read(line) == Object(i, o) && IsLine(line)
  }

  predicate AllReadBack(t: ObjType, i: nat, m: map<Value, Obj>, isPrint: int -> bool, read: Bytes -> Entry)
  {
    forall k :: k in m ==> ReadsBack(t, i, k, m[k], isPrint, read)
  }

  lemma StorableReadsBack(sc: Schema, i: nat, m: map<Value, Obj>, isPrint: int -> bool)
    requires GoodSchema(sc) && i < |sc.objs| && StorableMap(sc.objs[i], m)
    ensures AllReadBack(sc.objs[i], i, m, isPrint, Reader(sc))
  {
    forall k | k in m ensures ReadsBack(sc.objs[i], i, k, m[k], isPrint, Reader(sc)) {
      ObjRoundTrip(sc.objs[i], m[k], isPrint);
      LineStays(sc.objs[i], m[k], isPrint);
      ObjIndexOf(sc.objs, i);
    }
  }

  /** A line that is read back as it was written. */
  predicate IsLine(line: Bytes)
  {
    '\n' !in line && |line| > 0 && line[|line| - 1] !in LINE_ENDS
  }

  predicate AreLines(lines: seq<Bytes>) { forall i :: 0 <= i < |lines| ==> IsLine(lines[i]) }

  /** The entries of one map. */
  function MapEntries(i: nat, m: map<Value, Obj>, keys: seq<Value>): (es: seq<Entry>)
    requires Within(m, keys)
    ensures |es| == |keys| && forall j :: 0 <= j < |es| ==> es[j] == Object(i, m[keys[j]])
    decreases |keys|
  {
    if |keys| == 0 then [] else [Object(i, m[keys[0]])] + MapEntries(i, m, keys[1..])
  }

  lemma {:induction false} ObjLinesRead(t: ObjType, i: nat, m: map<Value, Obj>, keys: seq<Value>, isPrint: int -> bool, read: Bytes -> Entry)
    returns (lines: seq<Bytes>)
    requires AllReadBack(t, i, m, isPrint, read) && Covers(t, m, keys)
    ensures ObjLines(t, m, keys, isPrint) == Ok(lines) && AreLines(lines)
    ensures ReadAll(read, lines) == MapEntries(i, m, keys)
    decreases |keys|
  {
    lines := [];
    if |keys| > 0 {
      assert ReadsBack(t, i, keys[0], m[keys[0]], isPrint, read);
      var more := ObjLinesRead(t, i, m, keys[1..], isPrint, read);
      var line := EncodeObj(t, m[keys[0]], isPrint).value;
      lines := [line] + more;
      ReadFirst(read, line, more);
    }
  }

  lemma ReadFirst(read: Bytes -> Entry, line: Bytes, more: seq<Bytes>)
    requires IsLine(line) && AreLines(more)
    ensures AreLines([line] + more) && ReadAll(read, [line] + more) == [read(line)] + ReadAll(read, more)
  {
    assert ([line] + more)[1..] == more;
  }

  /** The entries of the maps from the i-th on: each entry of these maps, once. */
  ghost predicate Represents(es: seq<Entry>, c: Contents, i: nat)
  {
    && (forall j :: 0 <= j < |es| ==> (
          && es[j].Object? && i <= es[j].index < |c|
          && es[j].obj.key in c[es[j].index] && c[es[j].index][es[j].obj.key] == es[j].obj))
    && (forall j, k :: 0 <= j < k < |es| ==> Slot(es[j]) != Slot(es[k]))
    && (forall n, k :: i <= n < |c| && k in c[n] ==> At(es, n, k))
  }

  predicate Keyed(m: map<Value, Obj>) { forall k :: k in m ==> m[k].key == k }

  lemma MapEntriesFit(i: nat, m: map<Value, Obj>, keys: seq<Value>)
    requires Lists(m, keys) && Keyed(m)
    ensures var es := MapEntries(i, m, keys);
      && (forall j :: 0 <= j < |es| ==> es[j].Object? && es[j].index == i && es[j].obj.key in m && m[es[j].obj.key] == es[j].obj)
      && (forall j, k :: 0 <= j < k < |es| ==> Slot(es[j]) != Slot(es[k]))
      && (forall k :: k in m ==> At(es, i, k))
  {
    var es := MapEntries(i, m, keys);
    forall j | 0 <= j < |es| ensures es[j] == Object(i, m[keys[j]]) && Slot(es[j]) == (i, keys[j]) && keys[j] in m {}
    forall k | k in m ensures At(es, i, k) {
      var j :| 0 <= j < |keys| && keys[j] == k;
      assert es[j].Object? && Slot(es[j]) == (i, k);
    }
  }

  lemma AtAppend(a: seq<Entry>, b: seq<Entry>, n: nat, k: Value)
    requires At(a, n, k) || At(b, n, k)
    ensures At(a + b, n, k)
  {
    if At(a, n, k) {
      var j :| 0 <= j < |a| && a[j].Object? && Slot(a[j]) == (n, k);
      assert (a + b)[j] == a[j];
    } else {
      var j :| 0 <= j < |b| && b[j].Object? && Slot(b[j]) == (n, k);
      assert (a + b)[|a| + j] == b[j];
    }
  }

  lemma RepresentsMore(i: nat, c: Contents, keys: seq<Value>, more: seq<Entry>)
    requires i < |c| && Lists(c[i], keys) && Keyed(c[i]) && Represents(more, c, i + 1)
    ensures Represents(MapEntries(i, c[i], keys) + more, c, i)
  {
    var mine := MapEntries(i, c[i], keys);
    MapEntriesFit(i, c[i], keys);
    forall n, k | i <= n < |c| && k in c[n] ensures At(mine + more, n, k) {
      AtAppend(mine, more, n, k);
    }
  }

  /** The lines of the maps, one map after the other, from the i-th on. */
  function Flat(per: seq<seq<Bytes>>, i: nat): seq<Bytes>
    requires i <= |per|
    decreases |per| - i
  {
    if i == |per| then [] else per[i] + Flat(per, i + 1)
  }

  lemma {:induction false} FlatLines(sc: Schema, c: Contents, orders: seq<seq<Value>>, isPrint: int -> bool,
                                     per: seq<seq<Bytes>>, i: nat)
    requires CoversAll(sc, c, orders) && |per| == |c| && i <= |c|
    requires forall n :: 0 <= n < |c| ==> ObjLines(sc.objs[n], c[n], orders[n], isPrint) == Ok(per[n])
    ensures FileLines(sc, c, orders, i, isPrint) == Ok(Flat(per, i))
    decreases |c| - i
  {
    if i < |c| { FlatLines(sc, c, orders, isPrint, per, i + 1); }
  }

  lemma {:induction false} FlatRead(c: Contents, orders: seq<seq<Value>>, read: Bytes -> Entry, per: seq<seq<Bytes>>, i: nat)
    requires |per| == |c| == |orders| && i <= |c|
    requires forall n :: 0 <= n < |c| ==> Written(n, c[n], orders[n], read, per[n])
    ensures FileWritten(c, i, read, Flat(per, i))
    decreases |c| - i
  {
    if i == |c| {
      NoneWritten(c, read);
    } else {
      FlatRead(c, orders, read, per, i + 1);
      FlatStep(i, c, orders[i], read, per[i], Flat(per, i + 1));
    }
  }

  lemma NoneWritten(c: Contents, read: Bytes -> Entry)
    ensures FileWritten(c, |c|, read, [])
  {}

  ghost predicate FileWritten(c: Contents, i: nat, read: Bytes -> Entry, lines: seq<Bytes>)
  {
    AreLines(lines) && Represents(ReadAll(read, lines), c, i)
  }

  lemma FlatStep(i: nat, c: Contents, keys: seq<Value>, read: Bytes -> Entry, mine: seq<Bytes>, more: seq<Bytes>)
    requires i < |c| && Written(i, c[i], keys, read, mine)
    requires FileWritten(c, i + 1, read, more)
    ensures FileWritten(c, i, read, mine + more)
  {
    ReadAppend(read, mine, more);
    RepresentsMore(i, c, keys, ReadAll(read, more));
  }

  /** The lines are the entries of the map when read. */
  predicate Written(i: nat, m: map<Value, Obj>, keys: seq<Value>, read: Bytes -> Entry, lines: seq<Bytes>)
  {
    Lists(m, keys) && Keyed(m) && AreLines(lines) && ReadAll(read, lines) == MapEntries(i, m, keys)
  }

  lemma StorableWritten(sc: Schema, i: nat, m: map<Value, Obj>, keys: seq<Value>, isPrint: int -> bool)
    returns (lines: seq<Bytes>)
    requires GoodSchema(sc) && i < |sc.objs| && StorableMap(sc.objs[i], m)
    requires Covers(sc.objs[i], m, keys) && Lists(m, keys)
    ensures ObjLines(sc.objs[i], m, keys, isPrint) == Ok(lines) && Written(i, m, keys, Reader(sc), lines)
  {
    StorableReadsBack(sc, i, m, isPrint);
    lines := ObjLinesRead(sc.objs[i], i, m, keys, isPrint, Reader(sc));
    assert forall k :: k in m ==> ReadsBack(sc.objs[i], i, k, m[k], isPrint, Reader(sc));
  }

  lemma FileLinesRead(sc: Schema, c: Contents, orders: seq<seq<Value>>, isPrint: int -> bool)
    returns (lines: seq<Bytes>)
    requires GoodSchema(sc) && StorableFile(sc, c)
    requires CoversAll(sc, c, orders) && forall i :: 0 <= i < |c| ==> Lists(c[i], orders[i])
    ensures FileLines(sc, c, orders, 0, isPrint) == Ok(lines) && FileWritten(c, 0, Reader(sc), lines)
  {
    var per := seq(|c|, i requires 0 <= i < |c| => LinesOrNone(sc.objs[i], c[i], orders[i], isPrint));
    forall i | 0 <= i < |c|
      ensures ObjLines(sc.objs[i], c[i], orders[i], isPrint) == Ok(per[i])
      ensures Written(i, c[i], orders[i], Reader(sc), per[i])
    {
      var mine := StorableWritten(sc, i, c[i], orders[i], isPrint);
    }
    FlatLines(sc, c, orders, isPrint, per, 0);
    FlatRead(c, orders, Reader(sc), per, 0);
    lines := Flat(per, 0);
  }

  function LinesOrNone(t: ObjType, m: map<Value, Obj>, keys: seq<Value>, isPrint: int -> bool): seq<Bytes>
    requires Covers(t, m, keys)
  {
    var r := ObjLines(t, m, keys, isPrint);
    if r.Ok? then r.value else []
  }

  /** Reading the entries of all maps gives the maps back. */
  lemma CollectAll(es: seq<Entry>, number: nat, c: Contents)
    requires Represents(es, c, 0)
    ensures InRange(es, |c|) && Collect(es, number, EmptyMaps(|c|)) == Decoded(c)
  {
    var none := EmptyMaps(|c|);
    CollectExact(es, number, none);
    assert Acceptable(es, none);
    assert Gathered(es, none, c);
    GatheredUnique(es, none, c, Collect(es, number, none).contents);
  }

  lemma ReadAppend(read: Bytes -> Entry, a: seq<Bytes>, b: seq<Bytes>)
    ensures ReadAll(read, a + b) == ReadAll(read, a) + ReadAll(read, b)
  {}

  lemma TrimTerminated(lines: seq<Bytes>)
    requires AreLines(lines)
    ensures TrimAll(Lines(Terminated(lines))) == lines
  {
    assert forall i :: 0 <= i < |lines| ==> IsLine(lines[i]);
    LinesOfTerminated(lines);
    var raw := Lines(Terminated(lines));
    forall i | 0 <= i < |lines| ensures TrimRight(raw[i], LINE_ENDS) == lines[i] {
      assert IsLine(lines[i]);
      TrimRightOne(lines[i], '\n', LINE_ENDS);
      assert raw[i] == lines[i] + ['\n'];
    }
  }

  lemma StorableCovers(sc: Schema, c: Contents, orders: seq<seq<Value>>)
    requires StorableFile(sc, c) && AreOrders(sc, c, orders)
    ensures CoversAll(sc, c, orders) && forall i :: 0 <= i < |c| ==> Lists(c[i], orders[i])
  {
    forall i | 0 <= i < |c| ensures Covers(sc.objs[i], c[i], orders[i]) && Lists(c[i], orders[i]) {
      assert StorableMap(sc.objs[i], c[i]) && IsOrder(sc.objs[i], c[i], orders[i]);
    }
  }

  lemma ParseTerminated(sc: Schema, lines: seq<Bytes>)
    requires AreLines(lines) && IsLine(Magic(sc))
    ensures Parse(sc, Terminated([Magic(sc)] + lines)) == Collect(Entries(sc, lines), 2, EmptyMaps(|sc.objs|))
  {
    var all := [Magic(sc)] + lines;
    assert forall i :: 0 <= i < |all| ==> IsLine(all[i]);
    TrimTerminated(all);
    assert all[1..] == lines;
  }

  /** Unmarshalling what was marshalled gives the contents back. */
  lemma FileRoundTrip(sc: Schema, c: Contents, orders: seq<seq<Value>>, isPrint: int -> bool)
    requires GoodSchema(sc) && StorableFile(sc, c) && AreOrders(sc, c, orders)
    ensures CoversAll(sc, c, orders) && Print(sc, c, orders, isPrint).Ok?
    ensures Parse(sc, Print(sc, c, orders, isPrint).value) == Decoded(c)
  {
    MagicLine(sc);
    StorableCovers(sc, c, orders);
    var lines := FileLinesRead(sc, c, orders, isPrint);
    ParseTerminated(sc, lines);
    CollectAll(ReadAll(Reader(sc), lines), 2, c);
  }

  lemma MagicLine(sc: Schema)
    requires GoodSchema(sc)
    ensures IsLine(Magic(sc))
  {}
}
