/** What the line format promises: files come back, parsing is sound, output is canonical. */
module KvTheorems {
  import opened Options
  import opened KvText
  import opened KvQuote
  import opened KvValue
  import opened KvObject
  import opened KvLine
  import opened KvEntries
  import opened KvFile
  import opened KvHash
  import opened KvMarshal

  // Exactly what one line gives back

  /** A line gives its object back exactly if the key has a text and the comment is one
      that a line can hold. */
  lemma LineRoundTripExact(t: ObjType, o: Obj, isPrint: int -> bool)
    requires GoodType(t) && PropsSurvive(t, o) && Survives(t.key, o.key)
    ensures EncodeObj(t, o, isPrint).Ok?
    ensures DecodeObj(t, CutBare(EncodeObj(t, o, isPrint).value).1) == Ok(o)
      <==> Plain(t.key, o.key) != Some([]) && PlainComment(o.comment)
  {
    if Plain(t.key, o.key) == Some([]) {
      EmptyKeyRefused(t, o, isPrint);
    } else {
      LineReadsCleaned(t, o, isPrint);
      CutCommentPart(o.comment);
      CommentRoundTripExact(o.comment);
    }
  }

  /** An object whose key has no text is written, but its line is refused. */
  lemma EmptyKeyRefused(t: ObjType, o: Obj, isPrint: int -> bool)
    requires GoodType(t) && PropsSurvive(t, o) && Survives(t.key, o.key) && Plain(t.key, o.key) == Some([])
    ensures EncodeObj(t, o, isPrint).Ok?
    ensures DecodeObj(t, CutBare(EncodeObj(t, o, isPrint).value).1).Err?
  {
    CommentTail(t, o);
    PropsRoundTrip(t, o, 0, isPrint, Zeros(t.props), {}, CommentOf(t, o));
    var props, end := EncodeProps(t, o, 0, isPrint).value, CommentOf(t, o);
    var name, more := AfterEmptyKey(t, o, 0, isPrint);
    EmptyKeyLine(t, o, props, isPrint);
    EmptyKeyTail(t, props + end, name, more);
  }

  lemma EmptyKeyTail(t: ObjType, tail: Bytes, name: Bytes, more: Bytes)
    requires GoodName(t.name)
    requires var s := TrimLeft(tail);
      if name == [] then s == [] || s[0] == '#' else GoodName(name) && s == name + (['='] + more)
    ensures DecodeObj(t, CutBare(t.name + ([' '] + tail)).1).Err?
  {
    RefusedAfter(t, tail, name, more);
    BareIsFree(t.name);
    CutBareToken(t.name, [' '] + tail);
  }

  lemma EmptyKeyLine(t: ObjType, o: Obj, props: Bytes, isPrint: int -> bool)
    requires Typed(t, o) && Plain(t.key, o.key) == Some([]) && EncodeProps(t, o, 0, isPrint) == Ok(props)
    ensures EncodeObj(t, o, isPrint) == Ok(t.name + ([' '] + (props + CommentOf(t, o))))
  {
    assert EncodeVal(t.key, o.key, isPrint) == Ok([]);
    assert [' '] + [] + props + CommentOf(t, o) == [' '] + (props + CommentOf(t, o));
  }

  /** What stands in the place of an empty key: a property and its sign, a comment, or
      nothing. */
  lemma {:induction false} AfterEmptyKey(t: ObjType, o: Obj, i: nat, isPrint: int -> bool) returns (name: Bytes, more: Bytes)
    requires GoodType(t) && Typed(t, o) && i <= |t.props| && EncodeProps(t, o, i, isPrint).Ok?
    ensures var s := TrimLeft(EncodeProps(t, o, i, isPrint).value + CommentOf(t, o));
      if name == [] then s == [] || s[0] == '#' else GoodName(name) && s == name + (['='] + more)
    decreases |t.props| - i
  {
    var end := CommentOf(t, o);
    if i == |t.props| {
      name, more := [], [];
      assert [] + end == end;
      HashEndsLine(Clean(o.comment));
    } else if Omitted(t.props[i], o.props[i]) {
      name, more := AfterEmptyKey(t, o, i + 1, isPrint);
    } else {
      name := t.props[i].name;
      more := PropAfterKey(t, o, i, isPrint, end);
    }
  }

  lemma PropAfterKey(t: ObjType, o: Obj, i: nat, isPrint: int -> bool, end: Bytes) returns (more: Bytes)
    requires Typed(t, o) && i < |t.props| && !Omitted(t.props[i], o.props[i]) && EncodeProps(t, o, i, isPrint).Ok?
    requires GoodName(t.props[i].name)
    ensures TrimLeft(EncodeProps(t, o, i, isPrint).value + end) == t.props[i].name + (['='] + more)
  {
    var val := EncodeVal(t.props[i].kind, o.props[i], isPrint).value;
    var rest := EncodeProps(t, o, i + 1, isPrint).value;
    more := val + (rest + end);
    EncodePropsStep(t, o, i, isPrint, val, rest, end);
    TrimNamed(t.props[i].name, val, rest + end);
  }

  lemma TrimNamed(name: Bytes, val: Bytes, rest: Bytes)
    requires GoodName(name)
    ensures TrimLeft([' '] + name + ['='] + val + rest) == name + (['='] + (val + rest))
  {
    assert [' '] + name + ['='] + val + rest == [' '] + (name + (['='] + (val + rest)));
    TrimOne([' '] + name + ['='] + val + rest, name, ['='] + (val + rest));
  }

  lemma RefusedAfter(t: ObjType, tail: Bytes, name: Bytes, more: Bytes)
    requires var s := TrimLeft(tail);
      if name == [] then s == [] || s[0] == '#' else GoodName(name) && s == name + (['='] + more)
    ensures DecodeObj(t, [' '] + tail).Err?
  {
    assert ([' '] + tail)[1..] == tail;
    assert TrimLeft([' '] + tail) == TrimLeft(tail);
    if name != [] {
      BareIsFree(name);
      CutBareToken(name, ['='] + more);
      var rest: Bytes := ['='] + more;
      assert TrimLeft(tail)[0] == name[0];
      assert CutValue([' '] + tail) == Ok((name, rest));
      assert TrimLeft(rest) == rest && CutBare(rest) == ([], rest);
      assert DecodeProps(t, Zeros(t.props), {}, rest).Err?;
    }
  }

  // Parsing

  /** A line is an object of the i-th map exactly if it starts with the name of that type
      and describes the object. */
  lemma ReadingExact(sc: Schema, line: Bytes, i: nat, o: Obj)
    requires i < |sc.objs|
    ensures Reading(sc, line) == Object(i, o) <==>
      IsObject(line) && ObjIndex(sc.objs, CutBare(line).0) == Some(i) && Describes(sc.objs[i], CutBare(line).1, o)
  {
    DecodeObjExact(sc.objs[i], CutBare(line).1, o);
  }

  /** Unmarshal returns c exactly if the first line is the magic, every other line that is
      not blank or a comment holds an object, no two objects of one map have the same
      key, and c holds these objects under their keys and nothing else. */
  lemma UnmarshalExact(sc: Schema, data: Bytes, c: Contents)
    ensures Parse(sc, data) == Decoded(c) <==>
      var lines := TrimAll(Lines(data));
      && |lines| > 0 && lines[0] == Magic(sc)
      && var es := Entries(sc, lines[1..]);
      Acceptable(es, EmptyMaps(|sc.objs|)) && Gathered(es, EmptyMaps(|sc.objs|), c)
  {
    var lines := TrimAll(Lines(data));
    if |lines| > 0 && lines[0] == Magic(sc) {
      var es, none := Entries(sc, lines[1..]), EmptyMaps(|sc.objs|);
      CollectExact(es, 2, none);
      if Acceptable(es, none) && Gathered(es, none, c) {
        GatheredUnique(es, none, c, Collect(es, 2, none).contents);
      }
    }
  }

  /** What may stand between the magic and the end of its line. */
  predicate Padding(s: Bytes) { forall i :: 0 <= i < |s| ==> s[i] in {'\r', ' ', '\t'} }

  /** The data is the magic, some padding, and then nothing or more lines. */
  predicate Starts(data: Bytes, magic: Bytes, padding: Bytes, more: Bytes)
  {
    Padding(padding) && (data == magic + padding || data == magic + padding + ['\n'] + more)
  }

  lemma {:induction false} PaddingTrimmed(s: Bytes, padding: Bytes, cut: set<char>)
    requires |s| > 0 && s[|s| - 1] !in cut && forall i :: 0 <= i < |padding| ==> padding[i] in cut
    ensures TrimRight(s + padding, cut) == s
  {
    if |padding| == 0 {
      assert s + padding == s;
    } else {
      var n := |padding| - 1;
      PaddingTrimmed(s, padding[..n], cut);
      TrimRightOne(s + padding[..n], padding[n], cut);
      assert s + padding == (s + padding[..n]) + [padding[n]];
    }
  }

  lemma MagicRead(data: Bytes, magic: Bytes, padding: Bytes, more: Bytes)
    requires IsLine(magic) && Starts(data, magic, padding, more)
    ensures |data| > 0 && LineOf(data) == magic
  {
    assert '\n' !in magic + padding;
    if data == magic + padding {
      CutNone(data, '\n');
      PaddingTrimmed(magic, padding, LINE_ENDS);
    } else {
      CutFirst(magic + padding, '\n', more);
      assert (magic + padding) + ['\n'] == magic + (padding + ['\n']);
      PaddingTrimmed(magic, padding + ['\n'], LINE_ENDS);
    }
  }

  lemma ReadMagic(data: Bytes, magic: Bytes) returns (padding: Bytes, more: Bytes)
    requires |data| > 0 && IsLine(magic) && LineOf(data) == magic
    ensures Starts(data, magic, padding, more)
  {
    CutShortens(data, '\n');
    var line := Lines(data)[0];
    var tail := TrimRightCuts(line, LINE_ENDS);
    match Cut(data, '\n')
    case None =>
      NoCut(data, '\n');
      padding, more := tail, [];
      assert forall i :: 0 <= i < |tail| ==> tail[i] == data[|magic| + i];
    case Some((before, rest)) =>
      assert line == before + ['\n'];
      padding, more := before[|magic|..], rest;
      assert |tail| > 0 by { assert line[|line| - 1] == '\n'; }
      assert before == line[..|line| - 1] == magic + tail[..|tail| - 1];
      assert padding == tail[..|tail| - 1];
      assert forall i :: 0 <= i < |padding| ==> padding[i] == before[|magic| + i];
  }

  /** Unmarshal reports a bad magic exactly if the data does not start with the magic on a
      line of its own, where blanks and carriage returns may follow it. */
  lemma BadMagicExact(sc: Schema, data: Bytes)
    requires GoodSchema(sc)
    ensures Parse(sc, data).BadMagic? <==> !exists padding, more :: Starts(data, Magic(sc), padding, more)
  {
    MagicLine(sc);
    var lines := TrimAll(Lines(data));
    if padding, more :| Starts(data, Magic(sc), padding, more) {
      MagicRead(data, Magic(sc), padding, more);
    } else if |data| > 0 && LineOf(data) == Magic(sc) {
      var padding, more := ReadMagic(data, Magic(sc));
    }
    assert |data| > 0 ==> lines[0] == LineOf(data);
  }

  function ObjectLines(lines: seq<Bytes>): nat
  {
    if |lines| == 0 then 0 else (if IsObject(lines[0]) then 1 else 0) + ObjectLines(lines[1..])
  }

  lemma {:induction false} ObjectsAreLines(read: Bytes -> Entry, lines: seq<Bytes>)
    requires forall j :: 0 <= j < |lines| ==> (read(lines[j]).Object? <==> IsObject(lines[j]))
    ensures Objects(ReadAll(read, lines)) == ObjectLines(lines)
  {
    if |lines| > 0 { ObjectsAreLines(read, lines[1..]); }
  }

  lemma {:induction false} NoneTotal(n: nat)
    ensures Total(EmptyMaps(n)) == 0
  {
    if n > 0 {
      NoneTotal(n - 1);
      assert EmptyMaps(n)[1..] == EmptyMaps(n - 1);
    }
  }

  /** Whatever was decoded stands under its own key, and there are as many entries as
      lines with an object. */
  lemma UnmarshalSound(sc: Schema, data: Bytes)
    requires Parse(sc, data).Decoded?
    ensures var c := Parse(sc, data).contents;
      && |c| == |sc.objs| && (forall i :: 0 <= i < |c| ==> Keyed(c[i]))
      && Total(c) == ObjectLines(TrimAll(Lines(data))[1..])
  {
    var lines, c := TrimAll(Lines(data)), Parse(sc, data).contents;
    UnmarshalExact(sc, data, c);
    var es, none := Entries(sc, lines[1..]), EmptyMaps(|sc.objs|);
    GatheredKeyed(es, none, c);
    CollectCounts(es, 2, none);
    NoneTotal(|sc.objs|);
    assert forall j :: 0 <= j < |es| ==> !es[j].Malformed?;
    ReadObjects(sc, lines[1..]);
  }

  lemma ReadObjects(sc: Schema, lines: seq<Bytes>)
    requires forall j :: 0 <= j < |lines| ==> !Entries(sc, lines)[j].Malformed?
    ensures Objects(Entries(sc, lines)) == ObjectLines(lines)
  {
    forall j | 0 <= j < |lines| ensures Reader(sc)(lines[j]).Object? <==> IsObject(lines[j]) {
      assert !Entries(sc, lines)[j].Malformed?;
    }
    ObjectsAreLines(Reader(sc), lines);
  }

  lemma GatheredKeyed(es: seq<Entry>, before: Contents, after: Contents)
    requires InRange(es, |before|) && Gathered(es, before, after) && forall i :: 0 <= i < |before| ==> before[i] == map[]
    ensures forall i :: 0 <= i < |after| ==> Keyed(after[i])
  {
    forall i, k | 0 <= i < |after| && k in after[i] ensures after[i][k].key == k {
      assert At(es, i, k);
      var j :| 0 <= j < |es| && es[j].Object? && Slot(es[j]) == (i, k);
    }
  }

  // Canonical output

  /** Different keys of the map have different strings. */
  predicate KeysTell(k: Kind, keys: seq<Value>)
    requires AllKind(k, keys)
  {
    forall i, j :: 0 <= i < |keys| && 0 <= j < |keys| && KeyString(k, keys[i]) == KeyString(k, keys[j]) ==> keys[i] == keys[j]
  }

  /** Only a type that brings its own text form can give two keys one string: the others
      are sorted by the text they are written as. */
  lemma StorableKeysTell(t: ObjType, m: map<Value, Obj>, keys: seq<Value>)
    requires StorableMap(t, m) && !t.key.KText? && Within(m, keys)
    ensures AllKind(t.key, keys) && KeysTell(t.key, keys)
  {
    forall i | 0 <= i < |keys| ensures Survives(t.key, keys[i]) {
      assert m[keys[i]].key == keys[i];
    }
    forall i, j | 0 <= i < |keys| && 0 <= j < |keys| && KeyString(t.key, keys[i]) == KeyString(t.key, keys[j])
      ensures keys[i] == keys[j]
    {
      KeyStringTells(t.key, keys[i], keys[j]);
    }
  }

  lemma KeyStringTells(k: Kind, x: Value, y: Value)
    requires Survives(k, x) && Survives(k, y) && !k.KText? && KeyString(k, x) == KeyString(k, y)
    ensures x == y
  {
    DecodePlain(k, x);
    DecodePlain(k, y);
    assert Plain(k, x) == Some(KeyString(k, x)) && Plain(k, y) == Some(KeyString(k, y));
  }

  /** There is one sorted order of keys that their strings tell apart. */
  lemma {:induction false} OrderUnique(k: Kind, a: seq<Value>, b: seq<Value>)
    requires SortedKeys(k, a) && SortedKeys(k, b) && KeysTell(k, a)
    requires forall x :: x in a <==> x in b
    ensures a == b
  {
    if |a| == 0 {
      Member(b);
    } else {
      assert a[0] in b;
      FirstSame(k, a, b);
      WithoutFirst(a);
      WithoutFirst(b);
      OrderUnique(k, a[1..], b[1..]);
      assert a == [a[0]] + a[1..] && b == [b[0]] + b[1..];
    }
  }

  lemma WithoutFirst(a: seq<Value>)
    requires Distinct(a) && |a| > 0
    ensures forall x :: x in a[1..] <==> x in a && x != a[0]
  {}

  lemma Member(b: seq<Value>)
    ensures |b| > 0 ==> exists x :: x in b
  {
    if |b| > 0 { assert b[0] in b; }
  }

  lemma FirstSame(k: Kind, a: seq<Value>, b: seq<Value>)
    requires SortedKeys(k, a) && SortedKeys(k, b) && KeysTell(k, a) && |a| > 0 && |b| > 0
    requires a[0] in b && b[0] in a
    ensures a[0] == b[0]
  {
    var i :| 0 <= i < |a| && a[i] == b[0];
    var j :| 0 <= j < |b| && b[j] == a[0];
    if i > 0 && j > 0 { LeqAntisymmetric(KeyString(k, a[0]), KeyString(k, b[0])); }
  }

  /** For keys that their strings tell apart, the output does not depend on the order in
      which the maps are iterated. */
  lemma OutputCanonical(sc: Schema, c: Contents, orders: seq<seq<Value>>, others: seq<seq<Value>>, isPrint: int -> bool)
    requires |c| == |sc.objs| && AreOrders(sc, c, orders) && AreOrders(sc, c, others) && CoversAll(sc, c, orders)
    requires forall i :: 0 <= i < |c| ==> AllKind(sc.objs[i].key, orders[i]) && KeysTell(sc.objs[i].key, orders[i])
    ensures orders == others && CoversAll(sc, c, others) && Print(sc, c, orders, isPrint) == Print(sc, c, others, isPrint)
  {
    forall i | 0 <= i < |c| ensures orders[i] == others[i] {
      assert IsOrder(sc.objs[i], c[i], orders[i]) && IsOrder(sc.objs[i], c[i], others[i]);
      SameKeys(c[i], orders[i], others[i]);
      OrderUnique(sc.objs[i].key, orders[i], others[i]);
    }
    assert orders == others;
  }

  lemma SameKeys(m: map<Value, Obj>, a: seq<Value>, b: seq<Value>)
    requires Lists(m, a) && Lists(m, b)
    ensures forall x :: x in a <==> x in b
  {
    assert forall x :: x in a ==> x in m;
    assert forall x :: x in b ==> x in m;
  }

  /** Marshalling what was unmarshalled gives the same bytes again. */
  lemma MarshalAgain(sc: Schema, c: Contents, orders: seq<seq<Value>>, others: seq<seq<Value>>, isPrint: int -> bool)
    requires GoodSchema(sc) && StorableFile(sc, c) && AreOrders(sc, c, orders)
    requires forall i :: 0 <= i < |c| ==> KeysTell(sc.objs[i].key, orders[i])
    ensures CoversAll(sc, c, orders) && Print(sc, c, orders, isPrint).Ok?
    ensures var data := Print(sc, c, orders, isPrint).value;
      var again := Parse(sc, data);
      again.Decoded? && |again.contents| == |sc.objs|
      && (AreOrders(sc, again.contents, others) ==>
            CoversAll(sc, again.contents, others) && Print(sc, again.contents, others, isPrint) == Ok(data))
  {
    FileRoundTrip(sc, c, orders, isPrint);
    if AreOrders(sc, c, others) { OutputCanonical(sc, c, orders, others, isPrint); }
  }
}
