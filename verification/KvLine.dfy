/** What a line says, apart from how it is decoded, and the loops of encodeObj and
    decodeObj. */
module KvLine {
  import opened Options
  import opened KvText
  import opened KvQuote
  import opened KvValue
  import opened KvObject

  datatype Pair = Pair(name: Bytes, text: Bytes)

  /** All properties that a line lists, and its end. */
  function Pairs(s: Bytes): Result<(seq<Pair>, Bytes)>
    decreases |s|
  {
    if LineEnd(s) then Ok(([], s))
    else
      match CutProp(s)
      case Err(e) => Err(e)
      case Ok((name, text, rest)) =>
        CutPropShortens(s);
        match Pairs(rest)
        case Err(e) => Err(e)
        case Ok((more, end)) => Ok(([Pair(name, text)] + more, end))
  }

  function Names(ps: seq<Pair>): set<Bytes> { set p | p in ps :: p.name }

  predicate Known(t: ObjType, ps: seq<Pair>)
  {
    forall j :: 0 <= j < |ps| ==> PropIndex(t.props, ps[j].name).Some?
  }

  /** No name is listed twice, or again. */
  predicate OnlyOnce(ps: seq<Pair>, seen: set<Bytes>)
  {
    && (forall j :: 0 <= j < |ps| ==> ps[j].name !in seen)
    && (forall j, k :: 0 <= j < k < |ps| ==> ps[j].name != ps[k].name)
  }

  /** Each listed property has the value of its text, the others are as before. */
  predicate Assigned(t: ObjType, ps: seq<Pair>, before: seq<Value>, after: seq<Value>)
    requires Known(t, ps) && |before| == |after| == |t.props|
  {
    && (forall j :: 0 <= j < |ps| ==>
          var i := PropIndex(t.props, ps[j].name).value; DecodeVal(t.props[i].kind, ps[j].text) == Ok(after[i]))
    && (forall i :: 0 <= i < |t.props| ==>
          (forall j :: 0 <= j < |ps| ==> PropIndex(t.props, ps[j].name) != Some(i)) ==> after[i] == before[i])
  }

  predicate Fits(t: ObjType, seen: set<Bytes>, ps: seq<Pair>, before: seq<Value>, after: seq<Value>)
  {
    && Known(t, ps) && OnlyOnce(ps, seen)
    && |before| == |after| == |t.props| && Assigned(t, ps, before, after)
  }

  lemma FitsStep(t: ObjType, seen: set<Bytes>, p: Pair, ps: seq<Pair>, before: seq<Value>, after: seq<Value>, i: nat)
    requires |before| == |t.props| && PropIndex(t.props, p.name) == Some(i)
    ensures Fits(t, seen, [p] + ps, before, after)
      <==> p.name !in seen && |after| == |t.props| && DecodeVal(t.props[i].kind, p.text) == Ok(after[i])
           && Fits(t, seen + {p.name}, ps, before[i := after[i]], after)
  {
    if Fits(t, seen, [p] + ps, before, after) { FitsFirst(t, seen, p, ps, before, after, i); }
    if p.name !in seen && |after| == |t.props| && DecodeVal(t.props[i].kind, p.text) == Ok(after[i])
      && Fits(t, seen + {p.name}, ps, before[i := after[i]], after)
    {
      FitsMore(t, seen, p, ps, before, after, i);
    }
  }

  lemma FitsFirst(t: ObjType, seen: set<Bytes>, p: Pair, ps: seq<Pair>, before: seq<Value>, after: seq<Value>, i: nat)
    requires |before| == |t.props| && PropIndex(t.props, p.name) == Some(i)
    requires Fits(t, seen, [p] + ps, before, after)
    ensures p.name !in seen && DecodeVal(t.props[i].kind, p.text) == Ok(after[i])
    ensures Fits(t, seen + {p.name}, ps, before[i := after[i]], after)
  {
    var all := [p] + ps;
    assert all[0] == p && forall j :: 0 <= j < |ps| ==> ps[j] == all[j + 1];
    forall k | 0 <= k < |t.props| && (forall j :: 0 <= j < |ps| ==> PropIndex(t.props, ps[j].name) != Some(k))
      ensures after[k] == before[i := after[i]][k]
    {
      assert k != i ==> forall j :: 0 <= j < |all| ==> PropIndex(t.props, all[j].name) != Some(k);
    }
  }

  lemma FitsMore(t: ObjType, seen: set<Bytes>, p: Pair, ps: seq<Pair>, before: seq<Value>, after: seq<Value>, i: nat)
    requires |before| == |t.props| && PropIndex(t.props, p.name) == Some(i)
    requires p.name !in seen && |after| == |t.props| && DecodeVal(t.props[i].kind, p.text) == Ok(after[i])
    requires Fits(t, seen + {p.name}, ps, before[i := after[i]], after)
    ensures Fits(t, seen, [p] + ps, before, after)
  {
    var all := [p] + ps;
    assert all[0] == p && forall j :: 0 < j < |all| ==> all[j] == ps[j - 1];
    forall k | 0 <= k < |t.props| && (forall j :: 0 <= j < |all| ==> PropIndex(t.props, all[j].name) != Some(k))
      ensures after[k] == before[k]
    {
      assert PropIndex(t.props, all[0].name) != Some(k);
      assert forall j :: 0 <= j < |ps| ==> ps[j] == all[j + 1];
    }
  }

  lemma NamesStep(p: Pair, ps: seq<Pair>)
    ensures Names([p] + ps) == {p.name} + Names(ps)
  {}

  /** The property loop accepts exactly the lists of known names, each listed once, whose
      texts decode. */
  lemma {:induction false} DecodePropsExact(t: ObjType, vals: seq<Value>, seen: set<Bytes>, s: Bytes, after: seq<Value>)
    requires |vals| == |t.props|
    ensures DecodeProps(t, vals, seen, s).Ok? ==> Pairs(s).Ok?
    ensures Pairs(s).Ok? ==>
      var (ps, end) := Pairs(s).value;
      var r := DecodeProps(t, vals, seen, s);
      && (r.Ok? && r.value.vals == after <==> Fits(t, seen, ps, vals, after))
      && (r.Ok? ==> r.value.rest == end && r.value.seen == seen + Names(ps))
    decreases |s|
  {
    if !LineEnd(s) && CutProp(s).Ok? {
      CutPropShortens(s);
      var (name, text, rest) := CutProp(s).value;
      var i := PropIndex(t.props, name);
      if i.Some? && name !in seen && DecodeVal(t.props[i.value].kind, text).Ok? {
        DecodePropsExact(t, vals[i.value := DecodeVal(t.props[i.value].kind, text).value], seen + {name}, rest, after);
        if Pairs(rest).Ok? {
          NamesStep(Pair(name, text), Pairs(rest).value.0);
          FitsStep(t, seen, Pair(name, text), Pairs(rest).value.0, vals, after, i.value);
        }
      } else if Pairs(rest).Ok? {
        Misfit(t, seen, Pair(name, text), Pairs(rest).value.0, vals, after);
      } else if i.Some? && name !in seen {
      }
    }
  }

  lemma Misfit(t: ObjType, seen: set<Bytes>, p: Pair, ps: seq<Pair>, before: seq<Value>, after: seq<Value>)
    requires var i := PropIndex(t.props, p.name); i.None? || p.name in seen || DecodeVal(t.props[i.value].kind, p.text).Err?
    ensures !Fits(t, seen, [p] + ps, before, after)
  {
    assert ([p] + ps)[0] == p;
  }

  /** What decodeObj demands of a line, said without its loop. */
  predicate Describes(t: ObjType, s: Bytes, o: Obj)
  {
    && CutValue(s).Ok?
    && DecodeVal(t.key, CutValue(s).value.0) == Ok(o.key)
    && Pairs(CutValue(s).value.1).Ok?
    && var (ps, end) := Pairs(CutValue(s).value.1).value;
    && Fits(t, {}, ps, Zeros(t.props), o.props)
    && AllPresent(t.props, Names(ps))
    && o.comment == if t.comment then CutComment(end) else []
  }

  /** decodeObj accepts exactly the lines that describe an object, and returns it: every
      required property is listed once, every optional one once or not at all. */
  lemma DecodeObjExact(t: ObjType, s: Bytes, o: Obj)
    ensures DecodeObj(t, s) == Ok(o) <==> Describes(t, s, o)
  {
    if CutValue(s).Ok? {
      var rest := CutValue(s).value.1;
      DecodePropsExact(t, Zeros(t.props), {}, rest, o.props);
      if Pairs(rest).Ok? {
        assert {} + Names(Pairs(rest).value.0) == Names(Pairs(rest).value.0);
      }
    }
  }

  /** decodeObj's loop over the properties of a line. */
  method ReadProps(t: ObjType, s: Bytes) returns (r: Result<Progress>)
    ensures r == DecodeProps(t, Zeros(t.props), {}, s)
  {
    var vals, seen, rest := Zeros(t.props), {}, s;
    while !LineEnd(rest)
      invariant |vals| == |t.props|
      invariant DecodeProps(t, vals, seen, rest) == DecodeProps(t, Zeros(t.props), {}, s)
      decreases |rest|
    {
      var prop := CutProp(rest);
      if prop.Err? { return Err(prop.reason); }
      CutPropShortens(rest);
      var (name, text, after) := prop.value;
      var i := PropIndex(t.props, name);
      if i.None? { return Err("unknown prop"); }
      if name in seen { return Err("duplicate prop"); }
      var v := DecodeVal(t.props[i.value].kind, text);
      if v.Err? { return Err(v.reason); }
      vals, seen, rest := vals[i.value := v.value], seen + {name}, after;
    }
    r := Ok(Progress(vals, seen, rest));
  }

  /** decodeObj's loop over the properties of the type. */
  method MissingProp(props: seq<Prop>, seen: set<Bytes>) returns (missing: bool)
    ensures missing <==> !AllPresent(props, seen)
  {
    for i := 0 to |props|
      invariant forall j :: 0 <= j < i ==> props[j].optional || props[j].name in seen
    {
      if props[i].name !in seen && !props[i].optional { return true; }
    }
    missing := false;
  }

  method DecodeLine(t: ObjType, s: Bytes) returns (r: Result<Obj>)
    ensures r == DecodeObj(t, s)
  {
    var cut := CutValue(s);
    if cut.Err? { return Err(cut.reason); }
    var key := DecodeVal(t.key, cut.value.0);
    if key.Err? { return Err(key.reason); }
    var props := ReadProps(t, cut.value.1);
    if props.Err? { return Err(props.reason); }
    var missing := MissingProp(t.props, props.value.seen);
    if missing { return Err("missing prop"); }
    r := Ok(Obj(key.value, props.value.vals, if t.comment then CutComment(props.value.rest) else []));
  }

  /** What is still to come after the text written so far. */
  ghost predicate Continues<T>(all: Result<seq<T>>, written: seq<T>, more: Result<seq<T>>)
  {
    if more.Ok? then all == Ok(written + more.value) else all == more
  }

  lemma ContinuesStep(t: ObjType, o: Obj, i: nat, isPrint: int -> bool, all: Result<Bytes>, written: Bytes)
    requires Typed(t, o) && i < |t.props| && Continues(all, written, EncodeProps(t, o, i, isPrint))
    requires !Omitted(t.props[i], o.props[i])
    ensures match EncodeVal(t.props[i].kind, o.props[i], isPrint)
      case Ok(val) => Continues(all, written + ([' '] + t.props[i].name + ['='] + val), EncodeProps(t, o, i + 1, isPrint))
      case Err(e) => all == Err(e)
  {
    var val := EncodeVal(t.props[i].kind, o.props[i], isPrint);
    var more := EncodeProps(t, o, i + 1, isPrint);
    if val.Ok? && more.Ok? {
      var p: Bytes := [' '] + t.props[i].name + ['='] + val.value;
      assert EncodeProps(t, o, i, isPrint) == Ok(p + more.value);
      assert written + (p + more.value) == (written + p) + more.value;
    }
  }

  /** encodeObj's loop over the properties. */
  method WriteProps(t: ObjType, o: Obj, isPrint: int -> bool) returns (r: Result<Bytes>)
    requires Typed(t, o)
    ensures r == EncodeProps(t, o, 0, isPrint)
  {
    var props: Bytes := [];
    ghost var all := EncodeProps(t, o, 0, isPrint);
    assert all.Ok? ==> props + all.value == all.value;
    for i := 0 to |t.props|
      invariant Continues(all, props, EncodeProps(t, o, i, isPrint))
    {
      if !Omitted(t.props[i], o.props[i]) {
        ContinuesStep(t, o, i, isPrint, all, props);
        var val := EncodeVal(t.props[i].kind, o.props[i], isPrint);
        if val.Err? { return val; }
        props := props + ([' '] + t.props[i].name + ['='] + val.value);
      }
    }
    assert props + [] == props;
    r := Ok(props);
  }

  method EncodeLine(t: ObjType, o: Obj, isPrint: int -> bool) returns (r: Result<Bytes>)
    requires Typed(t, o)
    ensures r == EncodeObj(t, o, isPrint)
  {
    var key := EncodeVal(t.key, o.key, isPrint);
    if key.Err? { return key; }
    var props := WriteProps(t, o, isPrint);
    if props.Err? { return props; }
    r := Ok(t.name + ([' '] + key.value + props.value + CommentOf(t, o)));
  }
}
