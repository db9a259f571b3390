/** One object line: a type name, a key, properties and a comment. */
module KvObject {
  import opened Options
  import opened KvText
  import opened KvQuote
  import opened KvValue

  datatype Prop = Prop(name: Bytes, kind: Kind, optional: bool)

  /** A struct of the schema; comment says that it has a comment field. */
  datatype ObjType = ObjType(name: Bytes, key: Kind, props: seq<Prop>, comment: bool)

  /** A struct value: one value for each property, and "" as comment when it has none. */
  datatype Obj = Obj(key: Value, props: seq<Value>, comment: Bytes)

  // Comments

  /** The comment as encodeObj maps it, rune by rune: line ends are dropped, and a byte
      that is not UTF-8 becomes the replacement character. */
  function Clean(s: Bytes): Bytes
    decreases |s|
  {
    if |s| == 0 then []
    else
      RuneWidth(s);
      var (r, n) := DecodeRune(s);
      DecodedValid(s);
      (if r == '\n' as int || r == '\r' as int then [] else EncodeRune(r)) + Clean(s[n..])
  }

  predicate ValidUtf8(s: Bytes)
    decreases |s|
  {
    |s| > 0 ==> SequenceLength(s) > 0 && ValidUtf8(s[SequenceLength(s)..])
  }

  function CommentPart(comment: Bytes): Bytes
  {
    var c := Clean(comment);
    if c == [] then [] else [' ', '#', ' '] + c
  }

  function CutComment(s: Bytes): Bytes
  {
    var t := TrimLeft(s);
    if t == [] || t[0] != '#' then []
    else TrimRight(if |t| > 1 && t[1] == ' ' then t[2..] else t[1..], BLANKS)
  }

  /** A comment that a line can hold. */
  predicate PlainComment(c: Bytes)
  {
    ValidUtf8(c) && Free(c, {'\r', '\n'}) && (|c| > 0 ==> c[|c| - 1] !in BLANKS)
  }

  /** A valid sequence is kept whole, or dropped if it is a line end. */
  lemma CleanRune(s: Bytes)
    requires |s| > 0 && SequenceLength(s) > 0
    ensures var n := SequenceLength(s);
      Clean(s) == (if s[0] == '\n' || s[0] == '\r' then [] else s[..n]) + Clean(s[n..])
  {
    RuneRoundTrip(s);
  }

  lemma {:induction false} CleanKeeps(s: Bytes)
    requires ValidUtf8(s) && Free(s, {'\r', '\n'})
    ensures Clean(s) == s
    decreases |s|
  {
    if |s| > 0 {
      var n := SequenceLength(s);
      KeepRune(s);
      CleanKeeps(s[n..]);
    }
  }

  lemma KeepRune(s: Bytes)
    requires |s| > 0 && SequenceLength(s) > 0 && Free(s, {'\r', '\n'})
    ensures var n := SequenceLength(s);
      Free(s[n..], {'\r', '\n'}) && (Clean(s[n..]) == s[n..] ==> Clean(s) == s)
  {
    var n := SequenceLength(s);
    FreeRest(s, n, {'\r', '\n'});
    CleanRune(s);
    Rejoin(Clean(s), s, n, Clean(s[n..]));
  }

  lemma Rejoin(c: Bytes, s: Bytes, n: nat, rest: Bytes)
    requires n <= |s| && c == s[..n] + rest
    ensures rest == s[n..] ==> c == s
  {
    assert s == s[..n] + s[n..];
  }

  lemma FreeRest(s: Bytes, n: nat, cut: set<char>)
    requires n <= |s|
    ensures Free(s, cut) <==> Free(s[..n], cut) && Free(s[n..], cut)
  {
    assert s == s[..n] + s[n..];
  }

  /** If a text comes back with blanks added at most, all its runes were kept. */
  lemma {:induction false} CleanKeptOnly(s: Bytes, blanks: Bytes)
    requires Clean(s) == s + blanks && forall i :: 0 <= i < |blanks| ==> blanks[i] in BLANKS
    ensures ValidUtf8(s) && Free(s, {'\r', '\n'})
    decreases |s|
  {
    if |s| > 0 {
      CleanFree(s);
      assert Clean(s)[0] == s[0];
      if SequenceLength(s) == 0 { Replaced(s); }
      NotReplaced(s, Clean(s), blanks);
      var n := SequenceLength(s);
      CleanRune(s);
      RuneFree(s);
      KeptRune(Clean(s), s, n, Clean(s[n..]), blanks);
      CleanKeptOnly(s[n..], blanks);
      FreeRest(s, n, {'\r', '\n'});
    }
  }

  lemma RuneFree(s: Bytes)
    requires |s| > 0 && SequenceLength(s) > 0 && s[0] != '\n' && s[0] != '\r'
    ensures Free(s[..SequenceLength(s)], {'\r', '\n'})
  {}

  lemma KeptRune(c: Bytes, s: Bytes, n: nat, rest: Bytes, blanks: Bytes)
    requires n <= |s| && c == s[..n] + rest == s + blanks
    ensures rest == s[n..] + blanks
  {
    assert c[n..] == rest;
    assert (s + blanks)[n..] == s[n..] + blanks;
  }

  lemma {:induction false} CleanFree(s: Bytes)
    ensures Free(Clean(s), {'\r', '\n'})
    decreases |s|
  {
    if |s| > 0 {
      RuneWidth(s);
      CleanFree(s[DecodeRune(s).1..]);
      DecodedValid(s);
      EncodedRuneFree(DecodeRune(s).0);
    }
  }

  lemma EncodedRuneFree(r: int)
    requires ValidRune(r)
    ensures r != '\n' as int && r != '\r' as int ==> Free(EncodeRune(r), {'\r', '\n'})
    ensures EncodeRune(RUNE_ERROR) == [ToByte(0xEF), ToByte(0xBF), ToByte(0xBD)]
  {}

  lemma Replaced(s: Bytes)
    requires |s| > 0 && SequenceLength(s) == 0
    ensures var c := Clean(s); IsReplacement(c)
  {
    EncodedRuneFree(RUNE_ERROR);
  }

  predicate IsReplacement(c: Bytes)
  {
    |c| >= 3 && c[0] == ToByte(0xEF) && c[1] == ToByte(0xBF) && c[2] == ToByte(0xBD)
  }

  /** Blanks do not complete a replacement character. */
  lemma NotReplaced(s: Bytes, c: Bytes, blanks: Bytes)
    requires |s| > 0 && c == s + blanks && forall i :: 0 <= i < |blanks| ==> blanks[i] in BLANKS
    requires SequenceLength(s) == 0 ==> IsReplacement(c)
    ensures SequenceLength(s) > 0
  {
    assert |c| >= 3 && |s| < 3 ==> c[|s|] == blanks[0];
  }

  lemma TrimRightCuts(s: Bytes, cut: set<char>) returns (tail: Bytes)
    ensures s == TrimRight(s, cut) + tail && forall i :: 0 <= i < |tail| ==> tail[i] in cut
  {
    if |s| > 0 && s[|s| - 1] in cut {
      var more := TrimRightCuts(s[..|s| - 1], cut);
      tail := more + [s[|s| - 1]];
      assert s == s[..|s| - 1] + [s[|s| - 1]];
    } else {
      tail := [];
    }
  }

  lemma {:induction false} TrimRightEnds(s: Bytes, cut: set<char>)
    ensures var t := TrimRight(s, cut); |t| > 0 ==> t[|t| - 1] !in cut
  {
    if |s| > 0 && s[|s| - 1] in cut { TrimRightEnds(s[..|s| - 1], cut); }
  }

  lemma CutCommentPart(comment: Bytes)
    ensures CutComment(CommentPart(comment)) == TrimRight(Clean(comment), BLANKS)
  {
    if Clean(comment) != [] { CutHash(Clean(comment)); }
  }

  lemma CutHash(c: Bytes)
    ensures CutComment([' ', '#', ' '] + c) == TrimRight(c, BLANKS)
  {
    var s: Bytes := [' ', '#', ' '] + c;
    assert s[1..] == ['#', ' '] + c;
    assert TrimLeft(s) == s[1..];
    assert s[1..][2..] == c;
  }

  /** A comment comes back exactly if it is valid UTF-8 without line ends and without
      trailing blanks. */
  lemma CommentRoundTripExact(c: Bytes)
    ensures CutComment(CommentPart(c)) == c <==> PlainComment(c)
  {
    CutCommentPart(c);
    if PlainComment(c) {
      CleanKeeps(c);
    }
    if CutComment(CommentPart(c)) == c {
      TrimRightEnds(Clean(c), BLANKS);
      var tail := TrimRightCuts(Clean(c), BLANKS);
      CleanKeptOnly(c, tail);
    }
  }

  // Encoding

  /** The values have the types of their fields. */
  predicate Typed(t: ObjType, o: Obj)
  {
    && HasKind(o.key, t.key) && |o.props| == |t.props|
    && (forall i :: 0 <= i < |t.props| ==> HasKind(o.props[i], t.props[i].kind))
    && (!t.comment ==> o.comment == [])
  }

  predicate Omitted(p: Prop, v: Value) { p.optional && v == ZeroOf(p.kind) }

  /** The properties from the i-th on. */
  function EncodeProps(t: ObjType, o: Obj, i: nat, isPrint: int -> bool): Result<Bytes>
    requires Typed(t, o) && i <= |t.props|
    decreases |t.props| - i
  {
    if i == |t.props| then Ok([])
    else if Omitted(t.props[i], o.props[i]) then EncodeProps(t, o, i + 1, isPrint)
    else
      match EncodeVal(t.props[i].kind, o.props[i], isPrint)
      case Err(e) => Err(e)
      case Ok(val) =>
        match EncodeProps(t, o, i + 1, isPrint)
        case Err(e) => Err(e)
        case Ok(more) => Ok([' '] + t.props[i].name + ['='] + val + more)
  }

  function CommentOf(t: ObjType, o: Obj): Bytes { if t.comment then CommentPart(o.comment) else [] }

  function EncodeObj(t: ObjType, o: Obj, isPrint: int -> bool): Result<Bytes>
    requires Typed(t, o)
  {
    match EncodeVal(t.key, o.key, isPrint)
    case Err(e) => Err(e)
    case Ok(key) =>
      match EncodeProps(t, o, 0, isPrint)
      case Err(e) => Err(e)
      case Ok(props) => Ok(t.name + ([' '] + key + props + CommentOf(t, o)))
  }

  // Decoding

  predicate LineEnd(s: Bytes)
  {
    var t := TrimLeft(s);
    t == [] || t[0] == '#'
  }

  function CutProp(s: Bytes): Result<(Bytes, Bytes, Bytes)>
  {
    var (key, t) := CutBare(TrimLeft(s));
    if key == [] then Err("expected prop name")
    else if t == [] || t[0] != '=' then Err("expected '=' after prop")
    else if EndsToken(t[1..]) then Ok((key, [], t[1..]))
    else
      match CutValue(t[1..])
      case Err(e) => Err(e)
      case Ok((val, rest)) => Ok((key, val, rest))
  }

  lemma CutPropShortens(s: Bytes)
    ensures CutProp(s).Ok? ==> |CutProp(s).value.2| < |s|
  {
    TrimLeftShortens(s);
    CutBareSplits(TrimLeft(s));
    var t := CutBare(TrimLeft(s)).1;
    if |t| > 0 { CutValueShortens(t[1..]); }
  }

  /** propsByName: the last property with the name. */
  function PropIndex(props: seq<Prop>, name: Bytes): (i: Option<nat>)
    ensures i.Some? ==> i.value < |props| && props[i.value].name == name
    ensures i.None? ==> forall j :: 0 <= j < |props| ==> props[j].name != name
  {
    if |props| == 0 then None
    else if props[|props| - 1].name == name then Some(|props| - 1)
    else PropIndex(props[..|props| - 1], name)
  }

  datatype Progress = Progress(vals: seq<Value>, seen: set<Bytes>, rest: Bytes)

  /** The property loop of decodeObj. */
  function DecodeProps(t: ObjType, vals: seq<Value>, seen: set<Bytes>, s: Bytes): (r: Result<Progress>)
    requires |vals| == |t.props|
    ensures r.Ok? ==> |r.value.vals| == |t.props|
    decreases |s|
  {
    if LineEnd(s) then Ok(Progress(vals, seen, s))
    else
      match CutProp(s)
      case Err(e) => Err(e)
      case Ok((name, text, rest)) =>
        CutPropShortens(s);
        match PropIndex(t.props, name)
        case None => Err("unknown prop")
        case Some(i) =>
          if name in seen then Err("duplicate prop")
          else
            match DecodeVal(t.props[i].kind, text)
            case Err(e) => Err(e)
            case Ok(v) => DecodeProps(t, vals[i := v], seen + {name}, rest)
  }

  predicate AllPresent(props: seq<Prop>, seen: set<Bytes>)
  {
    forall i :: 0 <= i < |props| ==> props[i].optional || props[i].name in seen
  }

  function Zeros(props: seq<Prop>): (vals: seq<Value>)
    ensures |vals| == |props| && forall i :: 0 <= i < |props| ==> vals[i] == ZeroOf(props[i].kind)
  {
    if |props| == 0 then [] else [ZeroOf(props[0].kind)] + Zeros(props[1..])
  }

  function DecodeObj(t: ObjType, s: Bytes): Result<Obj>
  {
    match CutValue(s)
    case Err(e) => Err(e)
    case Ok((keyText, rest)) =>
      match DecodeVal(t.key, keyText)
      case Err(e) => Err(e)
      case Ok(key) =>
        match DecodeProps(t, Zeros(t.props), {}, rest)
        case Err(e) => Err(e)
        case Ok(p) =>
          if !AllPresent(t.props, p.seen) then Err("missing prop")
          else Ok(Obj(key, p.vals, if t.comment then CutComment(p.rest) else []))
  }

  // Round trip of a line

  /** Names that can be cut off a line. fileInfoOf does not look at them. */
  predicate GoodName(name: Bytes) { name != [] && AllBare(name) }

  predicate GoodType(t: ObjType)
  {
    && GoodName(t.name)
    && (forall i :: 0 <= i < |t.props| ==> GoodName(t.props[i].name))
    && (forall i, j :: 0 <= i < j < |t.props| ==> t.props[i].name != t.props[j].name)
  }

  /** An object that a line can hold. */
  predicate Storable(t: ObjType, o: Obj)
  {
    && PropsSurvive(t, o) && Survives(t.key, o.key) && Plain(t.key, o.key) != Some([])
    && PlainComment(o.comment)
  }

  predicate PropsSurvive(t: ObjType, o: Obj)
  {
    Typed(t, o) && forall i :: 0 <= i < |t.props| ==> Survives(t.props[i].kind, o.props[i])
  }

  lemma {:induction false} PropIndexOf(props: seq<Prop>, k: nat)
    requires k < |props| && forall i, j :: 0 <= i < j < |props| ==> props[i].name != props[j].name
    ensures PropIndex(props, props[k].name) == Some(k)
  {
    if k < |props| - 1 { PropIndexOf(props[..|props| - 1], k); }
  }

  lemma CutNamed(name: Bytes, val: Bytes, rest: Bytes, text: Bytes)
    requires GoodName(name) && EndsToken(rest)
    requires if val == [] then text == [] else val[0] !in {' ', '\t', '#'} && CutValue(val + rest) == Ok((text, rest))
    ensures var s := [' '] + name + ['='] + val + rest;
      !LineEnd(s) && CutProp(s) == Ok((name, text, rest))
  {
    var s: Bytes := [' '] + name + ['='] + val + rest;
    var tail: Bytes := ['='] + (val + rest);
    assert s == [' '] + (name + tail);
    BareIsFree(name);
    CutBareToken(name, tail);
    TrimOne(s, name, tail);
    assert tail[1..] == val + rest;
    if val == [] { assert val + rest == rest; } else { assert (val + rest)[0] == val[0]; }
    PropCut(s, name, tail, text, rest);
  }

  lemma PropCut(s: Bytes, name: Bytes, tail: Bytes, text: Bytes, rest: Bytes)
    requires CutBare(TrimLeft(s)) == (name, tail) && name != [] && |tail| > 0 && tail[0] == '='
    requires if EndsToken(tail[1..]) then text == [] && rest == tail[1..] else CutValue(tail[1..]) == Ok((text, rest))
    ensures CutProp(s) == Ok((name, text, rest))
  {}

  lemma TrimOne(s: Bytes, name: Bytes, tail: Bytes)
    requires s == [' '] + (name + tail) && |name| > 0 && name[0] !in BLANKS
    ensures TrimLeft(s) == name + tail
  {
    assert s[1..] == name + tail;
    assert s[1..][0] == name[0];
  }

  /** Cutting one encoded property off a line. */
  lemma CutEncodedProp(p: Prop, v: Value, isPrint: int -> bool, rest: Bytes) returns (val: Bytes, text: Bytes)
    requires GoodName(p.name) && Survives(p.kind, v) && EndsToken(rest)
    ensures EncodeVal(p.kind, v, isPrint) == Ok(val) && DecodeVal(p.kind, text) == Ok(v)
    ensures var s := [' '] + p.name + ['='] + val + rest; !LineEnd(s) && CutProp(s) == Ok((p.name, text, rest))
  {
    ValueThroughLine(p.kind, v, isPrint, rest);
    val, text := EncodeVal(p.kind, v, isPrint).value, Plain(p.kind, v).value;
    CutNamed(p.name, val, rest, text);
  }

  lemma EndsTokenProps(t: ObjType, o: Obj, i: nat, isPrint: int -> bool, end: Bytes)
    requires Typed(t, o) && i <= |t.props| && EncodeProps(t, o, i, isPrint).Ok? && EndsToken(end)
    ensures EndsToken(EncodeProps(t, o, i, isPrint).value + end)
    decreases |t.props| - i
  {
    if i == |t.props| {
      assert [] + end == end;
    } else if Omitted(t.props[i], o.props[i]) {
      EndsTokenProps(t, o, i + 1, isPrint, end);
    } else {
      assert EncodeProps(t, o, i, isPrint).value[0] == ' ';
    }
  }

  /** Where the loop stands before the i-th property: the ones before are decoded, the
      others are zero and unseen. */
  predicate Halfway(t: ObjType, o: Obj, i: nat, vals: seq<Value>, seen: set<Bytes>)
    requires |o.props| == |t.props|
  {
    && |vals| == |t.props|
    && (forall j :: 0 <= j < |vals| ==> vals[j] == if j < i then o.props[j] else ZeroOf(t.props[j].kind))
    && (forall j :: 0 <= j < |vals| ==>
          if j < i then t.props[j].optional || t.props[j].name in seen else t.props[j].name !in seen)
  }

  lemma HalfwayNext(t: ObjType, o: Obj, i: nat, vals: seq<Value>, seen: set<Bytes>)
    requires GoodType(t) && |o.props| == |t.props| && i < |t.props| && Halfway(t, o, i, vals, seen)
    ensures Omitted(t.props[i], o.props[i]) ==> Halfway(t, o, i + 1, vals, seen)
    ensures Halfway(t, o, i + 1, vals[i := o.props[i]], seen + {t.props[i].name})
  {}

  lemma {:induction false} PropsRoundTrip(t: ObjType, o: Obj, i: nat, isPrint: int -> bool,
                                          vals: seq<Value>, seen: set<Bytes>, end: Bytes)
    requires GoodType(t) && PropsSurvive(t, o) && i <= |t.props| && Halfway(t, o, i, vals, seen)
    requires LineEnd(end) && EndsToken(end)
    ensures EncodeProps(t, o, i, isPrint).Ok?
    ensures var r := DecodeProps(t, vals, seen, EncodeProps(t, o, i, isPrint).value + end);
      r.Ok? && r.value.vals == o.props && r.value.rest == end && AllPresent(t.props, r.value.seen)
    decreases |t.props| - i
  {
    if i == |t.props| {
      assert [] + end == end && vals == o.props;
    } else if Omitted(t.props[i], o.props[i]) {
      HalfwayNext(t, o, i, vals, seen);
      PropsRoundTrip(t, o, i + 1, isPrint, vals, seen, end);
    } else {
      HalfwayNext(t, o, i, vals, seen);
      PropsRoundTrip(t, o, i + 1, isPrint, vals[i := o.props[i]], seen + {t.props[i].name}, end);
      OnePropDecoded(t, o, i, isPrint, vals, seen, end);
    }
  }

  /** The loop's step over the encoding of the i-th property. */
  lemma OnePropDecoded(t: ObjType, o: Obj, i: nat, isPrint: int -> bool,
                       vals: seq<Value>, seen: set<Bytes>, end: Bytes)
    requires GoodType(t) && Typed(t, o) && i < |t.props| && |vals| == |t.props|
    requires Survives(t.props[i].kind, o.props[i]) && !Omitted(t.props[i], o.props[i])
    requires t.props[i].name !in seen && EndsToken(end) && EncodeProps(t, o, i + 1, isPrint).Ok?
    ensures EncodeProps(t, o, i, isPrint).Ok?
    ensures DecodeProps(t, vals, seen, EncodeProps(t, o, i, isPrint).value + end)
      == DecodeProps(t, vals[i := o.props[i]], seen + {t.props[i].name}, EncodeProps(t, o, i + 1, isPrint).value + end)
  {
    var p := t.props[i];
    var more := EncodeProps(t, o, i + 1, isPrint).value;
    EndsTokenProps(t, o, i + 1, isPrint, end);
    var val, text := CutEncodedProp(p, o.props[i], isPrint, more + end);
    PropIndexOf(t.props, i);
    EncodePropsStep(t, o, i, isPrint, val, more, end);
    DecodePropsStep(t, i, vals, seen, [' '] + p.name + ['='] + val + (more + end), text, o.props[i], more + end);
  }

  lemma EncodePropsStep(t: ObjType, o: Obj, i: nat, isPrint: int -> bool, val: Bytes, more: Bytes, end: Bytes)
    requires Typed(t, o) && i < |t.props| && !Omitted(t.props[i], o.props[i])
    requires EncodeVal(t.props[i].kind, o.props[i], isPrint) == Ok(val) && EncodeProps(t, o, i + 1, isPrint) == Ok(more)
    ensures EncodeProps(t, o, i, isPrint).Ok?
    ensures EncodeProps(t, o, i, isPrint).value + end == [' '] + t.props[i].name + ['='] + val + (more + end)
  {
    ValueAppend([' '] + t.props[i].name + ['='], val, more, end);
  }

  lemma ValueAppend(name: Bytes, val: Bytes, more: Bytes, end: Bytes)
    ensures (name + val + more) + end == name + val + (more + end)
  {}

  lemma DecodePropsStep(t: ObjType, i: nat, vals: seq<Value>, seen: set<Bytes>, s: Bytes, text: Bytes, v: Value, rest: Bytes)
    requires |vals| == |t.props| && i < |t.props| && t.props[i].name !in seen
    requires !LineEnd(s) && CutProp(s) == Ok((t.props[i].name, text, rest))
    requires PropIndex(t.props, t.props[i].name) == Some(i) && DecodeVal(t.props[i].kind, text) == Ok(v)
    ensures DecodeProps(t, vals, seen, s) == DecodeProps(t, vals[i := v], seen + {t.props[i].name}, rest)
  {}

  lemma CommentEnds(c: Bytes)
    requires PlainComment(c)
    ensures var end := CommentPart(c);
      LineEnd(end) && EndsToken(end) && CutComment(end) == c
      && '\n' !in end && (|end| > 0 ==> end[|end| - 1] !in LINE_ENDS)
  {
    CommentRoundTripExact(c);
    CleanKeeps(c);
    HashEndsLine(c);
  }

  lemma HashEndsLine(c: Bytes)
    ensures LineEnd([' ', '#', ' '] + c)
  {
    var s: Bytes := [' ', '#', ' '] + c;
    assert s == [' '] + (['#', ' '] + c);
    TrimOne(s, ['#', ' '], c);
  }

  lemma EndOfLine(t: ObjType, o: Obj)
    requires PlainComment(o.comment)
    ensures var end := CommentOf(t, o); '\n' !in end && (|end| > 0 ==> end[|end| - 1] !in LINE_ENDS)
  {
    CommentEnds(o.comment);
  }

  lemma CommentTail(t: ObjType, o: Obj)
    requires !t.comment ==> o.comment == []
    ensures var end := CommentOf(t, o);
      LineEnd(end) && EndsToken(end) && (if t.comment then CutComment(end) else []) == Cleaned(o).comment
  {
    CutCommentPart(o.comment);
    HashEndsLine(Clean(o.comment));
  }

  /** The object as it is read back. */
  function Cleaned(o: Obj): Obj { o.(comment := TrimRight(Clean(o.comment), BLANKS)) }

  /** An encoded line is read as the object with its comment cleaned, if the key has a text. */
  lemma LineReadsCleaned(t: ObjType, o: Obj, isPrint: int -> bool)
    requires GoodType(t) && PropsSurvive(t, o) && Survives(t.key, o.key) && Plain(t.key, o.key) != Some([])
    ensures EncodeObj(t, o, isPrint).Ok?
    ensures var (name, rest) := CutBare(EncodeObj(t, o, isPrint).value);
      name == t.name && DecodeObj(t, rest) == Ok(Cleaned(o))
  {
    var end := CommentOf(t, o);
    CommentTail(t, o);
    PropsRoundTrip(t, o, 0, isPrint, Zeros(t.props), {}, end);
    var props := EncodeProps(t, o, 0, isPrint).value;
    EndsTokenProps(t, o, 0, isPrint, end);
    var key, text := CutEncodedKey(t.key, o.key, isPrint, props + end);
    LineDecoded(t, Cleaned(o), key, text, props, end);
    assert EncodeObj(t, o, isPrint) == Ok(t.name + ([' '] + key + props + end));
  }

  /** Decoding an encoded line gives the object back. */
  lemma ObjRoundTrip(t: ObjType, o: Obj, isPrint: int -> bool)
    requires GoodType(t) && Storable(t, o)
    ensures EncodeObj(t, o, isPrint).Ok?
    ensures var (name, rest) := CutBare(EncodeObj(t, o, isPrint).value);
      name == t.name && DecodeObj(t, rest) == Ok(o)
  {
    LineReadsCleaned(t, o, isPrint);
    CutCommentPart(o.comment);
    CommentRoundTripExact(o.comment);
  }

  lemma LineDecoded(t: ObjType, o: Obj, key: Bytes, text: Bytes, props: Bytes, end: Bytes)
    requires GoodName(t.name) && |key| > 0 && key[0] !in BLANKS
    requires CutValue(key + (props + end)) == Ok((text, props + end)) && DecodeVal(t.key, text) == Ok(o.key)
    requires var r := DecodeProps(t, Zeros(t.props), {}, props + end);
      r.Ok? && r.value.vals == o.props && r.value.rest == end && AllPresent(t.props, r.value.seen)
    requires (if t.comment then CutComment(end) else []) == o.comment
    ensures var (name, rest) := CutBare(t.name + ([' '] + key + props + end));
      name == t.name && DecodeObj(t, rest) == Ok(o)
  {
    var s: Bytes := [' '] + key + props + end;
    BareIsFree(t.name);
    CutBareToken(t.name, s);
    KeyCut(key, props, end, text);
    ObjDecoded(t, s, text, props + end, o, end);
  }

  lemma CutEncodedKey(k: Kind, v: Value, isPrint: int -> bool, rest: Bytes) returns (key: Bytes, text: Bytes)
    requires Survives(k, v) && Plain(k, v) != Some([]) && EndsToken(rest)
    ensures EncodeVal(k, v, isPrint) == Ok(key) && DecodeVal(k, text) == Ok(v)
    ensures |key| > 0 && key[0] !in BLANKS && CutValue(key + rest) == Ok((text, rest))
  {
    ValueThroughLine(k, v, isPrint, rest);
    key, text := EncodeVal(k, v, isPrint).value, Plain(k, v).value;
  }

  lemma ObjDecoded(t: ObjType, s: Bytes, text: Bytes, rest: Bytes, o: Obj, end: Bytes)
    requires CutValue(s) == Ok((text, rest)) && DecodeVal(t.key, text) == Ok(o.key)
    requires var r := DecodeProps(t, Zeros(t.props), {}, rest);
      r.Ok? && r.value.vals == o.props && r.value.rest == end && AllPresent(t.props, r.value.seen)
    requires (if t.comment then CutComment(end) else []) == o.comment
    ensures DecodeObj(t, s) == Ok(o)
  {}

  lemma KeyCut(key: Bytes, props: Bytes, end: Bytes, text: Bytes)
    requires |key| > 0 && key[0] !in BLANKS && CutValue(key + (props + end)) == Ok((text, props + end))
    ensures CutValue([' '] + key + props + end) == Ok((text, props + end))
  {
    var s: Bytes := [' '] + key + props + end;
    assert s[1..] == key + (props + end);
    assert s[1..][0] == key[0];
    assert TrimLeft(s) == TrimLeft(s[1..]) == s[1..];
  }

  /** A piece of a line that has no line end and loses nothing when it is trimmed. */
  predicate Stays(s: Bytes) { '\n' !in s && (|s| > 0 ==> s[|s| - 1] !in LINE_ENDS) }

  lemma StaysBoth(a: Bytes, b: Bytes)
    requires Stays(a) && Stays(b)
    ensures Stays(a + b)
  {}

  /** A blank or a sign of equality may stand before a piece that is not empty. */
  lemma StaysAfter(c: Byte, s: Bytes)
    requires c != '\n' && Stays(s) && (c == '=' || s != [])
    ensures Stays([c] + s)
  {}

  /** An encoded line is one line, and trimming its end changes nothing. */
  lemma LineStays(t: ObjType, o: Obj, isPrint: int -> bool)
    requires GoodType(t) && Storable(t, o) && EncodeObj(t, o, isPrint).Ok?
    ensures var line := EncodeObj(t, o, isPrint).value;
      '\n' !in line && |line| > 0 && line[0] != '#' && line[|line| - 1] !in LINE_ENDS
  {
    EndOfLine(t, o);
    PropsStay(t, o, 0, isPrint);
    ValueThroughLine(t.key, o.key, isPrint, []);
    LinePieces(t.name, EncodeVal(t.key, o.key, isPrint).value, EncodeProps(t, o, 0, isPrint).value, CommentOf(t, o));
  }

  lemma LinePieces(name: Bytes, key: Bytes, props: Bytes, end: Bytes)
    requires GoodName(name) && key != [] && Stays(key) && Stays(props) && Stays(end)
    ensures var line := name + ([' '] + key + props + end); Stays(line) && |line| > 0 && line[0] != '#'
  {
    BareIsFree(name);
    StaysAfter(' ', key);
    StaysBoth([' '] + key, props);
    StaysBoth([' '] + key + props, end);
    StaysBoth(name, [' '] + key + props + end);
  }

  lemma {:induction false} PropsStay(t: ObjType, o: Obj, i: nat, isPrint: int -> bool)
    requires GoodType(t) && PropsSurvive(t, o) && i <= |t.props| && EncodeProps(t, o, i, isPrint).Ok?
    ensures Stays(EncodeProps(t, o, i, isPrint).value)
    decreases |t.props| - i
  {
    if i < |t.props| {
      PropsOk(t, o, i, isPrint);
      PropsStay(t, o, i + 1, isPrint);
      if !Omitted(t.props[i], o.props[i]) {
        PropStays(t, o, i, isPrint, EncodeProps(t, o, i + 1, isPrint).value);
      }
    }
  }

  lemma PropsOk(t: ObjType, o: Obj, i: nat, isPrint: int -> bool)
    requires Typed(t, o) && i < |t.props| && EncodeProps(t, o, i, isPrint).Ok?
    ensures EncodeProps(t, o, i + 1, isPrint).Ok?
    ensures Omitted(t.props[i], o.props[i]) ==> EncodeProps(t, o, i + 1, isPrint) == EncodeProps(t, o, i, isPrint)
  {}

  lemma PropStays(t: ObjType, o: Obj, i: nat, isPrint: int -> bool, more: Bytes)
    requires GoodType(t) && PropsSurvive(t, o) && i < |t.props| && !Omitted(t.props[i], o.props[i])
    requires EncodeProps(t, o, i + 1, isPrint) == Ok(more) && Stays(more)
    ensures EncodeProps(t, o, i, isPrint).Ok? && Stays(EncodeProps(t, o, i, isPrint).value)
  {
    var val := EncodedValStays(t.props[i].kind, o.props[i], isPrint);
    EncodedPropStays(t.props[i].name, val, more);
    assert EncodeProps(t, o, i, isPrint) == Ok([' '] + t.props[i].name + ['='] + val + more);
  }

  lemma EncodedValStays(k: Kind, v: Value, isPrint: int -> bool) returns (val: Bytes)
    requires Survives(k, v)
    ensures EncodeVal(k, v, isPrint) == Ok(val) && Stays(val)
  {
    ValueThroughLine(k, v, isPrint, []);
    val := EncodeVal(k, v, isPrint).value;
  }

  lemma EncodedPropStays(name: Bytes, val: Bytes, more: Bytes)
    requires GoodName(name) && Stays(val) && Stays(more)
    ensures Stays([' '] + name + ['='] + val + more)
  {
    BareIsFree(name);
    StaysAfter(' ', name);
    StaysBoth([' '] + name, ['=']);
    StaysBoth([' '] + name + ['='], val);
    StaysBoth([' '] + name + ['='] + val, more);
  }
}
