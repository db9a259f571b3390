/** The scanner's cache file in the line format: its schema, and that a saved cache is
    read back. */
module CacheFile {
  import opened KvText
  import opened KvValue
  import opened KvObject
  import opened KvLine
  import opened KvParsing
  import opened KvEntries
  import opened KvFile
  import opened KvTheorems

  function FileType(): ObjType
  {
    ObjType("file", KString,
            [Prop("path", KString, false), Prop("modtime", KUnixTime, false), Prop("size", KInt(64), false),
             Prop("offset", KUint(64), false), Prop("length", KInt(64), false), Prop("sha256", KHash, false)], true)
  }

  function OffsetsType(): ObjType
  {
    ObjType("offsets", KHash, [Prop("fn", KUint(64), false), Prop("s3", KInt(64), false), Prop("cr", KInt(64), false)], false)
  }

  function CacheSchema(): Schema { Schema("asslcapture cache v1", [FileType(), OffsetsType()]) }

  lemma FileTypeGood()
    ensures GoodType(FileType())
  {
    var props := FileType().props;
    NamesGood();
    forall i, j | 0 <= i < j < |props| ensures props[i].name != props[j].name {
      assert Initial(i) != Initial(j) || (i == 2 && j == 5);
      assert props[i].name[0] == Initial(i) && props[j].name[0] == Initial(j);
      assert i == 2 ==> |props[2].name| == 4 && |props[5].name| == 6;
    }
  }

  function Initial(i: nat): char { if i < 6 then "pmsols"[i] else ' ' }

  lemma NamesGood()
    ensures var t := FileType();
      GoodName(t.name) && forall i :: 0 <= i < |t.props| ==> GoodName(t.props[i].name) && t.props[i].name[0] == Initial(i)
  {
    forall i | 0 <= i < 6 ensures GoodName(FileType().props[i].name) && FileType().props[i].name[0] == Initial(i) {
      if i == 0 { assert FileType().props[0].name == "path"; }
      else if i == 1 { assert FileType().props[1].name == "modtime"; }
      else if i == 2 { assert FileType().props[2].name == "size"; }
      else if i == 3 { assert FileType().props[3].name == "offset"; }
      else if i == 4 { assert FileType().props[4].name == "length"; }
      else { assert FileType().props[5].name == "sha256"; }
    }
  }

  lemma OffsetsTypeGood()
    ensures GoodType(OffsetsType())
  {}

  lemma NothingOptional(i: nat)
    ensures i < |FileType().props| ==> !FileType().props[i].optional
    ensures i < |OffsetsType().props| ==> !OffsetsType().props[i].optional
    ensures FileType().comment && !OffsetsType().comment
  {}

  /** A line of the cache must list every property of its file or offsets; and the comment on the
      line of a file is the file's. */
  lemma LinesComplete(t: ObjType, s: Bytes, o: Obj, i: nat)
    requires t == FileType() || t == OffsetsType()
    requires Describes(t, s, o) && i < |t.props|
    ensures Mentions(s, t.props[i].name) && o.comment == if t == FileType() then CommentIn(s) else []
  {
    NothingOptional(i);
    RequiredIsMentioned(t, s, o, i);
  }

  /** The schema that the package checks when it is loaded. */
  lemma CacheSchemaGood()
    ensures GoodSchema(CacheSchema())
  {
    FileTypeGood();
    OffsetsTypeGood();
    var sc := CacheSchema();
    assert sc.objs[0] == FileType() && sc.objs[1] == OffsetsType();
  }

  /** All hashes that the scanner makes. */
  predicate Sha256(v: Value) { v.VHash? && v.alg == "sha256" }

  /** An entry as the scanner stores it, with a comment that somebody may have added. */
  predicate ScannedFile(o: Obj)
  {
    && Typed(FileType(), o) && o.key != VString([]) && Sha256(o.props[5]) && PlainComment(o.comment)
  }

  predicate ScannedOffsets(o: Obj) { Typed(OffsetsType(), o) && Sha256(o.key) }

  predicate ScannedCache(c: Contents)
  {
    && |c| == 2 && Keyed(c[0]) && Keyed(c[1])
    && (forall k :: k in c[0] ==> ScannedFile(c[0][k]))
    && (forall k :: k in c[1] ==> ScannedOffsets(c[1][k]))
  }

  lemma ScannedFileStorable(o: Obj)
    requires ScannedFile(o)
    ensures Storable(FileType(), o)
  {
    var t := FileType();
    forall i | 0 <= i < |t.props| ensures Survives(t.props[i].kind, o.props[i]) {
      assert HasKind(o.props[i], t.props[i].kind);
    }
  }

  lemma ScannedOffsetsStorable(o: Obj)
    requires ScannedOffsets(o)
    ensures Storable(OffsetsType(), o)
  {
    var t := OffsetsType();
    forall i | 0 <= i < |t.props| ensures Survives(t.props[i].kind, o.props[i]) {
      assert HasKind(o.props[i], t.props[i].kind);
    }
  }

  lemma ScannedStorable(c: Contents)
    requires ScannedCache(c)
    ensures StorableFile(CacheSchema(), c)
  {
    var sc := CacheSchema();
    forall k | k in c[0] ensures c[0][k].key == k && Storable(sc.objs[0], c[0][k]) { ScannedFileStorable(c[0][k]); }
    forall k | k in c[1] ensures c[1][k].key == k && Storable(sc.objs[1], c[1][k]) { ScannedOffsetsStorable(c[1][k]); }
    assert StorableMap(sc.objs[0], c[0]) && StorableMap(sc.objs[1], c[1]);
  }

  /** Whatever the scanner has cached, the saved cache is loaded again as it was, and is
      saved as the same bytes. */
  lemma SavedCacheLoads(c: Contents, orders: seq<seq<Value>>, isPrint: int -> bool)
    requires ScannedCache(c) && AreOrders(CacheSchema(), c, orders)
    ensures CoversAll(CacheSchema(), c, orders) && Print(CacheSchema(), c, orders, isPrint).Ok?
    ensures Parse(CacheSchema(), Print(CacheSchema(), c, orders, isPrint).value) == Decoded(c)
    ensures forall others :: AreOrders(CacheSchema(), c, others) ==> orders == others
  {
    var sc := CacheSchema();
    CacheSchemaGood();
    ScannedStorable(c);
    FileRoundTrip(sc, c, orders, isPrint);
    forall i | 0 <= i < |c| ensures AllKind(sc.objs[i].key, orders[i]) && KeysTell(sc.objs[i].key, orders[i]) {
      assert StorableMap(sc.objs[i], c[i]) && IsOrder(sc.objs[i], c[i], orders[i]);
      StorableKeysTell(sc.objs[i], c[i], orders[i]);
    }
    forall others | AreOrders(sc, c, others) ensures orders == others {
      OutputCanonical(sc, c, orders, others, isPrint);
    }
  }
}
