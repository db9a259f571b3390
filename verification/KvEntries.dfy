/** How Unmarshal's loop fills the maps from what the lines say. */
module KvEntries {
  import opened KvText
  import opened KvValue
  import opened KvObject

  /** A map for each type of object, in the order of the schema. */
  type Contents = seq<map<Value, Obj>>

  datatype Decoded = Decoded(contents: Contents) | BadMagic(got: Bytes, want: Bytes) | BadLine(number: nat, reason: string)

  /** What a line is to Unmarshal: nothing, an object for one of the maps, or an error. */
  datatype Entry = Skipped | Object(index: nat, obj: Obj) | Malformed(reason: string)

  predicate InRange(es: seq<Entry>, n: nat) { forall j :: 0 <= j < |es| && es[j].Object? ==> es[j].index < n }

  /** Unmarshal's loop: the first error ends it. */
  function Collect(es: seq<Entry>, number: nat, c: Contents): (r: Decoded)
    requires InRange(es, |c|)
    ensures r.Decoded? ==> |r.contents| == |c|
    ensures !r.BadMagic?
    decreases |es|
  {
    if |es| == 0 then Decoded(c)
    else
      match es[0]
      case Skipped => Collect(es[1..], number + 1, c)
      case Malformed(reason) => BadLine(number, reason)
      case Object(i, o) =>
        if o.key in c[i] then BadLine(number, "duplicate")
        else Collect(es[1..], number + 1, c[i := c[i][o.key := o]])
  }

  /** The place an object takes. */
  function Slot(e: Entry): (nat, Value)
    requires e.Object?
  {
    (e.index, e.obj.key)
  }

  ghost predicate At(es: seq<Entry>, i: nat, k: Value)
  {
    exists j :: 0 <= j < |es| && es[j].Object? && Slot(es[j]) == (i, k)
  }

  /** No line is malformed, and no two objects want one place, or one that is taken. */
  predicate Acceptable(es: seq<Entry>, c: Contents)
    requires InRange(es, |c|)
  {
    && (forall j :: 0 <= j < |es| ==> !es[j].Malformed?)
    && (forall j :: 0 <= j < |es| && es[j].Object? ==> es[j].obj.key !in c[es[j].index])
    && (forall j, k :: 0 <= j < k < |es| && es[j].Object? && es[k].Object? ==> Slot(es[j]) != Slot(es[k]))
  }

  /** The maps hold what they held before and the objects, each under its own key, and
      nothing else. */
  ghost predicate Gathered(es: seq<Entry>, before: Contents, after: Contents)
    requires InRange(es, |before|)
  {
    && |after| == |before|
    && (forall i, k :: 0 <= i < |after| ==> (k in after[i] <==> k in before[i] || At(es, i, k)))
    && (forall i, k :: 0 <= i < |after| && k in before[i] ==> after[i][k] == before[i][k])
    && (forall j :: 0 <= j < |es| && es[j].Object? ==> after[es[j].index][es[j].obj.key] == es[j].obj)
  }

  lemma AtFirst(es: seq<Entry>, i: nat, k: Value)
    requires |es| > 0
    ensures At(es, i, k) <==> (es[0].Object? && Slot(es[0]) == (i, k)) || At(es[1..], i, k)
  {
    if At(es[1..], i, k) {
      var j :| 0 <= j < |es[1..]| && es[1..][j].Object? && Slot(es[1..][j]) == (i, k);
      assert es[j + 1] == es[1..][j];
    }
    if At(es, i, k) && !(es[0].Object? && Slot(es[0]) == (i, k)) {
      var j :| 0 <= j < |es| && es[j].Object? && Slot(es[j]) == (i, k);
      assert es[1..][j - 1] == es[j];
    }
  }

  lemma AcceptableFirst(es: seq<Entry>, c: Contents)
    requires |es| > 0 && InRange(es, |c|)
    ensures InRange(es[1..], |c|)
    ensures es[0].Skipped? ==> (Acceptable(es, c) <==> Acceptable(es[1..], c))
    ensures es[0].Malformed? ==> !Acceptable(es, c)
  {
    assert forall j :: 0 <= j < |es[1..]| ==> es[1..][j] == es[j + 1];
    assert forall j :: 0 < j < |es| ==> es[j] == es[1..][j - 1];
  }

  lemma AcceptableObject(es: seq<Entry>, c: Contents)
    requires |es| > 0 && InRange(es, |c|) && es[0].Object?
    ensures var i, o := es[0].index, es[0].obj;
      InRange(es[1..], |c|)
      && (Acceptable(es, c) <==> o.key !in c[i] && Acceptable(es[1..], c[i := c[i][o.key := o]]))
  {
    var i, o := es[0].index, es[0].obj;
    var rest, next := es[1..], c[i := c[i][o.key := o]];
    assert forall j :: 0 <= j < |rest| ==> rest[j] == es[j + 1];
    if Acceptable(es, c) {
      forall j | 0 <= j < |rest| && rest[j].Object? ensures rest[j].obj.key !in next[rest[j].index] {
        assert Slot(es[0]) != Slot(es[j + 1]);
      }
    }
    if o.key !in c[i] && Acceptable(rest, next) {
      assert forall j :: 0 < j < |es| ==> es[j] == rest[j - 1];
    }
  }

  lemma GatheredSkipped(es: seq<Entry>, before: Contents, after: Contents)
    requires |es| > 0 && InRange(es, |before|) && InRange(es[1..], |before|) && es[0].Skipped?
    requires Gathered(es[1..], before, after)
    ensures Gathered(es, before, after)
  {
    forall i, k | 0 <= i < |after| ensures k in after[i] <==> k in before[i] || At(es, i, k) { AtFirst(es, i, k); }
    assert forall j :: 0 < j < |es| ==> es[j] == es[1..][j - 1];
  }

  lemma GatheredObject(es: seq<Entry>, before: Contents, after: Contents)
    requires |es| > 0 && InRange(es, |before|) && InRange(es[1..], |before|) && es[0].Object?
    requires var i, o := es[0].index, es[0].obj;
      o.key !in before[i] && Gathered(es[1..], before[i := before[i][o.key := o]], after)
    ensures Gathered(es, before, after)
  {
    forall i, k | 0 <= i < |after| ensures k in after[i] <==> k in before[i] || At(es, i, k) { AtFirst(es, i, k); }
    assert forall j :: 0 < j < |es| ==> es[j] == es[1..][j - 1];
  }

  /** The loop succeeds exactly on acceptable entries, and what it returns is what they say. */
  lemma {:induction false} CollectExact(es: seq<Entry>, number: nat, c: Contents)
    requires InRange(es, |c|)
    ensures var r := Collect(es, number, c);
      && (r.Decoded? <==> Acceptable(es, c))
      && (r.Decoded? ==> Gathered(es, c, r.contents))
    decreases |es|
  {
    if |es| > 0 {
      AcceptableFirst(es, c);
      match es[0]
      case Skipped =>
        CollectExact(es[1..], number + 1, c);
        if Acceptable(es, c) { GatheredSkipped(es, c, Collect(es, number, c).contents); }
      case Malformed(_) =>
      case Object(i, o) =>
        AcceptableObject(es, c);
        if o.key !in c[i] {
          CollectExact(es[1..], number + 1, c[i := c[i][o.key := o]]);
          if Acceptable(es, c) { GatheredObject(es, c, Collect(es, number, c).contents); }
        }
    }
  }

  /** There is only one way to fill the maps. */
  lemma GatheredUnique(es: seq<Entry>, before: Contents, a: Contents, b: Contents)
    requires InRange(es, |before|) && Gathered(es, before, a) && Gathered(es, before, b)
    ensures a == b
  {
    forall i | 0 <= i < |a| ensures a[i] == b[i] {
      forall k | k in a[i] ensures k in b[i] && a[i][k] == b[i][k] {
        if k !in before[i] {
          var j :| 0 <= j < |es| && es[j].Object? && Slot(es[j]) == (i, k);
        }
      }
      assert forall k :: k in b[i] ==> k in a[i];
    }
  }

  function Total(c: Contents): nat
  {
    if |c| == 0 then 0 else |c[0]| + Total(c[1..])
  }

  function Objects(es: seq<Entry>): nat
  {
    if |es| == 0 then 0 else (if es[0].Object? then 1 else 0) + Objects(es[1..])
  }

  lemma {:induction false} TotalUpdate(c: Contents, i: nat, m: map<Value, Obj>)
    requires i < |c|
    ensures Total(c[i := m]) == Total(c) - |c[i]| + |m|
  {
    if i == 0 {
      assert c[0 := m][1..] == c[1..];
    } else {
      TotalUpdate(c[1..], i - 1, m);
      assert c[i := m][1..] == c[1..][i - 1 := m];
    }
  }

  lemma OneMore(m: map<Value, Obj>, k: Value, o: Obj)
    requires k !in m
    ensures |m[k := o]| == |m| + 1
  {
    assert m[k := o].Keys == m.Keys + {k};
  }

  /** As many objects are stored as lines had one. */
  lemma {:induction false} CollectCounts(es: seq<Entry>, number: nat, c: Contents)
    requires InRange(es, |c|)
    ensures var r := Collect(es, number, c); r.Decoded? ==> Total(r.contents) == Total(c) + Objects(es)
    decreases |es|
  {
    if |es| > 0 {
      match es[0]
      case Skipped => CollectCounts(es[1..], number + 1, c);
      case Malformed(_) =>
      case Object(i, o) =>
        if o.key !in c[i] {
          TotalUpdate(c, i, c[i][o.key := o]);
          OneMore(c[i], o.key, o);
          CollectCounts(es[1..], number + 1, c[i := c[i][o.key := o]]);
        }
    }
  }
}
