/** The search for ssl_log_secret: label addresses, the scan of the code, and the agreement
    of what was found. */
module LogSecret {
  import opened Options
  import opened KvText
  import opened RegisterTracker

  const CLIENT_RANDOM: Bytes := "CLIENT_RANDOM"
  const KEYLOG_LABELS: seq<Bytes> := [
    CLIENT_RANDOM, "CLIENT_EARLY_TRAFFIC_SECRET", "CLIENT_HANDSHAKE_TRAFFIC_SECRET", "SERVER_HANDSHAKE_TRAFFIC_SECRET",
    "CLIENT_TRAFFIC_SECRET_0", "SERVER_TRAFFIC_SECRET_0", "EXPORTER_SECRET"]

  /** A loaded segment; decode is the disassembler, on four bytes. */
  datatype Segment = Segment(addr: nat, offset: nat, data: Bytes, exec: bool)

  // Null-terminated strings

  predicate At(data: Bytes, s: Bytes, i: nat) { i + |s| <= |data| && data[i..i + |s|] == s }

  /** s stands at i and is followed by a zero byte or the end. */
  predicate Terminated(data: Bytes, s: Bytes, i: nat)
  {
    At(data, s, i) && (i + |s| == |data| || data[i + |s|] as int == 0)
  }

  /** bytes.Index, from i on. */
  function IndexFrom(data: Bytes, s: Bytes, i: nat): (r: Option<nat>)
    ensures r.Some? ==> i <= r.value && At(data, s, r.value) && forall j :: i <= j < r.value ==> !At(data, s, j)
    ensures r.None? ==> forall j :: i <= j ==> !At(data, s, j)
    decreases |data| - i
  {
    if i + |s| > |data| then None
    else if data[i..i + |s|] == s then Some(i)
    else if i == |data| then None
    else IndexFrom(data, s, i + 1)
  }

  /** What is an occurrence: the string itself, at the end or before a zero byte, and not
      before any other; of another string of this length, none. */
  lemma OccurrenceExact(pre: Bytes, s: Bytes, t: Bytes, c: Byte, post: Bytes)
    requires |t| == |s|
    ensures Terminated(pre + t, s, |pre|) <==> t == s
    ensures Terminated(pre + t + [c] + post, s, |pre|) <==> t == s && c == '\0'
  {
    assert (pre + t)[|pre|..|pre| + |s|] == t;
    var data := pre + t + [c] + post;
    assert data[|pre|..|pre| + |s|] == t;
    assert data[|pre| + |s|] == c;
  }

  predicate Ascending(r: seq<nat>) { forall i, j :: 0 <= i < j < |r| ==> r[i] < r[j] }

  /** findNullString finds every occurrence that is null-terminated, also of ones that
      overlap, in order. */
  method FindNullString(data: Bytes, s: Bytes) returns (r: seq<nat>)
    requires |s| > 0
    ensures forall i: nat :: i in r <==> Terminated(data, s, i)
    ensures Ascending(r)
  {
    r := [];
    var i := 0;
    while i <= |data|
      invariant forall j: nat :: j in r <==> j < i && Terminated(data, s, j)
      invariant Ascending(r)
      decreases |data| + 1 - i
    {
      var found := IndexFrom(data, s, i);
      if found.None? { return; }
      var idx := found.value;
      var end := idx + |s|;
      assert forall j: nat :: i <= j < idx ==> !Terminated(data, s, j);
      assert forall n :: 0 <= n < |r| ==> r[n] in r;
      if end >= |data| || data[end] as int == 0 {
        r := r + [idx];
      }
      i := idx + 1;
    }
  }

  // Addresses of labels

  ghost predicate LabelAt(segments: seq<Segment>, a: nat, name: Bytes)
  {
    exists k :: 0 <= k < |segments| && Stands(segments[k], name, a)
  }

  ghost predicate Stands(seg: Segment, name: Bytes, a: nat)
  {
    exists i: nat :: Terminated(seg.data, name, i) && a == Wrap(seg.addr + i)
  }

  /** Every address of a label is in the map, and nothing else. */
  ghost predicate Covered(segments: seq<Segment>, labels: seq<Bytes>, m: map<nat, Bytes>)
  {
    && (forall a :: a in m ==> m[a] in labels && LabelAt(segments, a, m[a]))
    && (forall a, l :: l in labels && LabelAt(segments, a, l) ==> a in m)
  }

  /** One label in one segment: it replaces what was there. */
  ghost predicate Added(m: map<nat, Bytes>, seg: Segment, name: Bytes, r: map<nat, Bytes>)
  {
    && (forall a :: a in r <==> a in m || Stands(seg, name, a))
    && (forall a :: a in r ==> r[a] == if Stands(seg, name, a) then name else m[a])
  }

  method AddLabel(m: map<nat, Bytes>, seg: Segment, name: Bytes) returns (r: map<nat, Bytes>)
    requires name != []
    ensures Added(m, seg, name, r)
  {
    var places := FindNullString(seg.data, name);
    r := m;
    for n := 0 to |places|
      invariant forall a :: a in r <==> a in m || Placed(places, seg, n, a)
      invariant forall a :: a in r ==> r[a] == if Placed(places, seg, n, a) then name else m[a]
    {
      PlacedNext(places, seg, n);
      r := r[Wrap(seg.addr + places[n]) := name];
    }
    PlacedAll(places, seg, name);
  }

  /** The address of one of the first n places. */
  ghost predicate Placed(places: seq<nat>, seg: Segment, n: nat, a: nat)
    requires n <= |places|
  {
    exists j :: 0 <= j < n && a == Wrap(seg.addr + places[j])
  }

  lemma PlacedNext(places: seq<nat>, seg: Segment, n: nat)
    requires n < |places|
    ensures forall a: nat :: Placed(places, seg, n + 1, a) <==> Placed(places, seg, n, a) || a == Wrap(seg.addr + places[n])
  {
    forall a: nat
      ensures Placed(places, seg, n + 1, a) <==> Placed(places, seg, n, a) || a == Wrap(seg.addr + places[n])
    {
      if Placed(places, seg, n + 1, a) {
        var j :| 0 <= j < n + 1 && a == Wrap(seg.addr + places[j]);
        assert j < n ==> Placed(places, seg, n, a);
      }
      if Placed(places, seg, n, a) {
        var j :| 0 <= j < n && a == Wrap(seg.addr + places[j]);
        assert 0 <= j < n + 1 && a == Wrap(seg.addr + places[j]);
      }
      if a == Wrap(seg.addr + places[n]) {
        assert 0 <= n < n + 1 && a == Wrap(seg.addr + places[n]);
      }
    }
  }

  lemma PlacedAll(places: seq<nat>, seg: Segment, name: Bytes)
    requires forall i: nat :: i in places <==> Terminated(seg.data, name, i)
    ensures forall a: nat :: Placed(places, seg, |places|, a) <==> Stands(seg, name, a)
  {
    forall a: nat ensures Placed(places, seg, |places|, a) <==> Stands(seg, name, a) {
      if Placed(places, seg, |places|, a) {
        var j :| 0 <= j < |places| && a == Wrap(seg.addr + places[j]);
        assert Terminated(seg.data, name, places[j]);
      }
      if Stands(seg, name, a) {
        var i: nat :| Terminated(seg.data, name, i) && a == Wrap(seg.addr + i);
        var j :| 0 <= j < |places| && places[j] == i;
      }
    }
  }

  lemma AddedKeeps(segments: seq<Segment>, labels: seq<Bytes>, k: nat, m: map<nat, Bytes>, name: Bytes, r: map<nat, Bytes>)
    requires k < |segments| && name in labels && Added(m, segments[k], name, r)
    requires forall a :: a in m ==> m[a] in labels && LabelAt(segments, a, m[a])
    ensures forall a :: a in r ==> r[a] in labels && LabelAt(segments, a, r[a])
  {
    forall a | a in r ensures r[a] in labels && LabelAt(segments, a, r[a]) {
      if Stands(segments[k], name, a) { assert LabelAt(segments, a, name); }
    }
  }

  method AddLabelEverywhere(m: map<nat, Bytes>, segments: seq<Segment>, labels: seq<Bytes>, name: Bytes)
    returns (r: map<nat, Bytes>)
    requires name != [] && Covered(segments, labels, m)
    ensures Covered(segments, labels + [name], r)
  {
    r := m;
    for k := 0 to |segments|
      invariant forall a :: a in m ==> a in r
      invariant forall a :: a in r ==> r[a] in labels + [name] && LabelAt(segments, a, r[a])
      invariant forall j, a :: 0 <= j < k && Stands(segments[j], name, a) ==> a in r
    {
      ghost var before := r;
      r := AddLabel(r, segments[k], name);
      AddedKeeps(segments, labels + [name], k, before, name, r);
    }
  }

  /** The search for the labels. */
  method LabelAddresses(segments: seq<Segment>) returns (m: map<nat, Bytes>)
    ensures Covered(segments, KEYLOG_LABELS, m)
  {
    m := map[];
    for n := 0 to |KEYLOG_LABELS|
      invariant Covered(segments, KEYLOG_LABELS[..n], m)
    {
      LabelsNonEmpty(n);
      m := AddLabelEverywhere(m, segments, KEYLOG_LABELS[..n], KEYLOG_LABELS[n]);
      assert KEYLOG_LABELS[..n] + [KEYLOG_LABELS[n]] == KEYLOG_LABELS[..n + 1];
    }
    assert KEYLOG_LABELS[..|KEYLOG_LABELS|] == KEYLOG_LABELS;
  }

  lemma LabelsNonEmpty(n: nat)
    requires n < |KEYLOG_LABELS|
    ensures KEYLOG_LABELS[n] != []
  {}

  // File offsets

  predicate Inside(seg: Segment, vaddr: nat) { seg.addr <= vaddr < Wrap(seg.addr + |seg.data|) }

  predicate IsFirst(segments: seq<Segment>, vaddr: nat, k: nat)
  {
    k < |segments| && Inside(segments[k], vaddr) && forall j :: 0 <= j < k ==> !Inside(segments[j], vaddr)
  }

  function OffsetIn(seg: Segment, vaddr: nat): nat { Wrap(vaddr - seg.addr + seg.offset) }

  /** FileOffset: the first segment that holds the address. */
  method FileOffset(segments: seq<Segment>, vaddr: nat) returns (r: Option<nat>)
    ensures r.None? <==> forall k :: 0 <= k < |segments| ==> !Inside(segments[k], vaddr)
    ensures r.Some? ==> exists k: nat :: IsFirst(segments, vaddr, k) && r.value == OffsetIn(segments[k], vaddr)
  {
    for k := 0 to |segments|
      invariant forall j :: 0 <= j < k ==> !Inside(segments[j], vaddr)
    {
      if Inside(segments[k], vaddr) {
        assert IsFirst(segments, vaddr, k);
        return Some(OffsetIn(segments[k], vaddr));
      }
    }
    r := None;
  }

  /** Whether the segment's addresses, which do not wrap around, include this one. */
  predicate Holds(seg: Segment, vaddr: nat)
  {
    0 <= vaddr - seg.addr < |seg.data|
  }

  /** The segment that decides is the first that holds the address. */
  lemma FirstHolds(before: seq<Segment>, seg: Segment, after: seq<Segment>, vaddr: nat, k: nat)
    requires forall s :: s in before + [seg] + after ==> s.addr + |s.data| < TWO_64
    requires Holds(seg, vaddr) && forall s :: s in before ==> !Holds(s, vaddr)
    ensures IsFirst(before + [seg] + after, vaddr, k) <==> k == |before|
  {
    var all := before + [seg] + after;
    forall n | 0 <= n < |all| ensures Inside(all[n], vaddr) <==> Holds(all[n], vaddr) {
      assert all[n] in all;
      InsideHolds(all[n], vaddr);
    }
    assert all[|before|] == seg;
    assert forall n :: 0 <= n < |before| ==> all[n] == before[n] && before[n] in before;
  }

  lemma InsideHolds(seg: Segment, vaddr: nat)
    requires seg.addr + |seg.data| < TWO_64
    ensures Inside(seg, vaddr) <==> Holds(seg, vaddr)
  {}

  /** The file holds at that offset what the segment holds at that address. */
  lemma SameByte(file: Bytes, seg: Segment, vaddr: nat)
    requires seg.offset + |seg.data| <= |file| < TWO_64 && file[seg.offset..seg.offset + |seg.data|] == seg.data
    requires seg.addr + |seg.data| < TWO_64 && Inside(seg, vaddr)
    ensures var off := OffsetIn(seg, vaddr);
      off < |file| && file[off] == seg.data[vaddr - seg.addr]
  {
    var at := vaddr - seg.addr;
    assert file[seg.offset..seg.offset + |seg.data|][at] == file[seg.offset + at];
  }

  // Candidates

  type Candidates = map<Bytes, seq<nat>>

  function NoCandidates(): (c: Candidates)
    ensures forall l :: l in c <==> l in KEYLOG_LABELS
    ensures forall l :: l in c ==> c[l] == []
  {
    map l | l in KEYLOG_LABELS :: []
  }

  function Record(c: Candidates, f: Option<(Bytes, nat)>): Candidates
  {
    if f.Some? && f.value.0 in c then c[f.value.0 := c[f.value.0] + [f.value.1]] else c
  }

  function FoundAt(code: seq<Inst>, addr: nat, labels: map<nat, Bytes>, k: nat): Option<(Bytes, nat)>
    requires k < |code|
  {
    Found(Before(code, addr, k), Pc(addr, k), code[k], labels)
  }

  /** What the first k instructions of a segment add. */
  function Collected(code: seq<Inst>, addr: nat, labels: map<nat, Bytes>, k: nat, c: Candidates): (r: Candidates)
    requires k <= |code|
    ensures r.Keys == c.Keys
  {
    if k == 0 then c else Record(Collected(code, addr, labels, k - 1, c), FoundAt(code, addr, labels, k - 1))
  }

  /** The targets recorded for a label are those that were there, and those of the branches
      found with this label. */
  lemma {:induction false} CollectedExact(code: seq<Inst>, addr: nat, labels: map<nat, Bytes>, k: nat, c: Candidates, l: Bytes, t: nat)
    requires k <= |code| && l in c
    ensures t in Collected(code, addr, labels, k, c)[l]
      <==> t in c[l] || exists j :: 0 <= j < k && FoundAt(code, addr, labels, j) == Some((l, t))
  {
    if k > 0 { CollectedExact(code, addr, labels, k - 1, c, l, t); }
  }

  /** regValues as the scan updates it, and the scan of one segment. */
  class RegValues {
    const regs: array<nat>
    const known: array<bool>
    var pc: nat

    ghost predicate Valid()
      reads this, regs, known
    {
      regs.Length == known.Length == TRACKED
    }

    ghost function View(): Values
      reads this, regs, known
      requires Valid()
    {
      Values(regs[..], known[..])
    }

    constructor ()
      ensures Valid() && View() == Unknown() && fresh(regs) && fresh(known)
    {
      regs := new nat[TRACKED](_ => 0);
      known := new bool[TRACKED](_ => false);
      pc := 0;
      new;
      assert regs[..] == seq(TRACKED, _ => 0) && known[..] == seq(TRACKED, _ => false);
    }

    method SetReg(r: Reg, x: nat)
      requires Valid()
      modifies regs, known
      ensures Valid() && View() == Set(old(View()), r, x)
    {
      var i := Index(r);
      if i.Some? {
        regs[i.value] := x;
        known[i.value] := true;
      }
    }

    method ClearReg(r: Reg)
      requires Valid()
      modifies known
      ensures Valid() && View() == Clear(old(View()), r)
    {
      var i := Index(r);
      if i.Some? { known[i.value] := false; }
    }

    method ClearAllRegs()
      requires Valid()
      modifies known
      ensures Valid() && View() == ClearAll(old(View()))
    {
      forall i | 0 <= i < known.Length { known[i] := false; }
      assert known[..] == seq(TRACKED, _ => false);
    }

    method GetReg(r: Reg) returns (x: nat, ok: bool)
      requires Valid()
      ensures (x, ok) == Get(View(), r)
    {
      var i := Index(r);
      if i.None? { return 0, false; }
      return regs[i.value], known[i.value];
    }

    method BranchTarget(inst: Inst) returns (target: nat)
      requires Valid()
      ensures target == Target(View(), pc, inst)
    {
      target := 0;
      if inst.BranchRel? && inst.rel.Some? {
        target := Wrap(pc + inst.rel.value);
      } else if inst.BranchReg? && inst.reg.Some? {
        var known;
        target, known := GetReg(inst.reg.value);
      }
    }

    /** The switch of the scan: what is found, and the registers after the instruction. */
    method Execute(inst: Inst, labels: map<nat, Bytes>) returns (f: Option<(Bytes, nat)>)
      requires Valid()
      modifies regs, known
      ensures Valid() && View() == Track(old(View()), pc, inst) && f == Found(old(View()), pc, inst, labels)
    {
      f := None;
      match inst
      case Adrp(Some(dst), rel) => if rel.Some? { SetReg(dst, Wrap(Page(pc) + rel.value)); } else { ClearReg(dst); }
      case Adr(Some(dst), rel) => if rel.Some? { SetReg(dst, Wrap(pc + rel.value)); } else { ClearReg(dst); }
      case Add(Some(dst), src, imm) => ExecuteAdd(dst, src, imm);
      case BranchRel(_) => f := Branch(inst, labels);
      case BranchReg(_) => f := Branch(inst, labels);
      case EndBlock => ClearAllRegs();
      case _ =>
    }

    /** The k-th instruction of a segment. */
    method Scan(code: seq<Inst>, addr: nat, k: nat, labels: map<nat, Bytes>, all: Candidates, ghost c: Candidates)
      returns (r: Candidates)
      requires Valid() && k < |code| && View() == Before(code, addr, k) && all == Collected(code, addr, labels, k, c)
      modifies this`pc, regs, known
      ensures Valid() && View() == Before(code, addr, k + 1) && r == Collected(code, addr, labels, k + 1, c)
    {
      NextCandidates(code, addr, labels, k, c);
      pc := Pc(addr, k);
      if code[k].Undecoded? { return all; }
      var f := Execute(code[k], labels);
      r := Record(all, f);
    }

    method ExecuteAdd(dst: Reg, src: Option<Reg>, imm: Option<nat>)
      requires Valid()
      modifies regs, known
      ensures Valid() && View() == Track(old(View()), pc, Add(Some(dst), src, imm))
    {
      if src.Some? && imm.Some? {
        var x, ok := GetReg(src.value);
        if ok {
          SetReg(dst, Wrap(x + imm.value));
          return;
        }
      }
      ClearReg(dst);
    }

    method Branch(inst: Inst, labels: map<nat, Bytes>) returns (f: Option<(Bytes, nat)>)
      requires Valid() && (inst.BranchRel? || inst.BranchReg?)
      modifies known
      ensures Valid() && View() == ClearAll(old(View())) && f == Found(old(View()), pc, inst, labels)
    {
      f := None;
      var target := BranchTarget(inst);
      if target != 0 {
        var x1, ok := GetReg(X(1));
        if ok && x1 in labels { f := Some((labels[x1], target)); }
      }
      ClearAllRegs();
    }
  }

  lemma NextCandidates(code: seq<Inst>, addr: nat, labels: map<nat, Bytes>, k: nat, c: Candidates)
    requires k < |code|
    ensures Collected(code, addr, labels, k + 1, c) == Record(Collected(code, addr, labels, k, c), FoundAt(code, addr, labels, k))
    ensures Before(code, addr, k + 1) == Track(Before(code, addr, k), Pc(addr, k), code[k])
    ensures code[k].Undecoded? ==> FoundAt(code, addr, labels, k) == None
  {}

  /** The loop over the instructions of a segment; stopped is whether the context has ended
      when it is asked. */
  method ScanSegment(code: seq<Inst>, addr: nat, labels: map<nat, Bytes>, stopped: nat -> bool, c: Candidates)
    returns (r: Option<Candidates>)
    ensures r.Some? ==> r.value == Collected(code, addr, labels, |code|, c)
    ensures r.None? <==> exists k :: 0 <= k < |code| && Asked(code, k) && stopped(k)
  {
    var rv := new RegValues();
    var all := c;
    for k := 0 to |code|
      invariant rv.Valid() && rv.View() == Before(code, addr, k)
      invariant all == Collected(code, addr, labels, k, c)
      invariant forall j :: 0 <= j < k && Asked(code, j) ==> !stopped(j)
    {
      if Asked(code, k) && stopped(k) { return None; }
      all := rv.Scan(code, addr, k, labels, all, c);
    }
    r := Some(all);
  }

  /** Whether the context is asked before this instruction. */
  predicate Asked(code: seq<Inst>, k: nat)
    requires k < |code|
  {
    k % 4096 == 0 && !code[k].Undecoded?
  }

  /** A context that has ended is noticed within 4096 instructions, if they decode: among
      that many in a row there is one, and only one, where it is asked. */
  lemma AskedOnce(code: seq<Inst>, i: nat) returns (k: nat)
    requires i + 4096 <= |code| && Undecoded !in code
    ensures i <= k < i + 4096 && Asked(code, k)
    ensures forall j :: i <= j < i + 4096 && j != k ==> !Asked(code, j)
    ensures i == 0 ==> k == 0
  {
    k := (i + 4095) / 4096 * 4096;
    assert code[k] in code;
  }

  // Agreement

  /** The address is the only candidate for CLIENT_RANDOM, and is among the candidates of
      every label that has any. */
  predicate Agreed(c: Candidates, v: nat)
  {
    && CLIENT_RANDOM in c && c[CLIENT_RANDOM] == [v]
    && forall n :: 0 <= n < |KEYLOG_LABELS| && KEYLOG_LABELS[n] in c && c[KEYLOG_LABELS[n]] != [] ==> v in c[KEYLOG_LABELS[n]]
  }

  /** Agreement, by the labels: nothing else was found for CLIENT_RANDOM, nor more than once,
      and a label for which something was found has it among what was found. */
  lemma AgreedExact(c: Candidates, v: nat)
    requires forall l :: l in c <==> l in KEYLOG_LABELS
    ensures "CLIENT_RANDOM" in c
    ensures Agreed(c, v) <==> c["CLIENT_RANDOM"] == [v] && forall l :: l in c && |c[l]| > 0 ==> v in c[l]
  {
    assert KEYLOG_LABELS[0] == CLIENT_RANDOM;
    if Agreed(c, v) {
      forall l | l in c && |c[l]| > 0 ensures v in c[l] {
        var n :| 0 <= n < |KEYLOG_LABELS| && KEYLOG_LABELS[n] == l;
      }
    }
  }

  method Choose(c: Candidates) returns (r: Result<nat>)
    requires forall l :: l in c <==> l in KEYLOG_LABELS
    ensures r.Ok? ==> Agreed(c, r.value)
    ensures r.Err? ==> forall v: nat :: !Agreed(c, v)
    ensures CLIENT_RANDOM in c
    ensures r.Err? ==>
      var n := |c[CLIENT_RANDOM]|;
      r.reason == (if n == 0 then "no offset found" else if n > 1 then "found multiple candidate offsets" else "expected another offset")
  {
    assert KEYLOG_LABELS[0] == CLIENT_RANDOM;
    var cr := c[CLIENT_RANDOM];
    if |cr| == 0 { return Err("no offset found"); }
    if |cr| != 1 { return Err("found multiple candidate offsets"); }
    var vaddr := cr[0];
    for n := 0 to |KEYLOG_LABELS|
      invariant forall j :: 0 <= j < n && c[KEYLOG_LABELS[j]] != [] ==> vaddr in c[KEYLOG_LABELS[j]]
    {
      var addrs := c[KEYLOG_LABELS[n]];
      if |addrs| == 0 { continue; }
      if vaddr !in addrs {
        assert !Agreed(c, vaddr);
        return Err("expected another offset");
      }
    }
    r := Ok(vaddr);
  }

  /** The instructions of a segment. */
  function Code(data: Bytes, decode: Bytes -> Inst): (code: seq<Inst>)
    ensures |code| == |data| / 4
  {
    seq(|data| / 4, k requires 0 <= k < |data| / 4 => decode(data[4 * k..4 * k + 4]))
  }

  /** Four bytes in a row are one instruction; up to three at the end are none. */
  lemma {:induction false} CodeOfWords(words: seq<Bytes>, rest: Bytes, decode: Bytes -> Inst, k: nat)
    requires forall w :: w in words ==> |w| == 4
    requires |rest| < 4 && k < |words|
    ensures var code := Code(Joined(words) + rest, decode); |code| == |words| && code[k] == decode(words[k])
  {
    var data := Joined(words) + rest;
    WordAt(words, k);
    assert data[4 * k..4 * k + 4] == Joined(words)[4 * k..4 * k + 4];
  }

  function Joined(words: seq<Bytes>): Bytes { if words == [] then [] else words[0] + Joined(words[1..]) }

  lemma {:induction false} WordAt(words: seq<Bytes>, k: nat)
    requires forall w :: w in words ==> |w| == 4
    requires k < |words|
    ensures |Joined(words)| == 4 * |words| && Joined(words)[4 * k..4 * k + 4] == words[k]
  {
    assert words[0] in words;
    if |words| == 1 {
      assert Joined(words[1..]) == [];
      assert words[0] + [] == words[0];
    } else {
      WordAt(words[1..], if k == 0 then 0 else k - 1);
      if k > 0 {
        assert Joined(words)[4 * k..4 * k + 4] == Joined(words[1..])[4 * (k - 1)..4 * (k - 1) + 4];
      }
    }
  }

  function CollectedAll(segments: seq<Segment>, decode: Bytes -> Inst, labels: map<nat, Bytes>, n: nat): (c: Candidates)
    requires n <= |segments|
    ensures forall l :: l in c <==> l in KEYLOG_LABELS
  {
    if n == 0 then NoCandidates()
    else
      var seg, c := segments[n - 1], CollectedAll(segments, decode, labels, n - 1);
      if seg.exec then Collected(Code(seg.data, decode), seg.addr, labels, |seg.data| / 4, c) else c
  }

  /** The j-th instruction of the segment is a branch to t with the label l. */
  predicate FoundIn(seg: Segment, decode: Bytes -> Inst, labels: map<nat, Bytes>, j: nat, l: Bytes, t: nat)
  {
    seg.exec && j < |seg.data| / 4 && FoundAt(Code(seg.data, decode), seg.addr, labels, j) == Some((l, t))
  }

  ghost predicate HasBranch(seg: Segment, decode: Bytes -> Inst, labels: map<nat, Bytes>, l: Bytes, t: nat)
  {
    exists j: nat :: FoundIn(seg, decode, labels, j, l, t)
  }

  ghost predicate BranchAmong(segments: seq<Segment>, decode: Bytes -> Inst, labels: map<nat, Bytes>, n: nat, l: Bytes, t: nat)
    requires n <= |segments|
  {
    exists s :: 0 <= s < n && HasBranch(segments[s], decode, labels, l, t)
  }

  lemma BranchAmongNext(segments: seq<Segment>, decode: Bytes -> Inst, labels: map<nat, Bytes>, n: nat, l: Bytes, t: nat)
    requires n < |segments|
    ensures BranchAmong(segments, decode, labels, n + 1, l, t)
      <==> BranchAmong(segments, decode, labels, n, l, t) || HasBranch(segments[n], decode, labels, l, t)
  {}

  lemma SegmentExact(seg: Segment, decode: Bytes -> Inst, labels: map<nat, Bytes>, c: Candidates, l: Bytes, t: nat)
    requires l in c && seg.exec
    ensures t in Collected(Code(seg.data, decode), seg.addr, labels, |seg.data| / 4, c)[l]
      <==> t in c[l] || HasBranch(seg, decode, labels, l, t)
  {
    var code := Code(seg.data, decode);
    CollectedExact(code, seg.addr, labels, |code|, c, l, t);
    if HasBranch(seg, decode, labels, l, t) {
      var j: nat :| FoundIn(seg, decode, labels, j, l, t);
      assert 0 <= j < |code| && FoundAt(code, seg.addr, labels, j) == Some((l, t));
    }
    if j :| 0 <= j < |code| && FoundAt(code, seg.addr, labels, j) == Some((l, t)) {
      assert FoundIn(seg, decode, labels, j, l, t);
    }
  }

  /** A target recorded for a label is that of a branch in some executable segment. */
  lemma {:induction false} CollectedAllExact(segments: seq<Segment>, decode: Bytes -> Inst, labels: map<nat, Bytes>, n: nat, l: Bytes, t: nat)
    requires n <= |segments| && l in KEYLOG_LABELS
    ensures t in CollectedAll(segments, decode, labels, n)[l] <==>
      BranchAmong(segments, decode, labels, n, l, t)
  {
    if n > 0 {
      CollectedAllExact(segments, decode, labels, n - 1, l, t);
      var seg := segments[n - 1];
      if seg.exec {
        SegmentExact(seg, decode, labels, CollectedAll(segments, decode, labels, n - 1), l, t);
      } else {
        assert !HasBranch(seg, decode, labels, l, t);
      }
      BranchAmongNext(segments, decode, labels, n - 1, l, t);
    }
  }

  /** An address that is agreed on was found at a branch which, in any machine that runs the
      segment, has the address of CLIENT_RANDOM as its second argument. */
  lemma AgreedIsFound(segments: seq<Segment>, decode: Bytes -> Inst, labels: map<nat, Bytes>, v: nat) returns (n: nat, j: nat)
    requires Agreed(CollectedAll(segments, decode, labels, |segments|), v)
    ensures n < |segments| && segments[n].exec && j < |segments[n].data| / 4
    ensures var code, addr := Code(segments[n].data, decode), segments[n].addr;
      && FoundAt(code, addr, labels, j) == Some((CLIENT_RANDOM, v))
      && forall trace: seq<Machine> :: |trace| == |code| + 1 && Runs(code, addr, trace) ==>
           trace[j][1] in labels && labels[trace[j][1]] == CLIENT_RANDOM
  {
    assert KEYLOG_LABELS[0] == CLIENT_RANDOM;
    CollectedAllExact(segments, decode, labels, |segments|, CLIENT_RANDOM, v);
    assert v in CollectedAll(segments, decode, labels, |segments|)[CLIENT_RANDOM];
    n :| 0 <= n < |segments| && HasBranch(segments[n], decode, labels, CLIENT_RANDOM, v);
    j :| FoundIn(segments[n], decode, labels, j, CLIENT_RANDOM, v);
    var code, addr := Code(segments[n].data, decode), segments[n].addr;
    forall trace: seq<Machine> | |trace| == |code| + 1 && Runs(code, addr, trace)
      ensures trace[j][1] in labels && labels[trace[j][1]] == CLIENT_RANDOM
    {
      CandidateSound(code, addr, trace, j, labels);
    }
  }

  /** The context has ended when it is asked in the segment. */
  ghost predicate InterruptedIn(seg: Segment, decode: Bytes -> Inst, stopped: nat -> bool)
  {
    var code := Code(seg.data, decode);
    seg.exec && exists k :: 0 <= k < |code| && Asked(code, k) && stopped(k)
  }

  ghost predicate Interrupted(segments: seq<Segment>, decode: Bytes -> Inst, stopped: (nat, nat) -> bool, n: nat)
    requires n <= |segments|
  {
    exists s: nat :: s < n && InterruptedIn(segments[s], decode, (k: nat) => stopped(s, k))
  }

  /** The scan of all executable segments; None if it is canceled. */
  method FindCandidates(segments: seq<Segment>, decode: Bytes -> Inst, labels: map<nat, Bytes>, stopped: (nat, nat) -> bool)
    returns (c: Option<Candidates>)
    ensures c.Some? ==> c.value == CollectedAll(segments, decode, labels, |segments|)
    ensures c.None? <==> Interrupted(segments, decode, stopped, |segments|)
  {
    var all := NoCandidates();
    for n: nat := 0 to |segments|
      invariant all == CollectedAll(segments, decode, labels, n)
      invariant !Interrupted(segments, decode, stopped, n)
    {
      if !segments[n].exec { continue; }
      var more := ScanSegment(Code(segments[n].data, decode), segments[n].addr, labels, (k: nat) => stopped(n, k), all);
      if more.None? {
        assert InterruptedIn(segments[n], decode, (k: nat) => stopped(n, k));
        return None;
      }
      all := more.value;
    }
    c := Some(all);
  }

  /** LogSecretHeuristic: it succeeds exactly if the candidates agree on an address that is
      loaded from the file. */
  method LogSecretHeuristic(segments: seq<Segment>, decode: Bytes -> Inst, stopped: (nat, nat) -> bool)
    returns (r: Result<nat>, labels: map<nat, Bytes>, canceled: bool)
    ensures Covered(segments, KEYLOG_LABELS, labels)
    ensures canceled <==> Interrupted(segments, decode, stopped, |segments|)
    ensures canceled ==> r.Err?
    ensures !canceled ==>
      var c := CollectedAll(segments, decode, labels, |segments|);
      r.Ok? <==> exists v: nat :: Agreed(c, v) && exists k :: 0 <= k < |segments| && Inside(segments[k], v)
    ensures r.Ok? ==>
      var c := CollectedAll(segments, decode, labels, |segments|);
      exists v: nat, k: nat :: Agreed(c, v) && IsFirst(segments, v, k) && r.value == OffsetIn(segments[k], v)
  {
    labels := LabelAddresses(segments);
    var c := FindCandidates(segments, decode, labels, stopped);
    canceled := c.None?;
    if canceled { return Err("canceled"), labels, true; }
    r := Choose(c.value);
    if r.Ok? {
      var v := r.value;
      var off := FileOffset(segments, v);
      assert forall w: nat :: Agreed(c.value, w) ==> w == v;
      r := if off.Some? then Ok(off.value) else Err("could not map virtual address");
    }
  }
}
