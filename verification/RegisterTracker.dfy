/** The constants that the analyzer tracks through ARM64 code, against a machine that runs
    the code. */
module RegisterTracker {
  import opened Options

  const TWO_64 := 0x1_0000_0000_0000_0000
  const TRACKED := 30 // x0 to x29

  /** A register operand: 64-bit, 32-bit, or the zero register or stack pointer. */
  datatype Reg = X(n: nat) | W(n: nat) | Zero

  /** A decoded instruction, as far as the analyzer tells them apart. An operand is None
      where it is not of the form that is looked for. BranchRel is B and BL, BranchReg is BR
      and BLR, and EndBlock the conditional branches that name a register, and RET. */
  datatype Inst =
    | Adrp(dst: Option<Reg>, rel: Option<int>)
    | Adr(dst: Option<Reg>, rel: Option<int>)
    | Add(dst: Option<Reg>, src: Option<Reg>, imm: Option<nat>)
    | BranchRel(rel: Option<int>)
    | BranchReg(reg: Option<Reg>)
    | EndBlock
    | Other
    | Undecoded

  /** regValues without its pc. */
  datatype Values = Values(regs: seq<nat>, known: seq<bool>)
  {
    predicate Valid() { |regs| == |known| == TRACKED }
  }

  function Unknown(): Values { Values(seq(TRACKED, _ => 0), seq(TRACKED, _ => false)) }

  function Index(r: Reg): (i: Option<nat>)
    ensures i.Some? ==> i.value < TRACKED
  {
    if r.X? && r.n < TRACKED then Some(r.n) else None
  }

  function Set(v: Values, r: Reg, x: nat): (u: Values)
    requires v.Valid()
    ensures u.Valid()
  {
    match Index(r)
    case Some(i) => Values(v.regs[i := x], v.known[i := true])
    case None => v
  }

  /** The old value stays in place. */
  function Clear(v: Values, r: Reg): (u: Values)
    requires v.Valid()
    ensures u.Valid()
  {
    match Index(r)
    case Some(i) => Values(v.regs, v.known[i := false])
    case None => v
  }

  function ClearAll(v: Values): (u: Values)
    requires v.Valid()
    ensures u.Valid()
  {
    Values(v.regs, seq(TRACKED, _ => false))
  }

  function Get(v: Values, r: Reg): (nat, bool)
    requires v.Valid()
  {
    match Index(r)
    case Some(i) => (v.regs[i], v.known[i])
    case None => (0, false)
  }

  function Wrap(x: int): (w: nat)
    ensures w < TWO_64
  {
    x % TWO_64
  }

  function Page(pc: nat): nat { pc - pc % 0x1000 }

  /** ADRP, ADR and ADD of an immediate set their register, or clear it if a part is not
      known; branches clear all; nothing else changes anything. */
  function Track(v: Values, pc: nat, inst: Inst): (u: Values)
    requires v.Valid()
    ensures u.Valid()
  {
    match inst
    case Adrp(Some(dst), rel) => if rel.Some? then Set(v, dst, Wrap(Page(pc) + rel.value)) else Clear(v, dst)
    case Adr(Some(dst), rel) => if rel.Some? then Set(v, dst, Wrap(pc + rel.value)) else Clear(v, dst)
    case Add(Some(dst), src, imm) =>
      if src.Some? && imm.Some? && Get(v, src.value).1 then Set(v, dst, Wrap(Get(v, src.value).0 + imm.value))
      else Clear(v, dst)
    case BranchRel(_) => ClearAll(v)
    case BranchReg(_) => ClearAll(v)
    case EndBlock => ClearAll(v)
    case _ => v
  }

  /** Where the tracker thinks a branch goes; 0 if it does not know. For a branch to a
      register it takes the value in place, known or not. */
  function Target(v: Values, pc: nat, inst: Inst): nat
    requires v.Valid()
  {
    match inst
    case BranchRel(Some(rel)) => Wrap(pc + rel)
    case BranchReg(Some(reg)) => Get(v, reg).0
    case _ => 0
  }

  /** A branch with a label as its second argument. */
  function Found(v: Values, pc: nat, inst: Inst, labels: map<nat, string>): Option<(string, nat)>
    requires v.Valid()
  {
    var (x1, known) := Get(v, X(1));
    if Target(v, pc, inst) != 0 && known && x1 in labels then Some((labels[x1], Target(v, pc, inst))) else None
  }

  // The addresses that code loads

  /** The page of an address is the 4 KiB block that it lies in. */
  lemma PageExact(pc: nat)
    ensures Page(pc) % 0x1000 == 0 && Page(pc) <= pc < Page(pc) + 0x1000
  {
    var q := pc / 0x1000;
    assert Page(pc) == q * 0x1000;
  }

  lemma WrapWrap(x: int, y: int)
    ensures (x % TWO_64 + y) % TWO_64 == (x + y) % TWO_64
  {
    var q, r := x / TWO_64, x % TWO_64;
    assert x == q * TWO_64 + r;
    var p, s := (r + y) / TWO_64, (r + y) % TWO_64;
    assert x + y == (q + p) * TWO_64 + s;
  }

  /** The k-th instruction is ADRP of a register, and the next one adds to it. */
  predicate LoadsPage(code: seq<Inst>, k: nat, n: nat, rel: int, lo: nat)
  {
    && k + 1 < |code| && n < TRACKED
    && code[k] == Adrp(Some(X(n)), Some(rel)) && code[k + 1] == Add(Some(X(n)), Some(X(n)), Some(lo))
  }

  /** ADRP and ADD leave the register known, with the page of the ADRP, the distance to the
      other page and the offset in it, all modulo 2^64; whatever was tracked before. */
  lemma PageLoaded(code: seq<Inst>, addr: nat, k: nat, n: nat, rel: int, lo: nat)
    requires LoadsPage(code, k, n, rel, lo)
    ensures var pc, v := (addr + 4 * k) % TWO_64, Before(code, addr, k + 2);
      v.known[n] && v.regs[n] == (pc - pc % 0x1000 + rel + lo) % TWO_64
  {
    var pc, v := (addr + 4 * k) % TWO_64, Before(code, addr, k + 1);
    assert v == Track(Before(code, addr, k), Pc(addr, k), code[k]);
    assert v.known[n] && v.regs[n] == (pc - pc % 0x1000 + rel) % TWO_64;
    WrapWrap(pc - pc % 0x1000 + rel, lo);
    assert Before(code, addr, k + 2) == Track(v, Pc(addr, k + 1), code[k + 1]);
  }

  /** ADR does so with its own address. */
  lemma AddressLoaded(code: seq<Inst>, addr: nat, k: nat, n: nat, rel: int)
    requires k < |code| && n < TRACKED && code[k] == Adr(Some(X(n)), Some(rel))
    ensures var v := Before(code, addr, k + 1); v.known[n] && v.regs[n] == (addr + 4 * k + rel) % TWO_64
  {
    WrapWrap(addr + 4 * k, rel);
    assert Before(code, addr, k + 1) == Track(Before(code, addr, k), Pc(addr, k), code[k]);
  }

  lemma FoundWith(v: Values, pc: nat, inst: Inst, labels: map<nat, string>, at: nat, target: nat)
    requires v.Valid() && v.known[1] && v.regs[1] == at && Target(v, pc, inst) == target
    ensures Found(v, pc, inst, labels) == if target != 0 && at in labels then Some((labels[at], target)) else None
  {
    assert Get(v, X(1)) == (at, true);
  }

  /** The usual way to call with a label: its address is loaded into x1 by ADRP and ADD, and
      then comes a relative branch. The call is found exactly if that address is one of a
      label, with the target of the branch, unless that is 0. */
  lemma CallFound(code: seq<Inst>, addr: nat, k: nat, rel: int, lo: nat, jump: int, labels: map<nat, string>)
    requires LoadsPage(code, k, 1, rel, lo) && k + 2 < |code| && code[k + 2] == BranchRel(Some(jump))
    ensures var pc := (addr + 4 * k) % TWO_64;
      var at, target := (pc - pc % 0x1000 + rel + lo) % TWO_64, (addr + 4 * (k + 2) + jump) % TWO_64;
      Found(Before(code, addr, k + 2), Pc(addr, k + 2), code[k + 2], labels)
      == if target != 0 && at in labels then Some((labels[at], target)) else None
  {
    PageLoaded(code, addr, k, 1, rel, lo);
    WrapWrap(addr + 4 * (k + 2), jump);
    var v := Before(code, addr, k + 2);
    FoundWith(v, Pc(addr, k + 2), code[k + 2], labels, v.regs[1], Wrap(Pc(addr, k + 2) + jump));
  }

  /** A branch to a register that is not tracked, or that was never set, is never found. */
  lemma UntrackedCall(code: seq<Inst>, addr: nat, k: nat, reg: Reg, labels: map<nat, string>)
    requires k < |code| && code[k] == BranchReg(Some(reg)) && !(reg.X? && reg.n < 30)
    ensures Found(Before(code, addr, k), Pc(addr, k), code[k], labels) == None
  {}

  /** Loading an address into another register leaves x1 alone. */
  lemma LoadKeeps(code: seq<Inst>, addr: nat, k: nat, n: nat, rel: int, lo: nat)
    requires LoadsPage(code, k, n, rel, lo) && n != 1
    ensures var v, u := Before(code, addr, k), Before(code, addr, k + 2); u.regs[1] == v.regs[1] && u.known[1] == v.known[1]
  {
    var v0, v1, v2 := Before(code, addr, k), Before(code, addr, k + 1), Before(code, addr, k + 2);
    assert v1 == Track(v0, Pc(addr, k), code[k]);
    assert v2 == Track(v1, Pc(addr, k + 1), code[k + 1]);
  }

  /** And through a register whose address is loaded so in between, a call goes there. */
  lemma RegisterCallFound(code: seq<Inst>, addr: nat, k: nat, rel: int, lo: nat, n: nat, rel2: int, lo2: nat, labels: map<nat, string>)
    requires LoadsPage(code, k, 1, rel, lo) && LoadsPage(code, k + 2, n, rel2, lo2) && n != 1
    requires k + 4 < |code| && code[k + 4] == BranchReg(Some(X(n)))
    ensures var pc, pc2 := (addr + 4 * k) % TWO_64, (addr + 4 * (k + 2)) % TWO_64;
      var at, target := (pc - pc % 0x1000 + rel + lo) % TWO_64, (pc2 - pc2 % 0x1000 + rel2 + lo2) % TWO_64;
      Found(Before(code, addr, k + 4), Pc(addr, k + 4), code[k + 4], labels)
      == if target != 0 && at in labels then Some((labels[at], target)) else None
  {
    PageLoaded(code, addr, k, 1, rel, lo);
    PageLoaded(code, addr, k + 2, n, rel2, lo2);
    LoadKeeps(code, addr, k + 2, n, rel2, lo2);
    var v4 := Before(code, addr, k + 4);
    assert Get(v4, X(n)).0 == v4.regs[n];
    FoundWith(v4, Pc(addr, k + 4), code[k + 4], labels, v4.regs[1], v4.regs[n]);
  }

  // The machine

  const MACHINE := 31 // x0 to x30

  type Machine = s: seq<nat> | |s| == MACHINE && forall i :: 0 <= i < |s| ==> s[i] < TWO_64 witness seq(MACHINE, _ => 0)

  predicate IsX(r: Option<Reg>) { r.Some? && r.value.X? && r.value.n <= 30 }

  /** A register that the instruction writes and the tracker forgets. */
  predicate Forgotten(v: Values, inst: Inst, i: nat)
    requires v.Valid()
  {
    match inst
    case Adrp(dst, rel) => dst == Some(X(i)) && rel.None?
    case Adr(dst, rel) => dst == Some(X(i)) && rel.None?
    case Add(dst, src, imm) => dst == Some(X(i)) && !(IsX(src) && imm.Some?)
    case _ => false
  }

  predicate Keeps(v: Values, inst: Inst, i: nat)
    requires v.Valid()
  {
    i < TRACKED && v.known[i] && !Forgotten(v, inst, i)
  }

  /** A branch, whose effect is left open. */
  predicate Branches(inst: Inst) { inst.BranchRel? || inst.BranchReg? || inst.EndBlock? }

  /** An ADRP or ADR of a 64-bit register, and what it computes. */
  predicate Computes(inst: Inst) { (inst.Adrp? || inst.Adr?) && IsX(inst.dst) && inst.rel.Some? }

  function Computed(pc: nat, inst: Inst): nat
    requires Computes(inst)
  {
    if inst.Adrp? then Wrap(Page(pc) + inst.rel.value) else Wrap(pc + inst.rel.value)
  }

  /** An ADD of an immediate with 64-bit registers. */
  predicate Adds(inst: Inst) { inst.Add? && IsX(inst.dst) && IsX(inst.src) && inst.imm.Some? }

  /** One instruction of a straight-line block: the 64-bit forms that are tracked do what
      they do; of any other instruction it is asked that it writes no register that is
      known, unless it is forgotten. What a branch does is left open. */
  predicate Executes(v: Values, pc: nat, inst: Inst, before: Machine, after: Machine)
    requires v.Valid()
  {
    if Branches(inst) then true
    else if Computes(inst) then after == before[inst.dst.value.n := Computed(pc, inst)]
    else if Adds(inst) then after == before[inst.dst.value.n := Wrap(before[inst.src.value.n] + inst.imm.value)]
    else forall i :: 0 <= i < TRACKED && Keeps(v, inst, i) ==> after[i] == before[i]
  }

  /** Known registers have their value in the machine. */
  predicate Sound(v: Values, m: Machine)
    requires v.Valid()
  {
    forall i :: 0 <= i < TRACKED && v.known[i] ==> v.regs[i] == m[i]
  }

  lemma TrackSound(v: Values, pc: nat, inst: Inst, before: Machine, after: Machine)
    requires v.Valid() && Sound(v, before) && Executes(v, pc, inst, before, after)
    ensures Sound(Track(v, pc, inst), after)
  {
    match inst
    case Add(_, _, _) => AddSound(v, pc, inst, before, after);
    case _ =>
  }

  lemma AddSound(v: Values, pc: nat, inst: Inst, before: Machine, after: Machine)
    requires v.Valid() && Sound(v, before) && inst.Add? && Executes(v, pc, inst, before, after)
    ensures Sound(Track(v, pc, inst), after)
  {}

  /** The code of a segment: four bytes for each instruction. */
  function Pc(addr: nat, k: nat): nat { Wrap(addr + 4 * k) }

  /** What is tracked before the k-th instruction. */
  function Before(code: seq<Inst>, addr: nat, k: nat): (v: Values)
    requires k <= |code|
    ensures v.Valid()
  {
    if k == 0 then Unknown() else Track(Before(code, addr, k - 1), Pc(addr, k - 1), code[k - 1])
  }

  predicate Runs(code: seq<Inst>, addr: nat, trace: seq<Machine>)
    requires |trace| == |code| + 1
  {
    forall k :: 0 <= k < |code| ==> Executes(Before(code, addr, k), Pc(addr, k), code[k], trace[k], trace[k + 1])
  }

  lemma {:induction false} RunSound(code: seq<Inst>, addr: nat, trace: seq<Machine>, k: nat)
    requires |trace| == |code| + 1 && Runs(code, addr, trace) && k <= |code|
    ensures Sound(Before(code, addr, k), trace[k])
  {
    if k > 0 {
      RunSound(code, addr, trace, k - 1);
      TrackSound(Before(code, addr, k - 1), Pc(addr, k - 1), code[k - 1], trace[k - 1], trace[k]);
    }
  }

  /** The target is where the branch goes, as far as that is known. */
  predicate TargetRight(v: Values, pc: nat, inst: Inst, m: Machine)
    requires v.Valid()
  {
    match inst
    case BranchRel(Some(rel)) => Target(v, pc, inst) == Wrap(pc + rel)
    case BranchReg(Some(reg)) => Get(v, reg).1 && IsX(Some(reg)) ==> Target(v, pc, inst) == m[reg.n]
    case _ => Target(v, pc, inst) == 0
  }

  /** A candidate is recorded exactly for a branch that the tracker has a target for, while
      x1 is known and is a label's address in the machine; and the target is right if the
      branch is relative or its register is known. */
  lemma CandidateSound(code: seq<Inst>, addr: nat, trace: seq<Machine>, k: nat, labels: map<nat, string>)
    requires |trace| == |code| + 1 && Runs(code, addr, trace) && k < |code|
    ensures var v, m := Before(code, addr, k), trace[k];
      var target := Target(v, Pc(addr, k), code[k]);
      && Found(v, Pc(addr, k), code[k], labels)
         == (if target != 0 && v.known[1] && m[1] in labels then Some((labels[m[1]], target)) else None)
      && TargetRight(v, Pc(addr, k), code[k], m)
  {
    RunSound(code, addr, trace, k);
    FoundSound(Before(code, addr, k), Pc(addr, k), code[k], trace[k], labels);
  }

  lemma FoundSound(v: Values, pc: nat, inst: Inst, m: Machine, labels: map<nat, string>)
    requires v.Valid() && Sound(v, m)
    ensures var target := Target(v, pc, inst);
      Found(v, pc, inst, labels) == if target != 0 && v.known[1] && m[1] in labels then Some((labels[m[1]], target)) else None
    ensures TargetRight(v, pc, inst, m)
  {
    assert Get(v, X(1)) == (v.regs[1], v.known[1]);
  }

  // Which registers have one possible value

  /** The value that a register has in every run, if there is one. */
  type Forcing = s: seq<Option<nat>> | |s| == MACHINE witness seq(MACHINE, _ => None)

  function Free(): Forcing { seq(MACHINE, _ => None) }

  function Plus(x: Option<nat>, imm: nat): Option<nat> { if x.Some? then Some(Wrap(x.value + imm)) else None }

  function Force(v: Values, f: Forcing, pc: nat, inst: Inst): Forcing
    requires v.Valid()
  {
    if Branches(inst) then Free()
    else if Computes(inst) then f[inst.dst.value.n := Some(Computed(pc, inst))]
    else if Adds(inst) then f[inst.dst.value.n := Plus(f[inst.src.value.n], inst.imm.value)]
    else seq(MACHINE, i requires 0 <= i < MACHINE => if Keeps(v, inst, i) then f[i] else None)
  }

  /** What the code before the k-th instruction forces, from the code alone. */
  function Forced(code: seq<Inst>, addr: nat, k: nat): Forcing
    requires k <= |code|
  {
    if k == 0 then Free() else Force(Before(code, addr, k - 1), Forced(code, addr, k - 1), Pc(addr, k - 1), code[k - 1])
  }

  predicate Covers(f: Forcing, v: Values)
    requires v.Valid()
  {
    forall i :: 0 <= i < TRACKED && v.known[i] ==> f[i] == Some(v.regs[i])
  }

  lemma ForceCovers(v: Values, f: Forcing, pc: nat, inst: Inst)
    requires v.Valid() && Covers(f, v)
    ensures Covers(Force(v, f, pc, inst), Track(v, pc, inst))
  {
    if Branches(inst) {
    } else if Computes(inst) {
      assert Computed(pc, inst) == if inst.Adrp? then Wrap(Page(pc) + inst.rel.value) else Wrap(pc + inst.rel.value);
    } else if Adds(inst) {
    } else {
      ForceCoversOther(v, f, pc, inst);
    }
  }

  lemma ForceCoversOther(v: Values, f: Forcing, pc: nat, inst: Inst)
    requires v.Valid() && Covers(f, v) && !Branches(inst) && !Computes(inst) && !Adds(inst)
    ensures Covers(Force(v, f, pc, inst), Track(v, pc, inst))
  {
    var u := Track(v, pc, inst);
    forall i | 0 <= i < TRACKED && u.known[i]
      ensures v.known[i] && u.regs[i] == v.regs[i] && Keeps(v, inst, i)
    {
    }
  }

  /** Whatever the tracker knows is forced. */
  lemma {:induction false} KnownForced(code: seq<Inst>, addr: nat, k: nat)
    requires k <= |code|
    ensures Covers(Forced(code, addr, k), Before(code, addr, k))
  {
    if k > 0 {
      KnownForced(code, addr, k - 1);
      ForceCovers(Before(code, addr, k - 1), Forced(code, addr, k - 1), Pc(addr, k - 1), code[k - 1]);
    }
  }

  predicate Obeys(m: Machine, f: Forcing) { forall i :: 0 <= i < MACHINE && f[i].Some? ==> m[i] == f[i].value }

  lemma ForceObeyed(v: Values, f: Forcing, pc: nat, inst: Inst, before: Machine, after: Machine)
    requires v.Valid() && Obeys(before, f) && Executes(v, pc, inst, before, after)
    ensures Obeys(after, Force(v, f, pc, inst))
  {}

  /** What is forced does hold in every run. */
  lemma {:induction false} RunObeys(code: seq<Inst>, addr: nat, trace: seq<Machine>, k: nat)
    requires |trace| == |code| + 1 && Runs(code, addr, trace) && k <= |code|
    ensures Obeys(trace[k], Forced(code, addr, k))
  {
    if k > 0 {
      RunObeys(code, addr, trace, k - 1);
      ForceObeyed(Before(code, addr, k - 1), Forced(code, addr, k - 1), Pc(addr, k - 1), code[k - 1], trace[k - 1], trace[k]);
    }
  }

  // Runs that choose a value

  /** The beginning of a run. */
  predicate Begins(code: seq<Inst>, addr: nat, trace: seq<Machine>)
  {
    && 0 < |trace| <= |code| + 1
    && forall k :: 0 <= k < |trace| - 1 ==> Executes(Before(code, addr, k), Pc(addr, k), code[k], trace[k], trace[k + 1])
  }

  function Put(m: Machine, i: nat, x: nat): Machine
    requires i < MACHINE && x < TWO_64
  {
    m[i := x]
  }

  /** One thing that the machine may do. */
  function StepOf(pc: nat, inst: Inst, m: Machine): Machine
  {
    if Computes(inst) then Put(m, inst.dst.value.n, Computed(pc, inst))
    else if Adds(inst) then Put(m, inst.dst.value.n, Wrap(m[inst.src.value.n] + inst.imm.value))
    else m
  }

  lemma StepExecutes(v: Values, pc: nat, inst: Inst, m: Machine)
    requires v.Valid()
    ensures Executes(v, pc, inst, m, StepOf(pc, inst, m))
  {}

  lemma Longer(code: seq<Inst>, addr: nat, trace: seq<Machine>, m: Machine)
    requires Begins(code, addr, trace) && |trace| <= |code|
    requires var k := |trace| - 1; Executes(Before(code, addr, k), Pc(addr, k), code[k], trace[k], m)
    ensures Begins(code, addr, trace + [m])
  {
    var longer := trace + [m];
    forall k | 0 <= k < |longer| - 1
      ensures Executes(Before(code, addr, k), Pc(addr, k), code[k], longer[k], longer[k + 1])
    {
      if k < |trace| - 1 { assert longer[k + 1] == trace[k + 1]; }
    }
  }

  /** Every beginning goes on. */
  lemma {:induction false} Extend(code: seq<Inst>, addr: nat, trace: seq<Machine>, n: nat) returns (longer: seq<Machine>)
    requires Begins(code, addr, trace) && |trace| <= n + 1 <= |code| + 1
    ensures Begins(code, addr, longer) && |longer| == n + 1 && trace <= longer
    decreases n + 1 - |trace|
  {
    if |trace| == n + 1 { return trace; }
    var k := |trace| - 1;
    var m := StepOf(Pc(addr, k), code[k], trace[k]);
    StepExecutes(Before(code, addr, k), Pc(addr, k), code[k], trace[k]);
    Longer(code, addr, trace, m);
    longer := Extend(code, addr, trace + [m], n);
  }

  lemma SomeRun(code: seq<Inst>, addr: nat, n: nat) returns (trace: seq<Machine>)
    requires n <= |code|
    ensures Begins(code, addr, trace) && |trace| == n + 1
  {
    var zero: Machine := seq(MACHINE, _ => 0);
    trace := Extend(code, addr, [zero], n);
  }

  lemma WrapBack(c: nat, imm: nat)
    requires c < TWO_64
    ensures Wrap(Wrap(c - imm) + imm) == c
  {}

  /** The machine may put c into x(i). */
  ghost predicate FreeAt(v: Values, pc: nat, inst: Inst, i: nat, c: nat)
    requires v.Valid() && i < MACHINE && c < TWO_64
  {
    forall m: Machine :: Executes(v, pc, inst, m, Put(m, i, c))
  }

  /** With d in x(j), the machine may get c in x(i). */
  ghost predicate Gives(pc: nat, inst: Inst, j: nat, d: nat, i: nat, c: nat)
    requires i < MACHINE && j < MACHINE
  {
    forall m: Machine :: m[j] == d ==> StepOf(pc, inst, m)[i] == c
  }

  /** A register that an instruction does not force: any value may be put into it, or
      some value of a register that was not forced before gives it the one that is wanted. */
  lemma ChooseBefore(v: Values, f: Forcing, pc: nat, inst: Inst, i: nat, c: nat) returns (free: bool, j: nat, d: nat)
    requires v.Valid() && Covers(f, v) && i < MACHINE && c < TWO_64 && Force(v, f, pc, inst)[i].None?
    ensures free ==> FreeAt(v, pc, inst, i, c)
    ensures !free ==> j < MACHINE && d < TWO_64 && f[j].None? && Gives(pc, inst, j, d, i, c)
  {
    free, j, d := false, i, c;
    if Adds(inst) {
      if i == inst.dst.value.n {
        j, d := inst.src.value.n, Wrap(c - inst.imm.value);
        WrapBack(c, inst.imm.value);
      }
    } else if !Computes(inst) {
      assert Branches(inst) || !Keeps(v, inst, i);
      free := true;
    }
  }

  /** A register that is not forced can have any value. */
  lemma {:induction false} Reaches(code: seq<Inst>, addr: nat, k: nat, i: nat, c: nat) returns (trace: seq<Machine>)
    requires k <= |code| && i < MACHINE && c < TWO_64 && Forced(code, addr, k)[i].None?
    ensures Begins(code, addr, trace) && |trace| == k + 1 && trace[k][i] == c
  {
    if k == 0 {
      var zero: Machine := seq(MACHINE, _ => 0);
      return [Put(zero, i, c)];
    }
    KnownForced(code, addr, k - 1);
    var free, j, d := ChooseBefore(Before(code, addr, k - 1), Forced(code, addr, k - 1), Pc(addr, k - 1), code[k - 1], i, c);
    if free {
      trace := SomeRun(code, addr, k - 1);
      trace := FreeStep(code, addr, trace, i, c);
    } else {
      trace := Reaches(code, addr, k - 1, j, d);
      trace := GivenStep(code, addr, trace, j, d, i, c);
    }
  }

  lemma FreeStep(code: seq<Inst>, addr: nat, trace: seq<Machine>, i: nat, c: nat) returns (longer: seq<Machine>)
    requires Begins(code, addr, trace) && |trace| <= |code| && i < MACHINE && c < TWO_64
    requires var k := |trace| - 1; FreeAt(Before(code, addr, k), Pc(addr, k), code[k], i, c)
    ensures Begins(code, addr, longer) && |longer| == |trace| + 1 && longer[|trace|][i] == c
  {
    var m := Put(trace[|trace| - 1], i, c);
    Longer(code, addr, trace, m);
    longer := trace + [m];
  }

  lemma GivenStep(code: seq<Inst>, addr: nat, trace: seq<Machine>, j: nat, d: nat, i: nat, c: nat) returns (longer: seq<Machine>)
    requires Begins(code, addr, trace) && |trace| <= |code| && i < MACHINE && j < MACHINE
    requires var k := |trace| - 1; Gives(Pc(addr, k), code[k], j, d, i, c) && trace[k][j] == d
    ensures Begins(code, addr, longer) && |longer| == |trace| + 1 && longer[|trace|][i] == c
  {
    var k := |trace| - 1;
    var m := StepOf(Pc(addr, k), code[k], trace[k]);
    StepExecutes(Before(code, addr, k), Pc(addr, k), code[k], trace[k]);
    Longer(code, addr, trace, m);
    longer := trace + [m];
  }

  /** Whatever the machine does, the target that the tracker takes for the k-th instruction,
      a branch to x(n), is where it goes. */
  ghost predicate AlwaysRight(code: seq<Inst>, addr: nat, k: nat, n: nat)
    requires k < |code| && n < MACHINE
  {
    forall trace: seq<Machine> :: |trace| == |code| + 1 && Runs(code, addr, trace) ==>
      Target(Before(code, addr, k), Pc(addr, k), code[k]) == trace[k][n]
  }

  /** For a branch to a register, known or not, the recorded target is the value that was
      last tracked for the register, however long ago; it is right in every run exactly if
      the code forces the register to that value. */
  lemma StaleTargetExact(code: seq<Inst>, addr: nat, k: nat, n: nat)
    requires k < |code| && n < TRACKED && code[k] == BranchReg(Some(X(n)))
    ensures AlwaysRight(code, addr, k, n) <==> Forced(code, addr, k)[n] == Some(Before(code, addr, k).regs[n])
  {
    var target, f := Before(code, addr, k).regs[n], Forced(code, addr, k);
    assert Target(Before(code, addr, k), Pc(addr, k), code[k]) == target;
    if f[n] == Some(target) {
      forall trace: seq<Machine> | |trace| == |code| + 1 && Runs(code, addr, trace)
        ensures target == trace[k][n]
      {
        RunObeys(code, addr, trace, k);
      }
    } else {
      var trace;
      if f[n].None? {
        trace := Reaches(code, addr, k, n, if target == 0 then 1 else 0);
      } else {
        trace := SomeRun(code, addr, k);
      }
      var full := Extend(code, addr, trace, |code|);
      assert Runs(code, addr, full) && full[k] == trace[k];
      RunObeys(code, addr, full, k);
      assert full[k][n] != target;
    }
  }

  /** No instruction before the k-th is tracked and writes x30, which the machine has and
      the tracker has not. */
  predicate NoLink(code: seq<Inst>, k: nat)
    requires k <= |code|
  {
    forall j :: 0 <= j < k ==> !((Computes(code[j]) || Adds(code[j])) && code[j].dst.value.n == TRACKED)
  }

  predicate Same(f: Forcing, v: Values)
    requires v.Valid()
  {
    f[TRACKED].None? && forall i :: 0 <= i < TRACKED ==> f[i] == if v.known[i] then Some(v.regs[i]) else None
  }

  lemma ForceSame(v: Values, f: Forcing, pc: nat, inst: Inst)
    requires v.Valid() && Same(f, v)
    requires !((Computes(inst) || Adds(inst)) && inst.dst.value.n == TRACKED)
    ensures Same(Force(v, f, pc, inst), Track(v, pc, inst))
  {
    ForceCovers(v, f, pc, inst);
    var u := Track(v, pc, inst);
    forall i | 0 <= i < TRACKED && !u.known[i]
      ensures Force(v, f, pc, inst)[i].None?
    {
    }
  }

  lemma {:induction false} NothingElseForced(code: seq<Inst>, addr: nat, k: nat)
    requires k <= |code| && NoLink(code, k)
    ensures Same(Forced(code, addr, k), Before(code, addr, k))
  {
    if k > 0 {
      NothingElseForced(code, addr, k - 1);
      ForceSame(Before(code, addr, k - 1), Forced(code, addr, k - 1), Pc(addr, k - 1), code[k - 1]);
    }
  }

  /** Then the target is right in every run exactly if the register is known. */
  lemma KnownTargetExact(code: seq<Inst>, addr: nat, k: nat, n: nat)
    requires k < |code| && n < TRACKED && code[k] == BranchReg(Some(X(n))) && NoLink(code, k)
    ensures AlwaysRight(code, addr, k, n) <==> Before(code, addr, k).known[n]
  {
    StaleTargetExact(code, addr, k, n);
    NothingElseForced(code, addr, k);
  }

  /** With x30 it need not be: here x1 is not known, and the target that was left in it is
      right in every run. */
  function LinkCode(): seq<Inst>
  {
    [Adr(Some(X(1)), Some(0x100)), Adr(Some(X(30)), Some(0xF8)), Add(Some(X(1)), Some(X(30)), Some(4)), BranchReg(Some(X(1)))]
  }

  lemma UnknownAndRight()
    ensures var code := LinkCode(); !Before(code, 0x1000, 3).known[1] && AlwaysRight(code, 0x1000, 3, 1)
  {
    var code := LinkCode();
    var v1, v2, v3 := Before(code, 0x1000, 1), Before(code, 0x1000, 2), Before(code, 0x1000, 3);
    assert v1 == Set(Unknown(), X(1), 0x1100) && v2 == v1 && v3 == Clear(v2, X(1));
    var f1, f2, f3 := Forced(code, 0x1000, 1), Forced(code, 0x1000, 2), Forced(code, 0x1000, 3);
    assert f1 == Free()[1 := Some(0x1100)] && f2 == f1[30 := Some(0x10FC)] && f3 == f2[1 := Some(0x1100)];
    StaleTargetExact(code, 0x1000, 3, 1);
  }

  /** x2 is set, a call may change it, x1 is set to a label, and then x2 is called. */
  function StaleCode(): seq<Inst>
  {
    [Adr(Some(X(2)), Some(0x100)), BranchRel(Some(0x200)), Adr(Some(X(1)), Some(0x300)), BranchReg(Some(X(2)))]
  }

  /** The tracker records a call of the old value, where the machine calls another address. */
  lemma StaleTargetRecorded() returns (trace: seq<Machine>)
    ensures var code := StaleCode();
      && |trace| == |code| + 1 && Runs(code, 0x1000, trace)
      && Found(Before(code, 0x1000, 3), Pc(0x1000, 3), code[3], map[0x1308 := "CLIENT_RANDOM"]) == Some(("CLIENT_RANDOM", 0x1100))
      && trace[3][2] == 0x5000
  {
    var zero: Machine := seq(MACHINE, _ => 0);
    var code := StaleCode();
    var m1: Machine := zero[2 := 0x1100];
    var m2: Machine := zero[2 := 0x5000];
    var m3: Machine := m2[1 := 0x1308];
    trace := [zero, m1, m2, m3, m3];
    var v1 := Before(code, 0x1000, 1);
    assert v1 == Set(Unknown(), X(2), 0x1100);
    var v2 := Before(code, 0x1000, 2);
    assert v2 == ClearAll(v1);
    var v3 := Before(code, 0x1000, 3);
    assert v3 == Set(v2, X(1), 0x1308);
  }
}
