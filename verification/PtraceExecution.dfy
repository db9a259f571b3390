/** One traced thread, instruction by instruction: what the program computes and which
    hits are reported, against the same program without breakpoints. */
module PtraceExecution {
  import opened Options
  import opened Ptrace
  import opened PtraceProof

  /** The processor state; regs is everything besides the program counter. */
  datatype Cpu<R> = Cpu(pc: nat, regs: R)

  /** The program on its own. */
  function Next<R>(o: seq<byte>, exec: (Word, Cpu<R>) -> Cpu<R>, c: Cpu<R>): Cpu<R>
  {
    if c.pc + INSTRUCTION_SIZE <= |o| then exec(Fetch(o, c.pc), c) else c
  }

  function Native<R>(o: seq<byte>, exec: (Word, Cpu<R>) -> Cpu<R>, c: Cpu<R>, n: nat): Cpu<R>
    decreases n
  {
    if n == 0 then c else Native(o, exec, Next(o, exec, c), n - 1)
  }

  /** The hooked addresses that the program's first n instructions arrive at, in order. */
  function Arrivals<R>(o: seq<byte>, exec: (Word, Cpu<R>) -> Cpu<R>, c: Cpu<R>, bps: map<nat, Breakpoint>, n: nat): seq<nat>
    decreases n
  {
    if n == 0 then []
    else (if c.pc in bps then [c.pc] else []) + Arrivals(o, exec, Next(o, exec, c), bps, n - 1)
  }

  /** An instruction the program may be at: in the text, no brk of its own, and either
      hooked or clear of every hook. */
  predicate Ordinary(o: seq<byte>, bps: map<nat, Breakpoint>, pc: nat)
  {
    && pc + INSTRUCTION_SIZE <= |o| && Fetch(o, pc) != BRK
    && forall va :: va in bps && va != pc ==> pc + INSTRUCTION_SIZE <= va || va + INSTRUCTION_SIZE <= pc
  }

  ghost predicate Path<R>(o: seq<byte>, exec: (Word, Cpu<R>) -> Cpu<R>, c: Cpu<R>, bps: map<nat, Breakpoint>, n: nat)
    decreases n
  {
    n == 0 || (Ordinary(o, bps, c.pc) && Path(o, exec, Next(o, exec, c), bps, n - 1))
  }

  // The traced program

  datatype Traced<R> = Traced(w: World, cpu: Cpu<R>)

  function Answer(listening: bool): Answers { Answers(_ => true, _ => true, (_: HookSpec) => None, listening) }

  /** The thread stops with a SIGTRAP, and the engine's loop sees it. */
  function TrapAt(w: World, tid: int, pc: nat, listening: bool): World
  {
    ApplyReport(w.(kernel := ApplyChange(w.kernel, Halt(tid))), ReportStop(tid, Trap(Some(pc)), Answer(listening)))
  }

  /** The processor fetches from the text as it is. Running, it traps on brk without
      moving; single-stepping, it executes one instruction and then traps. listen says
      whether the consumer waits at the time of the k-th hit. */
  function MicroStep<R>(t: Traced<R>, tid: int, exec: (Word, Cpu<R>) -> Cpu<R>, listen: nat -> bool): Traced<R>
  {
    var k := t.w.kernel;
    var listening := listen(|t.w.log.hits|);
    if tid !in k.status || t.cpu.pc + INSTRUCTION_SIZE > |k.text| then t
    else if k.status[tid].Running? then
      if Fetch(k.text, t.cpu.pc) == BRK then t.(w := TrapAt(t.w, tid, t.cpu.pc, listening))
      else t.(cpu := exec(Fetch(k.text, t.cpu.pc), t.cpu))
    else if k.status[tid].Stepping? then
      var c := exec(Fetch(k.text, t.cpu.pc), t.cpu);
      Traced(TrapAt(t.w, tid, c.pc, listening), c)
    else t
  }

  function MicroSteps<R>(t: Traced<R>, tid: int, exec: (Word, Cpu<R>) -> Cpu<R>, listen: nat -> bool, n: nat): Traced<R>
    decreases n
  {
    if n == 0 then t else MicroSteps(MicroStep(t, tid, exec, listen), tid, exec, listen, n - 1)
  }

  /** One thread that runs, nothing pending, and every breakpoint in. */
  ghost predicate Settled(o: seq<byte>, sites: iset<nat>, w: World, tid: int)
  {
    && w.engine.threads == map[tid := Thread(None, true)] && w.engine.pending == {} && w.engine.pendingSpecs == []
    && w.kernel.status == map[tid := Running]
    && Separate(sites) && WorldOk(o, sites, w)
    && forall va :: va in w.engine.bps ==> Fetch(w.kernel.text, va) == BRK
  }

  lemma NothingPending(w: World, tid: int, a: Answers)
    requires w.engine.pendingSpecs == []
    ensures InstallPending(w, tid, a) == w
  {}

  /** A trap at a breakpoint: the hit is logged, the breakpoint comes out, and the
      thread is sent on one step. */
  lemma TrapOnHit(o: seq<byte>, sites: iset<nat>, w: World, tid: int, va: nat, listening: bool)
    requires Settled(o, sites, w, tid) && va in w.engine.bps
    ensures TrapAt(w, tid, va, listening)
            == World(w.engine.(threads := map[tid := Thread(Some(va), false)]),
                     Kernel(Store(w.kernel.text, va, Fetch(o, va)), map[tid := Stepping]),
                     Emit(w.log, tid, va, listening))
  {
    var r := w.(kernel := Reported(ApplyChange(w.kernel, Halt(tid)), tid));
    var s := SetThread(r, tid, Thread(None, false));
    NothingPending(s, tid, Answer(listening));
    assert s.engine.threads == map[tid := Thread(None, false)];
    assert Resume(s.kernel, tid, Stepping).status == map[tid := Stepping];
  }

  /** The trap after the step: the breakpoint goes back in and the thread runs on. */
  lemma TrapAfterStep(w: World, tid: int, va: nat, pc: nat, listening: bool)
    requires w.engine.threads == map[tid := Thread(Some(va), false)] && w.engine.pending == {} && w.engine.pendingSpecs == []
    requires w.kernel.status == map[tid := Stepping] && va + INSTRUCTION_SIZE <= |w.kernel.text|
    ensures TrapAt(w, tid, pc, listening)
            == World(w.engine.(threads := map[tid := Thread(None, true)]),
                     Kernel(Store(w.kernel.text, va, BRK), map[tid := Running]), w.log)
  {
    var a := Answer(listening);
    var r := w.(kernel := Reported(ApplyChange(w.kernel, Halt(tid)), tid));
    var s := SetThread(r, tid, Thread(Some(va), false));
    NothingPending(s, tid, a);
    assert s == r;
    var u := SetThread(s, tid, Thread(None, false)).(kernel := Poke(s.kernel, tid, va, BRK, a).1);
    NothingPending(u, tid, a);
    assert u.engine.threads == map[tid := Thread(None, false)];
    assert Cont(u, tid, a).engine.threads == map[tid := Thread(None, true)];
  }

  lemma OutAndIn(text: seq<byte>, va: nat, word: Word)
    requires va + INSTRUCTION_SIZE <= |text| && Fetch(text, va) == BRK
    ensures Store(Store(text, va, word), va, BRK) == text
    ensures Fetch(Store(text, va, word), va) == word
  {
    assert text == text[..va] + Fetch(text, va) + text[va + INSTRUCTION_SIZE..];
  }

  lemma ClearOfHooks(o: seq<byte>, sites: iset<nat>, w: World, pc: nat)
    requires WorldOk(o, sites, w) && Ordinary(o, w.engine.bps, pc) && pc !in w.engine.bps
    ensures Fetch(w.kernel.text, pc) == Fetch(o, pc)
  {
    forall i | pc <= i < pc + INSTRUCTION_SIZE
      ensures w.kernel.text[i] == o[i]
    {
      assert forall va :: va in w.engine.bps ==> !Covers(va, i);
    }
  }

  /** One instruction of the program takes one step of the traced thread, or two at a
      breakpoint, and leaves the text as it was. */
  lemma OneInstruction<R>(o: seq<byte>, sites: iset<nat>, t: Traced<R>, tid: int, exec: (Word, Cpu<R>) -> Cpu<R>, listen: nat -> bool)
    requires Settled(o, sites, t.w, tid) && Ordinary(o, t.w.engine.bps, t.cpu.pc)
    ensures var hit := t.cpu.pc in t.w.engine.bps;
      MicroSteps(t, tid, exec, listen, if hit then 2 else 1)
      == Traced(if hit then t.w.(log := Emit(t.w.log, tid, t.cpu.pc, listen(|t.w.log.hits|))) else t.w,
                Next(o, exec, t.cpu))
  {
    var w, pc := t.w, t.cpu.pc;
    var t1 := MicroStep(t, tid, exec, listen);
    if pc in w.engine.bps {
      TrapOnHit(o, sites, w, tid, pc, listen(|w.log.hits|));
      OutAndIn(w.kernel.text, pc, Fetch(o, pc));
      var c := exec(Fetch(o, pc), t.cpu);
      TrapAfterStep(t1.w, tid, pc, c.pc, listen(|t1.w.log.hits|));
      var t2 := MicroStep(t1, tid, exec, listen);
      assert MicroSteps(t2, tid, exec, listen, 0) == t2;
      assert MicroSteps(t1, tid, exec, listen, 1) == t2;
    } else {
      ClearOfHooks(o, sites, w, pc);
      assert MicroSteps(t1, tid, exec, listen, 0) == t1;
    }
  }

  lemma {:induction false} MicroStepsAdd<R>(t: Traced<R>, tid: int, exec: (Word, Cpu<R>) -> Cpu<R>, listen: nat -> bool, m: nat, n: nat)
    ensures MicroSteps(MicroSteps(t, tid, exec, listen, m), tid, exec, listen, n) == MicroSteps(t, tid, exec, listen, m + n)
    decreases m
  {
    if m > 0 { MicroStepsAdd(MicroStep(t, tid, exec, listen), tid, exec, listen, m - 1, n); }
  }

  function Places(hits: seq<Hit>): (vas: seq<nat>)
    ensures |vas| == |hits| && forall i :: 0 <= i < |hits| ==> vas[i] == hits[i].va
  {
    seq(|hits|, i requires 0 <= i < |hits| => hits[i].va)
  }

  lemma PlaceOfHit(g: Log, tid: int, va: nat, listening: bool)
    ensures Places(Emit(g, tid, va, listening).hits) == Places(g.hits) + [va]
  {}

  /** What a stretch of the traced program did: computed the given state, left everything
      but the log alone, and logged hits at the given addresses. */
  ghost predicate Ran<R>(t: Traced<R>, r: Traced<R>, cpu: Cpu<R>, arrivals: seq<nat>)
  {
    r.cpu == cpu && r.w == t.w.(log := r.w.log) && Places(r.w.log.hits) == Places(t.w.log.hits) + arrivals
  }

  lemma RanOne<R>(o: seq<byte>, sites: iset<nat>, t: Traced<R>, tid: int, exec: (Word, Cpu<R>) -> Cpu<R>, listen: nat -> bool)
    requires Settled(o, sites, t.w, tid) && Ordinary(o, t.w.engine.bps, t.cpu.pc)
    ensures var first: seq<nat> := if t.cpu.pc in t.w.engine.bps then [t.cpu.pc] else [];
      Ran(t, MicroSteps(t, tid, exec, listen, 1 + |first|), Next(o, exec, t.cpu), first)
  {
    OneInstruction(o, sites, t, tid, exec, listen);
    if t.cpu.pc in t.w.engine.bps {
      PlaceOfHit(t.w.log, tid, t.cpu.pc, listen(|t.w.log.hits|));
    } else {
      assert Places(t.w.log.hits) + [] == Places(t.w.log.hits);
    }
  }

  /** The traced program computes what the untraced one computes, the hits are exactly
      its arrivals at hooked addresses, in order, and the text is unchanged. */
  lemma {:induction false} TracingIsInvisible<R>(o: seq<byte>, sites: iset<nat>, t: Traced<R>, tid: int,
                                                 exec: (Word, Cpu<R>) -> Cpu<R>, listen: nat -> bool, n: nat)
    requires Settled(o, sites, t.w, tid) && Path(o, exec, t.cpu, t.w.engine.bps, n)
    ensures var arrivals := Arrivals(o, exec, t.cpu, t.w.engine.bps, n);
      Ran(t, MicroSteps(t, tid, exec, listen, n + |arrivals|), Native(o, exec, t.cpu, n), arrivals)
    decreases n
  {
    if n == 0 {
      assert Places(t.w.log.hits) + [] == Places(t.w.log.hits);
    } else {
      var u, first := RanFirst(o, sites, t, tid, exec, listen, n);
      TracingIsInvisible(o, sites, u, tid, exec, listen, n - 1);
      RanMore(o, t, u, tid, exec, listen, n, first);
    }
  }

  lemma RanFirst<R>(o: seq<byte>, sites: iset<nat>, t: Traced<R>, tid: int, exec: (Word, Cpu<R>) -> Cpu<R>, listen: nat -> bool, n: nat)
    returns (u: Traced<R>, first: seq<nat>)
    requires n > 0 && Settled(o, sites, t.w, tid) && Path(o, exec, t.cpu, t.w.engine.bps, n)
    ensures first == if t.cpu.pc in t.w.engine.bps then [t.cpu.pc] else []
    ensures u == MicroSteps(t, tid, exec, listen, 1 + |first|) && Ran(t, u, Next(o, exec, t.cpu), first)
    ensures Settled(o, sites, u.w, tid) && Path(o, exec, u.cpu, u.w.engine.bps, n - 1)
  {
    RanOne(o, sites, t, tid, exec, listen);
    first := if t.cpu.pc in t.w.engine.bps then [t.cpu.pc] else [];
    u := MicroSteps(t, tid, exec, listen, 1 + |first|);
    SettledStays(o, sites, t.w, u.w, tid);
  }

  lemma RanMore<R>(o: seq<byte>, t: Traced<R>, u: Traced<R>, tid: int, exec: (Word, Cpu<R>) -> Cpu<R>, listen: nat -> bool,
                   n: nat, first: seq<nat>)
    requires n > 0 && first == if t.cpu.pc in t.w.engine.bps then [t.cpu.pc] else []
    requires u == MicroSteps(t, tid, exec, listen, 1 + |first|) && Ran(t, u, Next(o, exec, t.cpu), first)
    requires var rest := Arrivals(o, exec, u.cpu, u.w.engine.bps, n - 1);
      Ran(u, MicroSteps(u, tid, exec, listen, n - 1 + |rest|), Native(o, exec, u.cpu, n - 1), rest)
    ensures var arrivals := Arrivals(o, exec, t.cpu, t.w.engine.bps, n);
      Ran(t, MicroSteps(t, tid, exec, listen, n + |arrivals|), Native(o, exec, t.cpu, n), arrivals)
  {
    var rest := Arrivals(o, exec, u.cpu, t.w.engine.bps, n - 1);
    MicroStepsAdd(t, tid, exec, listen, 1 + |first|, n - 1 + |rest|);
    assert Arrivals(o, exec, t.cpu, t.w.engine.bps, n) == first + rest;
    RanOn(t, u, MicroSteps(t, tid, exec, listen, n + |first + rest|), Native(o, exec, t.cpu, n), first, rest);
  }

  lemma SettledStays(o: seq<byte>, sites: iset<nat>, w: World, v: World, tid: int)
    requires Settled(o, sites, w, tid) && v == w.(log := v.log)
    ensures Settled(o, sites, v, tid)
  {}

  lemma RanOn<R>(t: Traced<R>, u: Traced<R>, r: Traced<R>, cpu: Cpu<R>, first: seq<nat>, rest: seq<nat>)
    requires Ran(t, u, u.cpu, first) && Ran(u, r, cpu, rest)
    ensures Ran(t, r, cpu, first + rest)
  {
    assert (Places(t.w.log.hits) + first) + rest == Places(t.w.log.hits) + (first + rest);
  }
}
