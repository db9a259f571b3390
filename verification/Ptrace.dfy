/** The breakpoint engine: what it knows, what the kernel does, and the steps of both. */
module Ptrace {
  import opened Options

  type byte = x: int | 0 <= x < 256

  const INSTRUCTION_SIZE := 4

  type Word = w: seq<byte> | |w| == INSTRUCTION_SIZE witness [0, 0, 0, 0]

  const BRK: Word := [0x00, 0x00, 0x20, 0xD4] // brk #0

  datatype HookSpec = HookSpec(path: string, offset: nat)

  /** stepping is the address of the breakpoint that the thread steps over. */
  datatype Thread = Thread(stepping: Option<nat>, running: bool)

  datatype Breakpoint = Breakpoint(orig: Word, spec: HookSpec)

  /** What the kernel knows of a thread: running freely, running for one instruction,
      stopped with the stop not reported yet, after a step or not, or stopped and
      reported. */
  datatype Status = Running | Stepping | Waiting(stepped: bool) | Stopped

  datatype Kernel = Kernel(text: seq<byte>, status: map<int, Status>)

  /** The fields of Process that its goroutine owns. */
  datatype Engine = Engine(threads: map<int, Thread>, pending: set<int>, bps: map<nat, Breakpoint>,
                           pendingSpecs: seq<HookSpec>)

  datatype Hit = Hit(tid: int, va: nat, delivered: bool)

  /** The hits so far, those that the consumer got, and how many were dropped. */
  datatype Log = Log(hits: seq<Hit>, yielded: seq<Hit>, dropped: nat)

  datatype World = World(engine: Engine, kernel: Kernel, log: Log)

  /** What the environment answers during one event: which memory accesses succeed,
      where a hook lies, and whether the consumer waits for an event. */
  datatype Answers = Answers(peek: nat -> bool, poke: nat -> bool, resolve: HookSpec -> Option<nat>, listening: bool)

  // Memory accesses through a thread. The kernel refuses them unless the thread is stopped.

  predicate InStop(k: Kernel, tid: int)
  {
    tid in k.status && (k.status[tid].Waiting? || k.status[tid].Stopped?)
  }

  predicate Mapped(k: Kernel, va: nat) { va + INSTRUCTION_SIZE <= |k.text| }

  function Fetch(text: seq<byte>, va: nat): Word
    requires va + INSTRUCTION_SIZE <= |text|
  {
    text[va..va + INSTRUCTION_SIZE]
  }

  function Store(text: seq<byte>, va: nat, word: Word): (t: seq<byte>)
    requires va + INSTRUCTION_SIZE <= |text|
    ensures |t| == |text|
  {
    text[..va] + word + text[va + INSTRUCTION_SIZE..]
  }

  function Peek(k: Kernel, tid: int, va: nat, a: Answers): Option<Word>
  {
    if InStop(k, tid) && Mapped(k, va) && a.peek(va) then Some(Fetch(k.text, va)) else None
  }

  function Poke(k: Kernel, tid: int, va: nat, word: Word, a: Answers): (bool, Kernel)
  {
    if InStop(k, tid) && Mapped(k, va) && a.poke(va) then (true, k.(text := Store(k.text, va, word))) else (false, k)
  }

  /** PTRACE_CONT and PTRACE_SINGLESTEP; both are refused unless the thread is stopped. */
  function Resume(k: Kernel, tid: int, how: Status): Kernel
  {
    if InStop(k, tid) then k.(status := k.status[tid := how]) else k
  }

  // The engine's own functions

  function InstallThread(w: World, tid: int, spec: HookSpec, a: Answers): World
  {
    match a.resolve(spec)
    case None => w
    case Some(va) =>
      if va in w.engine.bps then w
      else
        match Peek(w.kernel, tid, va, a)
        case None => w
        case Some(orig) =>
          var (ok, k) := Poke(w.kernel, tid, va, BRK, a);
          if !ok then w
          else w.(kernel := k, engine := w.engine.(bps := w.engine.bps[va := Breakpoint(orig, spec)]))
  }

  function InstallAll(w: World, tid: int, specs: seq<HookSpec>, a: Answers): World
  {
    if |specs| == 0 then w
    else InstallThread(InstallAll(w, tid, specs[..|specs| - 1], a), tid, specs[|specs| - 1], a)
  }

  function InstallPending(w: World, tid: int, a: Answers): World
  {
    var t := InstallAll(w, tid, w.engine.pendingSpecs, a);
    t.(engine := t.engine.(pendingSpecs := []))
  }

  function Cont(w: World, tid: int, a: Answers): World
    requires tid in w.engine.threads
    ensures Cont(w, tid, a).engine.threads == w.engine.threads[tid := w.engine.threads[tid].(running := true)]
  {
    InstallPendingKeeps(w, tid, a);
    var t := InstallPending(w, tid, a);
    t.(engine := t.engine.(threads := t.engine.threads[tid := t.engine.threads[tid].(running := true)]),
       kernel := Resume(t.kernel, tid, Running))
  }

  /** Installing hooks touches the text and the breakpoints only. */
  lemma {:induction false} InstallAllKeeps(w: World, tid: int, specs: seq<HookSpec>, a: Answers)
    ensures var t := InstallAll(w, tid, specs, a);
      && t.log == w.log && t.kernel.status == w.kernel.status && |t.kernel.text| == |w.kernel.text|
      && t.engine == w.engine.(bps := t.engine.bps)
  {
    if |specs| > 0 { InstallAllKeeps(w, tid, specs[..|specs| - 1], a); }
  }

  lemma InstallPendingKeeps(w: World, tid: int, a: Answers)
    ensures var t := InstallPending(w, tid, a);
      && t.log == w.log && t.kernel.status == w.kernel.status && |t.kernel.text| == |w.kernel.text|
      && t.engine == w.engine.(bps := t.engine.bps, pendingSpecs := [])
  {
    InstallAllKeeps(w, tid, w.engine.pendingSpecs, a);
  }

  /** install: through a thread that the engine takes for stopped if there is one, and
      otherwise once some thread has been interrupted. */
  function Install(w: World, spec: HookSpec, chosen: Option<int>, a: Answers): World
  {
    match chosen
    case Some(tid) => InstallThread(w, tid, spec, a)
    case None => w.(engine := w.engine.(pendingSpecs := w.engine.pendingSpecs + [spec]))
  }

  predicate ChoiceOk(e: Engine, chosen: Option<int>)
  {
    match chosen
    case Some(tid) => tid in e.threads && !e.threads[tid].running
    case None => forall tid :: tid in e.threads ==> e.threads[tid].running
  }

  function Emit(g: Log, tid: int, va: nat, listening: bool): Log
  {
    var hit := Hit(tid, va, listening);
    Log(g.hits + [hit], if listening then g.yielded + [hit] else g.yielded,
        if listening then g.dropped else g.dropped + 1)
  }

  function SetThread(w: World, tid: int, th: Thread): World
  {
    w.(engine := w.engine.(threads := w.engine.threads[tid := th]))
  }

  /** pc is None when the registers cannot be read. */
  function HandleBreakpoint(w: World, tid: int, pc: Option<nat>, a: Answers): World
    requires tid in w.engine.threads
  {
    var th := w.engine.threads[tid];
    match th.stepping
    case Some(va) =>
      var (_, k) := Poke(w.kernel, tid, va, BRK, a);
      Cont(SetThread(w, tid, th.(stepping := None)).(kernel := k), tid, a)
    case None =>
      if pc.None? then Cont(w, tid, a)
      else if pc.value !in w.engine.bps then Cont(w, tid, a) // passes SIGTRAP on
      else
        var bp := w.engine.bps[pc.value];
        var (_, k) := Poke(w.kernel, tid, pc.value, bp.orig, a);
        SetThread(w, tid, th.(stepping := Some(pc.value))).(
          kernel := Resume(k, tid, Stepping), log := Emit(w.log, tid, pc.value, a.listening))
  }

  /** Why a thread stopped: a ptrace event, with the thread that a clone made; a plain
      SIGTRAP, with the program counter; or another signal. */
  datatype Stop = EventStop(clone: Option<int>) | Trap(pc: Option<nat>) | Signal

  /** The body of run's loop after wait4 reported the stop of a thread. */
  function OnStop(w: World, tid: int, stop: Stop, a: Answers): World
  {
    if tid in w.engine.pending then
      Cont(w.(engine := w.engine.(pending := w.engine.pending - {tid},
                                  threads := w.engine.threads[tid := Thread(None, false)])), tid, a)
    else if tid !in w.engine.threads then
      w.(kernel := Resume(w.kernel, tid, Running)) // not our thread
    else
      var s := SetThread(w, tid, w.engine.threads[tid].(running := false));
      InstallPendingKeeps(s, tid, a);
      var t := InstallPending(s, tid, a);
      match stop
      case EventStop(clone) =>
        var u := if clone.Some? then t.(engine := t.engine.(pending := t.engine.pending + {clone.value})) else t;
        Cont(u, tid, a)
      case Trap(pc) => HandleBreakpoint(t, tid, pc, a)
      case Signal => Cont(t, tid, a)
  }

  function Forget(w: World, tid: int): World
  {
    w.(engine := w.engine.(threads := w.engine.threads - {tid}))
  }

  /** The restoring loop of the cleanup, over the breakpoints in the order given. */
  function RemoveAll(w: World, tid: int, vas: seq<nat>, a: Answers): World
  {
    if |vas| == 0 then w
    else
      var t := RemoveAll(w, tid, vas[..|vas| - 1], a);
      var va := vas[|vas| - 1];
      if va in t.engine.bps then
        t.(kernel := Poke(t.kernel, tid, va, t.engine.bps[va].orig, a).1)
      else t
  }

  // The system: the engine, the kernel, and the program it traces

  /** Tracing is the main loop, Closing the wait for the threads to stop; Failed is the
      return after wait4 failed, which skips the cleanup. */
  datatype Phase = Tracing | Closing | Detached | Failed

  datatype System = System(world: World, phase: Phase)

  datatype Event =
    | Outside(change: Change)
    | Loop(report: Report)
    | Closedown(last: Last)

  /** What the kernel does to threads on its own: a running one stops, a new one
      appears, one is gone. */
  datatype Change = Halt(tid: int) | Appear(tid: int, halted: bool) | Vanish(tid: int)

  /** One pass of the main loop. */
  datatype Report =
    | ReportExit(tid: int)
    | ReportStop(tid: int, stop: Stop, a: Answers)
    | HookCommand(spec: HookSpec, chosen: Option<int>, a: Answers)
    | WaitFails

  /** Close and the cleanup; vas is the order in which the loop visits the breakpoints. */
  datatype Last =
    | BeginClose
    | CloseExit(tid: int)
    | CloseStop(tid: int)
    | Restore(chosen: Option<int>, vas: seq<nat>, a: Answers)

  predicate CanChange(k: Kernel, e: Engine, c: Change)
  {
    match c
    case Halt(tid) => tid in k.status && (k.status[tid].Running? || k.status[tid].Stepping?)
    case Appear(tid, _) => tid !in k.status && tid !in e.threads
    case Vanish(tid) => tid in k.status
  }

  function ApplyChange(k: Kernel, c: Change): Kernel
  {
    match c
    case Halt(tid) => k.(status := k.status[tid := Waiting(tid in k.status && k.status[tid].Stepping?)])
    case Appear(tid, halted) => k.(status := k.status[tid := if halted then Waiting(false) else Running])
    case Vanish(tid) => k.(status := k.status - {tid})
  }

  predicate CanReport(w: World, r: Report)
  {
    match r
    case ReportExit(tid) => tid !in w.kernel.status
    case ReportStop(tid, stop, _) =>
      && tid in w.kernel.status && w.kernel.status[tid].Waiting?
      && (stop.EventStop? && stop.clone.Some? ==> stop.clone.value !in w.engine.threads)
    case HookCommand(_, chosen, _) => ChoiceOk(w.engine, chosen)
    case WaitFails => true
  }

  function Reported(k: Kernel, tid: int): Kernel { k.(status := k.status[tid := Stopped]) }

  function ApplyReport(w: World, r: Report): World
  {
    match r
    case ReportExit(tid) => Forget(w, tid)
    case ReportStop(tid, stop, a) => OnStop(w.(kernel := Reported(w.kernel, tid)), tid, stop, a)
    case HookCommand(spec, chosen, a) => Install(w, spec, chosen, a)
    case WaitFails => w
  }

  predicate CanLast(s: System, l: Last)
  {
    match l
    case BeginClose => s.phase.Tracing?
    case CloseExit(tid) => s.phase.Closing? && tid !in s.world.kernel.status
    case CloseStop(tid) => s.phase.Closing? && tid in s.world.kernel.status && s.world.kernel.status[tid].Waiting?
    case Restore(chosen, vas, _) => s.phase.Closing? && ChoiceOk(s.world.engine, chosen) && Visits(s.world.engine.bps, vas)
  }

  predicate Visits(bps: map<nat, Breakpoint>, vas: seq<nat>)
  {
    (forall i :: 0 <= i < |vas| ==> vas[i] in bps) && (forall va :: va in bps ==> va in vas)
  }

  function ApplyLast(s: System, l: Last): System
  {
    match l
    case BeginClose => s.(phase := Closing)
    case CloseExit(tid) => s.(world := Forget(s.world, tid))
    case CloseStop(tid) =>
      var w := s.world.(kernel := Reported(s.world.kernel, tid));
      s.(world := if tid in w.engine.threads then SetThread(w, tid, w.engine.threads[tid].(running := false)) else w)
    case Restore(chosen, vas, a) =>
      System(if chosen.Some? then RemoveAll(s.world, chosen.value, vas, a) else s.world, Detached)
  }

  predicate Enabled(s: System, e: Event)
  {
    match e
    case Outside(c) => CanChange(s.world.kernel, s.world.engine, c)
    case Loop(r) => s.phase.Tracing? && CanReport(s.world, r)
    case Closedown(l) => CanLast(s, l)
  }

  function Apply(s: System, e: Event): System
    requires Enabled(s, e)
  {
    match e
    case Outside(c) => s.(world := s.world.(kernel := ApplyChange(s.world.kernel, c)))
    case Loop(r) => System(ApplyReport(s.world, r), if r.WaitFails? then Failed else Tracing)
    case Closedown(l) => ApplyLast(s, l)
  }

  /** Attach has seized the threads of the process, which run. */
  function Init(text: seq<byte>, tids: set<int>): System
  {
    System(World(Engine(map t | t in tids :: Thread(None, true), {}, map[], []),
                 Kernel(text, map t | t in tids :: Running),
                 Log([], [], 0)), Tracing)
  }

  ghost predicate IsRun(text: seq<byte>, tids: set<int>, run: seq<System>, events: seq<Event>)
  {
    && |run| == |events| + 1 && run[0] == Init(text, tids)
    && forall i :: 0 <= i < |events| ==> Enabled(run[i], events[i]) && run[i + 1] == Apply(run[i], events[i])
  }
}
