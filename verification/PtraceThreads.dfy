/** Which threads the breakpoint engine traces, and which traps it reports as hits, told by
    the events alone. */
module PtraceThreads {
  import opened Options
  import opened Ptrace
  import opened PtraceProof
  import opened PtraceTheorems

  // What an event says of a thread

  /** wait4 reports that t stopped, while the main loop runs. */
  predicate StopOf(e: Event, t: int) { e.Loop? && e.report.ReportStop? && e.report.tid == t }

  /** wait4 reports that t is gone. */
  predicate ExitOf(e: Event, t: int)
  {
    || (e.Loop? && e.report.ReportExit? && e.report.tid == t)
    || (e.Closedown? && e.last.CloseExit? && e.last.tid == t)
  }

  /** A stop that tells of a new thread t. */
  predicate CloneOf(e: Event, t: int)
  {
    e.Loop? && e.report.ReportStop? && e.report.stop == EventStop(Some(t))
  }

  ghost predicate NoStop(events: seq<Event>, t: int, from: nat, to: nat)
  {
    to <= |events| && forall k :: from <= k < to ==> !StopOf(events[k], t)
  }

  ghost predicate NoExit(events: seq<Event>, t: int, from: nat, to: nat)
  {
    to <= |events| && forall k :: from <= k < to ==> !ExitOf(events[k], t)
  }

  /** After n events t is traced: it was attached, or has made its first stop after a traced
      thread was reported to have made it; and it has not exited since. */
  ghost predicate Traced(tids: set<int>, events: seq<Event>, t: int, n: nat)
    requires n <= |events|
    decreases n
  {
    || (t in tids && NoExit(events, t, 0, n))
    || exists j: nat :: j < n && StopOf(events[j], t) && Awaited(tids, events, t, j) && NoExit(events, t, j + 1, n)
  }

  /** After n events a stop of t is awaited: a traced thread was reported to have made it, and
      no stop of it was reported since. */
  ghost predicate Awaited(tids: set<int>, events: seq<Event>, t: int, n: nat)
    requires n <= |events|
    decreases n
  {
    exists i: nat :: i < n && CloneOf(events[i], t) && Traced(tids, events, events[i].report.tid, i) && NoStop(events, t, i + 1, n)
  }

  lemma AwaitedNext(tids: set<int>, events: seq<Event>, t: int, n: nat)
    requires n < |events|
    ensures Awaited(tids, events, t, n + 1)
      <==> || (Awaited(tids, events, t, n) && !StopOf(events[n], t))
           || (CloneOf(events[n], t) && Traced(tids, events, events[n].report.tid, n))
  {
    if Awaited(tids, events, t, n + 1) {
      var i: nat :| i < n + 1 && CloneOf(events[i], t) && Traced(tids, events, events[i].report.tid, i) && NoStop(events, t, i + 1, n + 1);
      if i < n { assert NoStop(events, t, i + 1, n) && !StopOf(events[n], t); }
    }
    if Awaited(tids, events, t, n) && !StopOf(events[n], t) {
      var i: nat :| i < n && CloneOf(events[i], t) && Traced(tids, events, events[i].report.tid, i) && NoStop(events, t, i + 1, n);
      assert i < n + 1 && NoStop(events, t, i + 1, n + 1);
    }
    if CloneOf(events[n], t) && Traced(tids, events, events[n].report.tid, n) {
      assert n < n + 1 && NoStop(events, t, n + 1, n + 1);
    }
  }

  lemma TracedNext(tids: set<int>, events: seq<Event>, t: int, n: nat)
    requires n < |events|
    ensures Traced(tids, events, t, n + 1)
      <==> || (Traced(tids, events, t, n) && !ExitOf(events[n], t))
           || (StopOf(events[n], t) && Awaited(tids, events, t, n))
  {
    assert NoExit(events, t, 0, n + 1) <==> NoExit(events, t, 0, n) && !ExitOf(events[n], t);
    if j: nat :| j < n + 1 && StopOf(events[j], t) && Awaited(tids, events, t, j) && NoExit(events, t, j + 1, n + 1) {
      if j < n { assert NoExit(events, t, j + 1, n) && !ExitOf(events[n], t); }
    }
    if j: nat :| j < n && StopOf(events[j], t) && Awaited(tids, events, t, j) && NoExit(events, t, j + 1, n) {
      if !ExitOf(events[n], t) { assert j < n + 1 && NoExit(events, t, j + 1, n + 1); }
    }
    if StopOf(events[n], t) && Awaited(tids, events, t, n) {
      assert n < n + 1 && NoExit(events, t, n + 1, n + 1);
    }
  }

  // What an event does to the engine's tables

  lemma ContTables(w: World, tid: int, a: Answers)
    requires tid in w.engine.threads
    ensures var e := Cont(w, tid, a).engine; e.threads.Keys == w.engine.threads.Keys && e.pending == w.engine.pending
  {
    InstallPendingKeeps(w, tid, a);
  }

  lemma HandleTables(w: World, tid: int, pc: Option<nat>, a: Answers)
    requires tid in w.engine.threads
    ensures var e := HandleBreakpoint(w, tid, pc, a).engine;
      e.threads.Keys == w.engine.threads.Keys && e.pending == w.engine.pending
  {
    var th := w.engine.threads[tid];
    match th.stepping
    case Some(va) =>
      ContTables(SetThread(w, tid, th.(stepping := None)).(kernel := Poke(w.kernel, tid, va, BRK, a).1), tid, a);
    case None =>
      if pc.None? || pc.value !in w.engine.bps { ContTables(w, tid, a); }
  }

  lemma StopTables(w: World, tid: int, stop: Stop, a: Answers)
    ensures var e, t := w.engine, OnStop(w, tid, stop, a).engine;
      && t.threads.Keys == (if tid in e.pending then e.threads.Keys + {tid} else e.threads.Keys)
      && t.pending == if tid in e.pending then e.pending - {tid}
                      else if tid in e.threads && stop.EventStop? && stop.clone.Some? then e.pending + {stop.clone.value}
                      else e.pending
  {
    if tid in w.engine.pending {
      ContTables(w.(engine := w.engine.(pending := w.engine.pending - {tid},
                                        threads := w.engine.threads[tid := Thread(None, false)])), tid, a);
    } else if tid in w.engine.threads {
      var s := SetThread(w, tid, w.engine.threads[tid].(running := false));
      InstallPendingKeeps(s, tid, a);
      var t := InstallPending(s, tid, a);
      match stop
      case EventStop(clone) =>
        ContTables(if clone.Some? then t.(engine := t.engine.(pending := t.engine.pending + {clone.value})) else t, tid, a);
      case Trap(pc) => HandleTables(t, tid, pc, a);
      case Signal => ContTables(t, tid, a);
    }
  }

  lemma HookTables(w: World, spec: HookSpec, chosen: Option<int>, a: Answers)
    ensures var e := Install(w, spec, chosen, a).engine; e.threads == w.engine.threads && e.pending == w.engine.pending
  {}

  lemma LastTables(s: System, l: Last)
    requires CanLast(s, l)
    ensures var e, t := s.world.engine, ApplyLast(s, l).world.engine;
      && t.threads.Keys == (if l.CloseExit? then e.threads.Keys - {l.tid} else e.threads.Keys) && t.pending == e.pending
  {
    if l.Restore? && l.chosen.Some? { RemoveAllKeeps(s.world, l.chosen.value, l.vas, l.a); }
  }

  /** The tables after an event, thread by thread. */
  lemma EventTables(s: System, e: Event, t: int)
    requires Enabled(s, e) && s.world.engine.pending !! s.world.engine.threads.Keys
    ensures var g, h := s.world.engine, Apply(s, e).world.engine;
      && (t in h.threads <==> (t in g.threads && !ExitOf(e, t)) || (StopOf(e, t) && t in g.pending))
      && (t in h.pending <==> (t in g.pending && !StopOf(e, t)) || (CloneOf(e, t) && e.report.tid in g.threads))
  {
    match e
    case Outside(_) =>
    case Loop(ReportExit(_)) =>
    case Loop(ReportStop(tid, stop, a)) =>
      var w := s.world.(kernel := Reported(s.world.kernel, tid));
      StopTables(w, tid, stop, a);
      assert t in OnStop(w, tid, stop, a).engine.threads <==> t in OnStop(w, tid, stop, a).engine.threads.Keys;
    case Loop(HookCommand(spec, chosen, a)) => HookTables(s.world, spec, chosen, a);
    case Loop(WaitFails) =>
    case Closedown(l) =>
      LastTables(s, l);
      assert t in ApplyLast(s, l).world.engine.threads <==> t in ApplyLast(s, l).world.engine.threads.Keys;
  }

  /** In every run the engine's threads are exactly those that were attached or cloned and
      have stopped, and have not exited; its pending threads are those that were cloned and
      have not stopped. */
  lemma {:induction false} ThreadsExact(o: seq<byte>, tids: set<int>, sites: iset<nat>, run: seq<System>, events: seq<Event>, n: nat, t: int)
    requires IsRun(o, tids, run, events) && RunWithin(events, sites) && n < |run|
    ensures t in run[n].world.engine.threads <==> Traced(tids, events, t, n)
    ensures t in run[n].world.engine.pending <==> Awaited(tids, events, t, n)
    decreases n
  {
    if n > 0 {
      ThreadsExact(o, tids, sites, run, events, n - 1, t);
      RunOk(o, tids, sites, run, events, n - 1);
      if CloneOf(events[n - 1], t) { ThreadsExact(o, tids, sites, run, events, n - 1, events[n - 1].report.tid); }
      ThreadsNext(tids, run, events, n - 1, t);
    }
  }

  lemma ThreadsNext(tids: set<int>, run: seq<System>, events: seq<Event>, n: nat, t: int)
    requires n < |events| && n + 1 < |run| && Enabled(run[n], events[n]) && run[n + 1] == Apply(run[n], events[n])
    requires var g := run[n].world.engine;
      && g.pending !! g.threads.Keys
      && (t in g.threads <==> Traced(tids, events, t, n)) && (t in g.pending <==> Awaited(tids, events, t, n))
      && (CloneOf(events[n], t) ==> (events[n].report.tid in g.threads <==> Traced(tids, events, events[n].report.tid, n)))
    ensures t in run[n + 1].world.engine.threads <==> Traced(tids, events, t, n + 1)
    ensures t in run[n + 1].world.engine.pending <==> Awaited(tids, events, t, n + 1)
  {
    TracedNext(tids, events, t, n);
    AwaitedNext(tids, events, t, n);
    EventTables(run[n], events[n], t);
  }

  /** So a thread that a traced thread makes is pending up to its first reported stop, and is
      traced from then on until its exit. */
  lemma ClonesAreTraced(o: seq<byte>, tids: set<int>, sites: iset<nat>, run: seq<System>, events: seq<Event>,
                        i: nat, j: nat, n: nat, t: int)
    requires IsRun(o, tids, run, events) && RunWithin(events, sites) && i < j < |events|
    requires CloneOf(events[i], t) && events[i].report.tid in run[i].world.engine.threads
    requires NoStop(events, t, i + 1, j) && StopOf(events[j], t)
    requires j < n < |run| && NoExit(events, t, j + 1, n)
    ensures forall k :: i < k <= j ==> t in run[k].world.engine.pending && t !in run[k].world.engine.threads
    ensures t in run[n].world.engine.threads && t !in run[j + 1].world.engine.pending
  {
    ThreadsExact(o, tids, sites, run, events, i, events[i].report.tid);
    forall k | i < k <= j
      ensures t in run[k].world.engine.pending && t !in run[k].world.engine.threads
    {
      assert NoStop(events, t, i + 1, k);
      assert Awaited(tids, events, t, k);
      ThreadsExact(o, tids, sites, run, events, k, t);
      RunOk(o, tids, sites, run, events, k);
    }
    assert Awaited(tids, events, t, j) by { ThreadsExact(o, tids, sites, run, events, j, t); }
    ThreadsExact(o, tids, sites, run, events, n, t);
    RunOk(o, tids, sites, run, events, j);
    EventTables(run[j], events[j], t);
  }

  // Which traps are hits

  /** What a stop does to the log and to the step that a thread is on. */
  lemma ContLog(w: World, tid: int, a: Answers)
    requires tid in w.engine.threads
    ensures var c := Cont(w, tid, a);
      && c.log == w.log && c.engine.threads[tid].stepping == w.engine.threads[tid].stepping
      && forall x :: x != tid && x in w.engine.threads ==> c.engine.threads[x] == w.engine.threads[x]
  {
    InstallPendingKeeps(w, tid, a);
  }

  /** With nothing pending, continuing a thread installs nothing. */
  lemma ContNothing(w: World, tid: int, a: Answers)
    requires tid in w.engine.threads && w.engine.pendingSpecs == []
    ensures Cont(w, tid, a).engine.bps == w.engine.bps
  {}

  lemma HandleLog(w: World, tid: int, pc: Option<nat>, a: Answers)
    requires tid in w.engine.threads && w.engine.pendingSpecs == []
    ensures var h := HandleBreakpoint(w, tid, pc, a);
      var hit := w.engine.threads[tid].stepping == None && pc.Some? && pc.value in h.engine.bps;
      && h.engine.bps == w.engine.bps
      && h.log.hits == (if hit then w.log.hits + [Hit(tid, pc.value, a.listening)] else w.log.hits)
      && tid in h.engine.threads && h.engine.threads[tid].stepping == (if hit then pc else None)
      && forall x :: x != tid && x in w.engine.threads ==> x in h.engine.threads && h.engine.threads[x] == w.engine.threads[x]
  {
    var th := w.engine.threads[tid];
    match th.stepping
    case Some(va) =>
      var s := SetThread(w, tid, th.(stepping := None)).(kernel := Poke(w.kernel, tid, va, BRK, a).1);
      ContLog(s, tid, a);
      ContNothing(s, tid, a);
    case None =>
      if pc.None? || pc.value !in w.engine.bps {
        ContLog(w, tid, a);
        ContNothing(w, tid, a);
      }
  }

  lemma StopLog(w: World, tid: int, stop: Stop, a: Answers)
    requires w.engine.pending !! w.engine.threads.Keys
    ensures var e, h := w.engine, OnStop(w, tid, stop, a);
      var traced := tid in e.threads;
      var hit := traced && stop.Trap? && e.threads[tid].stepping == None && stop.pc.Some? && stop.pc.value in h.engine.bps;
      && h.log.hits == (if hit then w.log.hits + [Hit(tid, stop.pc.value, a.listening)] else w.log.hits)
      && (traced ==> tid in h.engine.threads && h.engine.threads[tid].stepping
                     == if stop.Trap? then (if hit then stop.pc else None) else e.threads[tid].stepping)
      && (tid in e.pending ==> tid in h.engine.threads && h.engine.threads[tid].stepping == None)
      && forall x :: x != tid && x in e.threads ==> x in h.engine.threads && h.engine.threads[x] == e.threads[x]
  {
    if tid in w.engine.pending {
      ContLog(w.(engine := w.engine.(pending := w.engine.pending - {tid},
                                     threads := w.engine.threads[tid := Thread(None, false)])), tid, a);
    } else if tid in w.engine.threads {
      var s := SetThread(w, tid, w.engine.threads[tid].(running := false));
      InstallPendingKeeps(s, tid, a);
      var t := InstallPending(s, tid, a);
      match stop
      case EventStop(clone) =>
        ContLog(if clone.Some? then t.(engine := t.engine.(pending := t.engine.pending + {clone.value})) else t, tid, a);
      case Trap(pc) => HandleLog(t, tid, pc, a);
      case Signal => ContLog(t, tid, a);
    }
  }

  /** What any event does to the log. */
  lemma EventLog(s: System, e: Event, t: int)
    requires Enabled(s, e) && s.world.engine.pending !! s.world.engine.threads.Keys
    ensures var g, h := s.world, Apply(s, e).world;
      if AddsHit(g.engine, h.engine, e) then h.log.hits == g.log.hits + [HitIn(e)] else h.log.hits == g.log.hits
  {
    match e
    case Outside(_) =>
    case Loop(ReportStop(tid, stop, a)) => StopLog(s.world.(kernel := Reported(s.world.kernel, tid)), tid, stop, a);
    case Loop(_) =>
    case Closedown(l) => if l.Restore? && l.chosen.Some? { RemoveAllKeeps(s.world, l.chosen.value, l.vas, l.a); }
  }

  /** A trap with a program counter. */
  predicate TrapAt(e: Event) { e.Loop? && e.report.ReportStop? && e.report.stop.Trap? && e.report.stop.pc.Some? }

  /** A trap, at an installed breakpoint, of a traced thread that is not on a step. */
  predicate AddsHit(before: Engine, after: Engine, e: Event)
  {
    && TrapAt(e) && e.report.tid in before.threads && before.threads[e.report.tid].stepping == None
    && e.report.stop.pc.value in after.bps
  }

  function HitIn(e: Event): Hit
    requires TrapAt(e)
  {
    Hit(e.report.tid, e.report.stop.pc.value, e.report.a.listening)
  }

  /** The hits that n events add. */
  ghost function AllHits(run: seq<System>, events: seq<Event>, n: nat): seq<Hit>
    requires n <= |events| && n < |run|
    decreases n
  {
    if n == 0 then []
    else
      AllHits(run, events, n - 1)
      + if AddsHit(run[n - 1].world.engine, run[n].world.engine, events[n - 1]) then [HitIn(events[n - 1])] else []
  }

  /** In every run the hits are complete: each trap at a breakpoint, of a traced thread that
      is not on a step, is one, in order, and nothing else is. */
  lemma {:induction false} HitsComplete(o: seq<byte>, tids: set<int>, sites: iset<nat>, run: seq<System>, events: seq<Event>, n: nat)
    requires IsRun(o, tids, run, events) && RunWithin(events, sites) && n < |run|
    ensures run[n].world.log.hits == AllHits(run, events, n)
  {
    if n > 0 {
      HitsComplete(o, tids, sites, run, events, n - 1);
      RunOk(o, tids, sites, run, events, n - 1);
      EventLog(run[n - 1], events[n - 1], 0);
      assert AllHits(run, events, n - 1) + [] == AllHits(run, events, n - 1);
    }
  }

  // Which threads are on a step

  /** The event is a plain SIGTRAP of t. */
  predicate TrapOf(e: Event, t: int) { StopOf(e, t) && e.report.stop.Trap? }

  /** The n-th event is a hit of t at va. */
  ghost predicate IsHit(run: seq<System>, events: seq<Event>, n: nat, t: int, va: nat)
    requires n < |events| && n + 1 < |run|
  {
    AddsHit(run[n].world.engine, run[n + 1].world.engine, events[n]) && HitIn(events[n]).tid == t && HitIn(events[n]).va == va
  }

  /** t hit the breakpoint at va, and neither trapped again nor exited since. */
  ghost predicate OnStepSince(run: seq<System>, events: seq<Event>, t: int, va: nat, n: nat)
    requires n <= |events| && |run| == |events| + 1
  {
    exists j: nat :: j < n && IsHit(run, events, j, t, va) && NoTrap(events, t, j + 1, n) && NoExit(events, t, j + 1, n)
  }

  ghost predicate NoTrap(events: seq<Event>, t: int, from: nat, to: nat)
  {
    to <= |events| && forall k :: from <= k < to ==> !TrapOf(events[k], t)
  }

  lemma OnStepNext(run: seq<System>, events: seq<Event>, t: int, va: nat, n: nat)
    requires n < |events| && |run| == |events| + 1
    ensures OnStepSince(run, events, t, va, n + 1)
      <==> || IsHit(run, events, n, t, va)
           || (OnStepSince(run, events, t, va, n) && !TrapOf(events[n], t) && !ExitOf(events[n], t))
  {
    if OnStepSince(run, events, t, va, n + 1) {
      var j: nat :| j < n + 1 && IsHit(run, events, j, t, va) && NoTrap(events, t, j + 1, n + 1) && NoExit(events, t, j + 1, n + 1);
      if j < n { QuietNext(events, t, j + 1, n); }
    }
    if OnStepSince(run, events, t, va, n) && !TrapOf(events[n], t) && !ExitOf(events[n], t) {
      OnStepLonger(run, events, t, va, n);
    }
    if IsHit(run, events, n, t, va) {
      assert n < n + 1 && NoTrap(events, t, n + 1, n + 1) && NoExit(events, t, n + 1, n + 1);
    }
  }

  lemma QuietNext(events: seq<Event>, t: int, from: nat, n: nat)
    requires from <= n < |events|
    ensures NoTrap(events, t, from, n + 1) && NoExit(events, t, from, n + 1)
      <==> NoTrap(events, t, from, n) && NoExit(events, t, from, n) && !TrapOf(events[n], t) && !ExitOf(events[n], t)
  {}

  lemma OnStepLonger(run: seq<System>, events: seq<Event>, t: int, va: nat, n: nat)
    requires n < |events| && |run| == |events| + 1
    requires OnStepSince(run, events, t, va, n) && !TrapOf(events[n], t) && !ExitOf(events[n], t)
    ensures OnStepSince(run, events, t, va, n + 1)
  {
    var j: nat :| j < n && IsHit(run, events, j, t, va) && NoTrap(events, t, j + 1, n) && NoExit(events, t, j + 1, n);
    QuietNext(events, t, j + 1, n);
    assert j < n + 1;
  }

  predicate SteppingOver(e: Engine, t: int, va: nat) { t in e.threads && e.threads[t].stepping == Some(va) }

  lemma EventStepping(s: System, e: Event, t: int, va: nat)
    requires Enabled(s, e) && s.world.engine.pending !! s.world.engine.threads.Keys
    ensures var g, h := s.world.engine, Apply(s, e).world.engine;
      SteppingOver(h, t, va)
      <==> || (AddsHit(g, h, e) && HitIn(e).tid == t && HitIn(e).va == va)
           || (SteppingOver(g, t, va) && !TrapOf(e, t) && !ExitOf(e, t))
  {
    EventTables(s, e, t);
    match e
    case Outside(_) =>
    case Loop(ReportStop(tid, stop, a)) => StopLog(s.world.(kernel := Reported(s.world.kernel, tid)), tid, stop, a);
    case Loop(_) =>
    case Closedown(l) => if l.Restore? && l.chosen.Some? { RemoveAllKeeps(s.world, l.chosen.value, l.vas, l.a); }
  }

  /** The engine takes a thread for stepping over va exactly if its last plain trap was a hit
      there. */
  lemma {:induction false} SteppingExact(o: seq<byte>, tids: set<int>, sites: iset<nat>, run: seq<System>, events: seq<Event>,
                                         n: nat, t: int, va: nat)
    requires IsRun(o, tids, run, events) && RunWithin(events, sites) && n < |run|
    ensures SteppingOver(run[n].world.engine, t, va) <==> OnStepSince(run, events, t, va, n)
  {
    if n > 0 {
      SteppingExact(o, tids, sites, run, events, n - 1, t, va);
      RunOk(o, tids, sites, run, events, n - 1);
      OnStepNext(run, events, t, va, n - 1);
      EventStepping(run[n - 1], events[n - 1], t, va);
    }
  }

  // A thread that is made while the engine runs

  /** One hook is in, and thread 7 runs. */
  lemma HookedRun(o: seq<byte>) returns (run: seq<System>, events: seq<Event>)
    requires |o| == 8
    ensures IsRun(o, {7}, run, events) && RunWithin(events, iset{0, 4}) && Hooked(o, {7}, run[|run| - 1])
    ensures run[|run| - 1].world.log.hits == []
  {
    var a := AllAnswers();
    run, events := [Init(o, {7})], [];
    AskedAndHalted(o, {7}, a);
    run, events := RunGrows(o, {7}, iset{0, 4}, run, events, HookAndHit(a)[0]);
    run, events := RunGrows(o, {7}, iset{0, 4}, run, events, HookAndHit(a)[1]);
    OneHookStop(o, {7}, run[|run| - 1], a);
    run, events := RunGrows(o, {7}, iset{0, 4}, run, events, HookAndHit(a)[2]);
    HitsComplete(o, {7}, iset{0, 4}, run, events, 3);
    assert AllHits(run, events, 3) == AllHits(run, events, 2) + [] == AllHits(run, events, 1) + [] + [] == [];
  }

  /** Thread 7 makes thread 8, whose first stop is not reported yet. */
  ghost predicate Cloned(s: System)
  {
    && s.phase.Tracing? && s.world.kernel.status == map[7 := Running, 8 := Waiting(false)]
    && s.world.engine.threads == map[7 := Thread(None, true)] && s.world.engine.pending == {8}
    && s.world.engine.pendingSpecs == [] && 0 in s.world.engine.bps && s.world.log.hits == []
    && |s.world.kernel.text| == 8
  }

  lemma CloneStop(s: System, a: Answers)
    requires s.phase.Tracing? && s.world.kernel.status == map[7 := Waiting(false)] && |s.world.kernel.text| == 8
    requires s.world.engine.threads == map[7 := Thread(None, true)] && s.world.engine.pending == {}
    requires s.world.engine.pendingSpecs == [] && 0 in s.world.engine.bps && s.world.log.hits == []
    ensures Enabled(s, Loop(ReportStop(7, EventStop(Some(8)), a)))
    ensures var t := Apply(s, Loop(ReportStop(7, EventStop(Some(8)), a)));
      Enabled(t, Outside(Appear(8, true))) && Cloned(Apply(t, Outside(Appear(8, true))))
  {
    var r := SetThread(s.world.(kernel := Reported(s.world.kernel, 7)), 7, Thread(None, false));
    NoMorePending(r, a);
    var u := r.(engine := r.engine.(pending := {8}));
    NoMorePending(u, a);
  }

  /** Its first stop, and then a trap at the hook. */
  lemma CloneHits(s: System, a: Answers)
    requires Cloned(s) && a.listening
    ensures Enabled(s, Loop(ReportStop(8, EventStop(None), a)))
    ensures var t := Apply(s, Loop(ReportStop(8, EventStop(None), a)));
      && t.world.engine.threads == map[7 := Thread(None, true), 8 := Thread(None, true)] && t.world.engine.pending == {}
      && Enabled(t, Outside(Halt(8)))
      && var u := Apply(t, Outside(Halt(8)));
      && Enabled(u, Loop(ReportStop(8, Trap(Some(0)), a)))
      && Apply(u, Loop(ReportStop(8, Trap(Some(0)), a))).world.log.hits == [Hit(8, 0, true)]
  {
    var e := s.world.engine;
    var r := s.world.(kernel := Reported(s.world.kernel, 8), engine := e.(pending := {}, threads := e.threads[8 := Thread(None, false)]));
    NoMorePending(r, a);
    var u := Apply(Apply(s, Loop(ReportStop(8, EventStop(None), a))), Outside(Halt(8)));
    var v := SetThread(u.world.(kernel := Reported(u.world.kernel, 8)), 8, Thread(None, false));
    NoMorePending(v, a);
  }

  /** A run in which a thread that was made while the engine runs becomes a traced one at its
      first stop, and its trap at a hook is a hit. */
  lemma CloneIsTraced(o: seq<byte>) returns (run: seq<System>, events: seq<Event>)
    requires |o| == 8
    ensures IsRun(o, {7}, run, events) && RunWithin(events, iset{0, 4})
    ensures run[|run| - 1].world.log.hits == [Hit(8, 0, true)]
  {
    var a := AllAnswers();
    run, events := HookedRun(o);
    run, events := RunGrows(o, {7}, iset{0, 4}, run, events, Outside(Halt(7)));
    CloneStop(run[|run| - 1], a);
    run, events := RunGrows(o, {7}, iset{0, 4}, run, events, Loop(ReportStop(7, EventStop(Some(8)), a)));
    run, events := RunGrows(o, {7}, iset{0, 4}, run, events, Outside(Appear(8, true)));
    CloneHits(run[|run| - 1], a);
    run, events := RunGrows(o, {7}, iset{0, 4}, run, events, Loop(ReportStop(8, EventStop(None), a)));
    run, events := RunGrows(o, {7}, iset{0, 4}, run, events, Outside(Halt(8)));
    run, events := RunGrows(o, {7}, iset{0, 4}, run, events, Loop(ReportStop(8, Trap(Some(0)), a)));
  }

  /** A new thread is stopped when it appears, or it already runs. */
  lemma AppearsEitherWay(k: Kernel, e: Engine, tid: int, halted: bool)
    requires tid !in k.status && tid !in e.threads
    ensures CanChange(k, e, Appear(tid, halted))
    ensures ApplyChange(k, Appear(tid, halted)).status[tid] == if halted then Waiting(false) else Running
  {}

  // The two ways to end

  /** An error of wait4 ends tracing at once: there is no cleanup, and every hook stays in the
      text of the program. */
  lemma FailureSkipsCleanup(o: seq<byte>) returns (run: seq<System>, events: seq<Event>)
    requires |o| == 8
    ensures IsRun(o, {7}, run, events) && RunWithin(events, iset{0, 4})
    ensures run[|run| - 1].phase.Failed? && run[|run| - 1].world.kernel.text == BRK + o[4..]
    ensures forall l :: !Enabled(run[|run| - 1], Closedown(l))
  {
    run, events := HookedRun(o);
    run, events := RunGrows(o, {7}, iset{0, 4}, run, events, Loop(WaitFails));
    assert Store(o, 0, BRK) == BRK + o[4..];
  }

  /** A thread that exits during the cleanup is forgotten, and cannot be picked. */
  lemma ExitDuringClose(s: System, tid: int)
    requires s.phase.Closing? && tid !in s.world.kernel.status
    ensures Enabled(s, Closedown(CloseExit(tid)))
    ensures var t := Apply(s, Closedown(CloseExit(tid))); t.phase.Closing? && !ChoiceOk(t.world.engine, Some(tid))
    ensures s.world.engine.threads != map[] && (forall t :: t in s.world.engine.threads ==> t == tid) ==>
      ChoiceOk(Apply(s, Closedown(CloseExit(tid))).world.engine, None)
  {}
}
