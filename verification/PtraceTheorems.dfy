/** The properties of the breakpoint engine, over all of its runs. */
module PtraceTheorems {
  import opened Options
  import opened Ptrace
  import opened PtraceProof

  /** The hooks of every event resolve into the given places. */
  ghost predicate EventWithin(e: Event, sites: iset<nat>)
  {
    && (e.Loop? && e.report.ReportStop? ==> Within(e.report.a, sites))
    && (e.Loop? && e.report.HookCommand? ==> Within(e.report.a, sites))
  }

  ghost predicate RunWithin(events: seq<Event>, sites: iset<nat>)
  {
    Separate(sites) && forall i :: 0 <= i < |events| ==> EventWithin(events[i], sites)
  }

  ghost predicate SystemOk(o: seq<byte>, sites: iset<nat>, s: System)
  {
    WorldOk(o, sites, s.world) && FlagInv(s.world, !s.phase.Tracing?) && LogOk(s.world)
  }

  lemma ReportOk(o: seq<byte>, sites: iset<nat>, w: World, r: Report)
    requires Separate(sites) && WorldOk(o, sites, w) && SteppingOk(w.engine)
    requires r.ReportStop? || r.HookCommand? ==> Within(r.a, sites)
    ensures WorldOk(o, sites, ApplyReport(w, r))
  {
    match r
    case ReportStop(tid, stop, a) => OnStopOk(o, sites, w.(kernel := Reported(w.kernel, tid)), tid, stop, a);
    case HookCommand(spec, chosen, a) =>
      if chosen.Some? { InstallThreadOk(o, sites, w, chosen.value, spec, a); }
    case _ =>
  }

  lemma {:induction false} RemoveOk(o: seq<byte>, sites: iset<nat>, w: World, tid: int, vas: seq<nat>, a: Answers)
    requires Separate(sites) && WorldOk(o, sites, w)
    ensures WorldOk(o, sites, RemoveAll(w, tid, vas, a))
  {
    if |vas| > 0 {
      var t, va := RemoveAll(w, tid, vas[..|vas| - 1], a), vas[|vas| - 1];
      RemoveOk(o, sites, w, tid, vas[..|vas| - 1], a);
      if va in t.engine.bps { PokeOk(o, sites, t.engine.bps, t.kernel, tid, va, t.engine.bps[va].orig, a); }
    }
  }

  lemma LastOk(o: seq<byte>, sites: iset<nat>, s: System, l: Last)
    requires Separate(sites) && SystemOk(o, sites, s) && CanLast(s, l)
    ensures SystemOk(o, sites, ApplyLast(s, l))
  {
    FlagsLast(s, l);
    match l
    case BeginClose =>
    case CloseExit(_) =>
    case CloseStop(_) =>
    case Restore(chosen, vas, a) =>
      if chosen.Some? {
        RemoveOk(o, sites, s.world, chosen.value, vas, a);
        RemoveAllKeeps(s.world, chosen.value, vas, a);
      }
  }

  lemma EventOk(o: seq<byte>, sites: iset<nat>, s: System, e: Event)
    requires Separate(sites) && SystemOk(o, sites, s) && Enabled(s, e) && EventWithin(e, sites)
    ensures SystemOk(o, sites, Apply(s, e))
  {
    match e
    case Outside(c) =>
    case Loop(r) =>
      ReportOk(o, sites, s.world, r);
      FlagsReport(s.world, r);
      LogReport(s.world, r);
    case Closedown(l) => LastOk(o, sites, s, l);
  }

  lemma {:induction false} RunOk(o: seq<byte>, tids: set<int>, sites: iset<nat>, run: seq<System>, events: seq<Event>, i: nat)
    requires IsRun(o, tids, run, events) && RunWithin(events, sites) && i < |run|
    ensures SystemOk(o, sites, run[i])
  {
    if i > 0 {
      RunOk(o, tids, sites, run, events, i - 1);
      EventOk(o, sites, run[i - 1], events[i - 1]);
    }
  }

  /** Whatever the threads, the kernel and the hook commands do, and whichever memory
      accesses fail: outside the installed breakpoints the text is the program's own,
      each breakpoint knows the true instruction, and its place holds that or brk. */
  lemma TextStaysTrue(o: seq<byte>, tids: set<int>, sites: iset<nat>, run: seq<System>, events: seq<Event>)
    requires IsRun(o, tids, run, events) && RunWithin(events, sites)
    ensures var w := run[|run| - 1].world;
      && |w.kernel.text| == |o|
      && (forall va :: va in w.engine.bps ==> BreakpointOk(o, w.kernel.text, va, w.engine.bps[va]))
      && (forall i :: 0 <= i < |o| && !Covered(w.engine.bps, i) ==> w.kernel.text[i] == o[i])
  {
    RunOk(o, tids, sites, run, events, |run| - 1);
  }

  /** Instruction-aligned places never overlap. */
  lemma AlignedSeparate(sites: iset<nat>)
    requires forall v :: v in sites ==> v % INSTRUCTION_SIZE == 0
    ensures Separate(sites)
  {}

  /** Overlapping places break it: the second of two breakpoints, above or below the
      first, saves the true instruction exactly when brk agrees with the program on the
      bytes they share. */
  lemma OverlapSavesWrong(o: seq<byte>, k: Kernel, tid: int, u: nat, v: nat, a: Answers)
    requires u + INSTRUCTION_SIZE <= |o| && v + INSTRUCTION_SIZE <= |o|
    requires InStop(k, tid) && k.text == Store(o, u, BRK)
    requires u != v && v < u + INSTRUCTION_SIZE && u < v + INSTRUCTION_SIZE && a.peek(v)
    ensures Peek(k, tid, v, a).Some?
    ensures Peek(k, tid, v, a).value == Fetch(o, v)
            <==> forall i :: Covers(u, i) && Covers(v, i) ==> o[i] == BRK[i - u]
  {
    var word := Peek(k, tid, v, a).value;
    assert forall i :: v <= i < v + INSTRUCTION_SIZE ==> word[i - v] == k.text[i] && Fetch(o, v)[i - v] == o[i];
    assert forall i :: 0 <= i < |o| ==> k.text[i] == if u <= i < u + INSTRUCTION_SIZE then BRK[i - u] else o[i];
    if forall i :: Covers(u, i) && Covers(v, i) ==> o[i] == BRK[i - u] {
      assert word == Fetch(o, v);
    }
  }

  /** A hook two bytes behind another one: what is saved for it is not the program's. */
  lemma OverlapExample(a: Answers)
    requires a.peek(2)
    ensures var o: seq<byte> := [1, 2, 3, 4, 5, 6, 7, 8];
      Peek(Kernel(Store(o, 0, BRK), map[7 := Stopped]), 7, 2, a) == Some([0x20, 0xD4, 5, 6])
      && Fetch(o, 2) == [3, 4, 5, 6]
  {
    var o: seq<byte> := [1, 2, 3, 4, 5, 6, 7, 8];
    var t: seq<byte> := [0x00, 0x00, 0x20, 0xD4, 5, 6, 7, 8];
    assert Store(o, 0, BRK) == t;
    assert Fetch(t, 2) == [0x20, 0xD4, 5, 6];
  }

  /** The cleanup puts the program's text back exactly when the thread it picks is really
      in a stop, or nothing had to be put back. A thread that the engine takes for
      stopped may still be executing its single step. */
  lemma CleanupExact(o: seq<byte>, tids: set<int>, sites: iset<nat>, run: seq<System>, events: seq<Event>,
                     chosen: Option<int>, vas: seq<nat>, a: Answers)
    requires IsRun(o, tids, run, events) && RunWithin(events, sites)
    requires Enabled(run[|run| - 1], Closedown(Restore(chosen, vas, a)))
    requires forall va :: va in run[|run| - 1].world.engine.bps ==> a.poke(va)
    ensures var w := run[|run| - 1].world;
      Apply(run[|run| - 1], Closedown(Restore(chosen, vas, a))).world.kernel.text == o
      <==> || (chosen.Some? && InStop(w.kernel, chosen.value))
           || (forall va :: va in w.engine.bps ==> OutAt(o, w, va))
  {
    var w := run[|run| - 1].world;
    RunOk(o, tids, sites, run, events, |run| - 1);
    if forall va :: va in w.engine.bps ==> OutAt(o, w, va) { AllOut(o, sites, w.engine.bps, w.kernel.text); }
    if chosen.Some? && InStop(w.kernel, chosen.value) {
      var tid := chosen.value;
      RemoveRestores(o, sites, w, tid, vas, a);
      var t := RemoveAll(w, tid, vas, a);
      forall va | va in t.engine.bps
        ensures Fetch(t.kernel.text, va) == Fetch(o, va)
      {
        assert va in vas;
      }
      AllOut(o, sites, t.engine.bps, t.kernel.text);
    } else if chosen.Some? {
      RemoveNothing(w, chosen.value, vas, a);
    }
  }

  lemma TwoHooks(w: World, tid: int, a: Answers, h: HookSpec, g: HookSpec)
    requires InStop(w.kernel, tid) && |w.kernel.text| == 8 && w.engine.bps == map[] && w.engine.pendingSpecs == [h, g]
    requires a.resolve(h) == Some(0) && a.resolve(g) == Some(4)
    requires a.peek(0) && a.poke(0) && a.peek(4) && a.poke(4)
    ensures var t := InstallPending(w, tid, a);
      && t.engine == w.engine.(bps := t.engine.bps, pendingSpecs := []) && t.log == w.log
      && t.engine.bps.Keys == {0, 4} && t.kernel == w.kernel.(text := BRK + BRK)
  {
    var w1 := InstallThread(w, tid, h, a);
    var w2 := InstallThread(w1, tid, g, a);
    assert [h, g][..1] == [h] && [h][..0] == [];
    assert InstallAll(w, tid, [], a) == w;
    assert InstallAll(w, tid, [h], a) == w1;
    assert InstallAll(w, tid, [h, g], a) == w2;
    assert w1.kernel.text == BRK + w.kernel.text[4..];
    assert w2.kernel.text == BRK + BRK;
  }

  lemma RunGrows(o: seq<byte>, tids: set<int>, sites: iset<nat>, run: seq<System>, events: seq<Event>, e: Event)
    returns (run': seq<System>, events': seq<Event>)
    requires IsRun(o, tids, run, events) && RunWithin(events, sites)
    requires Enabled(run[|run| - 1], e) && EventWithin(e, sites)
    ensures IsRun(o, tids, run', events') && RunWithin(events', sites)
    ensures run'[|run'| - 1] == Apply(run[|run| - 1], e) && events' == events + [e]
  {
    run', events' := run + [Apply(run[|run| - 1], e)], events + [e];
  }

  function AllAnswers(): Answers
  {
    Answers(_ => true, _ => true, (spec: HookSpec) => if spec.offset == 0 then Some(0) else Some(4), true)
  }

  /** Thread 7 runs, with breakpoints at 0 and 4. */
  ghost predicate BothIn(s: System)
  {
    && s.phase.Tracing? && s.world.kernel == Kernel(BRK + BRK, map[7 := Running])
    && s.world.engine.threads == map[7 := Thread(None, true)] && s.world.engine.pending == {}
    && s.world.engine.bps.Keys == {0, 4} && s.world.engine.pendingSpecs == []
  }

  lemma TwoHooksRun(o: seq<byte>) returns (run: seq<System>, events: seq<Event>)
    requires |o| == 8
    ensures IsRun(o, {7}, run, events) && RunWithin(events, iset{0, 4}) && BothIn(run[|run| - 1])
  {
    var a, h0, h4 := AllAnswers(), HookSpec("lib", 0), HookSpec("lib", 4);
    run, events := [Init(o, {7})], [];
    run, events := RunGrows(o, {7}, iset{0, 4}, run, events, Loop(HookCommand(h0, None, a)));
    run, events := RunGrows(o, {7}, iset{0, 4}, run, events, Loop(HookCommand(h4, None, a)));
    assert run[|run| - 1].world.engine.pendingSpecs == [h0, h4];
    run, events := RunGrows(o, {7}, iset{0, 4}, run, events, Outside(Halt(7)));
    TwoHooksStop(run[|run| - 1], a, h0, h4);
    run, events := RunGrows(o, {7}, iset{0, 4}, run, events, Loop(ReportStop(7, EventStop(None), a)));
  }

  lemma TwoHooksStop(s: System, a: Answers, h: HookSpec, g: HookSpec)
    requires s.phase.Tracing? && s.world.kernel.status == map[7 := Waiting(false)] && |s.world.kernel.text| == 8
    requires s.world.engine == Engine(map[7 := Thread(None, true)], {}, map[], [h, g])
    requires a == AllAnswers() && h.offset == 0 && g.offset == 4
    ensures BothIn(Apply(s, Loop(ReportStop(7, EventStop(None), a))))
  {
    var w := SetThread(s.world.(kernel := Reported(s.world.kernel, 7)), 7, Thread(None, false));
    TwoHooks(w, 7, a, h, g);
  }

  /** The thread hits the first breakpoint and is sent on its step. */
  lemma HitStop(o: seq<byte>, s: System, a: Answers)
    requires |o| == 8 && BothIn(s) && s.world.engine.bps[0].orig == Fetch(o, 0) && a == AllAnswers()
    ensures var t := Apply(Apply(s, Outside(Halt(7))), Loop(ReportStop(7, Trap(Some(0)), a)));
      && t.phase.Tracing? && t.world.kernel == Kernel(o[..4] + BRK, map[7 := Stepping])
      && t.world.engine.threads == map[7 := Thread(Some(0), false)] && t.world.engine.bps.Keys == {0, 4}
  {
    assert Store(BRK + BRK, 0, Fetch(o, 0)) == o[..4] + BRK;
    var w := Apply(s, Outside(Halt(7))).world;
    var r := SetThread(w.(kernel := Reported(w.kernel, 7)), 7, Thread(None, false));
    assert InstallPending(r, 7, a) == r;
  }

  /** It does happen: two hooks, one thread, a Close while the thread steps over the
      first breakpoint. The cleanup picks that thread, its writes are refused, and the
      other breakpoint stays in the text of a process that is no longer traced. */
  lemma CleanupLeavesBreakpoint(o: seq<byte>) returns (run: seq<System>, events: seq<Event>)
    requires |o| == 8 && o[4..] != BRK
    ensures IsRun(o, {7}, run, events) && RunWithin(events, iset{0, 4})
    ensures run[|run| - 1].phase.Detached? && run[|run| - 1].world.kernel.text == o[..4] + BRK != o
  {
    var a := AllAnswers();
    run, events := TwoHooksRun(o);
    RunOk(o, {7}, iset{0, 4}, run, events, |run| - 1);
    HitStop(o, run[|run| - 1], a);
    run, events := RunGrows(o, {7}, iset{0, 4}, run, events, Outside(Halt(7)));
    run, events := RunGrows(o, {7}, iset{0, 4}, run, events, Loop(ReportStop(7, Trap(Some(0)), a)));
    run, events := CloseDuringStep(o, run, events, a);
    assert (o[..4] + BRK)[4..] == BRK;
  }

  lemma CloseDuringStep(o: seq<byte>, run0: seq<System>, events0: seq<Event>, a: Answers)
    returns (run: seq<System>, events: seq<Event>)
    requires IsRun(o, {7}, run0, events0) && RunWithin(events0, iset{0, 4})
    requires var s := run0[|run0| - 1];
      && s.phase.Tracing? && s.world.kernel.status == map[7 := Stepping]
      && s.world.engine.threads == map[7 := Thread(Some(0), false)] && s.world.engine.bps.Keys == {0, 4}
    ensures IsRun(o, {7}, run, events) && RunWithin(events, iset{0, 4})
    ensures run[|run| - 1].phase.Detached? && run[|run| - 1].world == run0[|run0| - 1].world
  {
    run, events := RunGrows(o, {7}, iset{0, 4}, run0, events0, Closedown(BeginClose));
    RemoveNothing(run[|run| - 1].world, 7, [0, 4], a);
    run, events := RunGrows(o, {7}, iset{0, 4}, run, events, Closedown(Restore(Some(7), [0, 4], a)));
  }

  /** Every thread that the cleanup may pick is stopped, gone, or single-stepping; so
      the text comes back unless the pick has exited or its step is not over. */
  lemma CleanupPick(o: seq<byte>, tids: set<int>, sites: iset<nat>, run: seq<System>, events: seq<Event>, tid: int)
    requires IsRun(o, tids, run, events) && RunWithin(events, sites)
    requires run[|run| - 1].phase.Closing? && ChoiceOk(run[|run| - 1].world.engine, Some(tid))
    ensures var k := run[|run| - 1].world.kernel;
      !InStop(k, tid) <==> tid !in k.status || k.status[tid].Stepping?
  {
    RunOk(o, tids, sites, run, events, |run| - 1);
  }

  /** Between two passes of the main loop no thread is left stopped, and a thread whose
      running flag is down is one that was sent on a single step. */
  lemma NoneLeftStopped(o: seq<byte>, tids: set<int>, sites: iset<nat>, run: seq<System>, events: seq<Event>)
    requires IsRun(o, tids, run, events) && RunWithin(events, sites) && run[|run| - 1].phase.Tracing?
    ensures var w := run[|run| - 1].world;
      && (forall t :: t in w.kernel.status ==> !w.kernel.status[t].Stopped?)
      && (forall t :: t in w.engine.threads && !w.engine.threads[t].running ==>
            && w.engine.threads[t].stepping.Some?
            && (t in w.kernel.status ==> w.kernel.status[t].Stepping? || w.kernel.status[t].Waiting?))
  {
    RunOk(o, tids, sites, run, events, |run| - 1);
  }

  /** Every hit was at an installed breakpoint, and was either given to the consumer, in
      order, or counted as dropped. */
  lemma HitsConserved(o: seq<byte>, tids: set<int>, sites: iset<nat>, run: seq<System>, events: seq<Event>)
    requires IsRun(o, tids, run, events) && RunWithin(events, sites)
    ensures var w := run[|run| - 1].world;
      && w.log.yielded == Delivered(w.log.hits)
      && w.log.dropped + |w.log.yielded| == |w.log.hits|
      && forall i :: 0 <= i < |w.log.hits| ==> w.log.hits[i].va in w.engine.bps
  {
    RunOk(o, tids, sites, run, events, |run| - 1);
  }

  // Breakpoints that stay out

  /** How a breakpoint is lost: the last thread on a step over it is gone, or is stopped
      by something else than the end of the step and sent on, or writing brk back fails. */
  ghost predicate Loses(w: World, e: Event)
  {
    match e
    case Outside(Vanish(tid)) => LastOver(w, tid)
    case Loop(ReportStop(tid, stop, a)) =>
      LastOver(w, tid) && (stop.Trap? ==> !a.poke(w.engine.threads[tid].stepping.value))
    case _ => false
  }

  lemma OwedEvent(o: seq<byte>, sites: iset<nat>, s: System, e: Event)
    requires Separate(sites) && SystemOk(o, sites, s) && Enabled(s, e) && EventWithin(e, sites)
    requires s.phase.Tracing? && !e.Closedown? && Owed(s.world)
    ensures Owed(Apply(s, e).world) <==> !Loses(s.world, e)
  {
    match e
    case Outside(c) => OwedChange(s.world, c);
    case Loop(ReportExit(tid)) => OwedSame(s.world, Forget(s.world, tid));
    case Loop(ReportStop(tid, stop, a)) => OwedStop(o, sites, s.world, tid, stop, a);
    case Loop(HookCommand(spec, chosen, a)) => OwedHook(o, sites, s.world, spec, chosen, a);
    case Loop(WaitFails) =>
  }

  ghost predicate AllOwed(run: seq<System>, n: nat)
    requires n < |run|
  {
    forall i :: 0 <= i <= n ==> Owed(run[i].world)
  }

  ghost predicate NoneLost(run: seq<System>, events: seq<Event>, n: nat)
    requires n <= |events| <= |run|
  {
    forall j :: 0 <= j < n ==> !Loses(run[j].world, events[j])
  }

  /** While it traces, every breakpoint that is out is being single-stepped over, up to
      the first event that loses one; and that event does leave one out. */
  lemma {:induction false} NoneStaysOut(o: seq<byte>, tids: set<int>, sites: iset<nat>, run: seq<System>, events: seq<Event>, n: nat)
    requires IsRun(o, tids, run, events) && RunWithin(events, sites) && n < |run|
    requires forall j :: 0 <= j < n ==> run[j].phase.Tracing? && !events[j].Closedown?
    ensures AllOwed(run, n) <==> NoneLost(run, events, n)
  {
    if n > 0 {
      NoneStaysOut(o, tids, sites, run, events, n - 1);
      RunOk(o, tids, sites, run, events, n - 1);
      if AllOwed(run, n - 1) { OwedEvent(o, sites, run[n - 1], events[n - 1]); }
      assert AllOwed(run, n) <==> AllOwed(run, n - 1) && Owed(run[n].world);
      assert NoneLost(run, events, n) <==> NoneLost(run, events, n - 1) && !Loses(run[n - 1].world, events[n - 1]);
    } else {
      assert run[0].world.engine.bps == map[];
    }
  }

  // One hook and a thread that goes on its step

  /** A hook at 0 is asked for; thread 7 stops for it, hits it, and is sent on its step. */
  function HookAndHit(a: Answers): seq<Event>
  {
    [Loop(HookCommand(HookSpec("lib", 0), None, a)), Outside(Halt(7)), Loop(ReportStop(7, EventStop(None), a)),
     Outside(Halt(7)), Loop(ReportStop(7, Trap(Some(0)), a))]
  }

  /** Every thread runs, but for thread 7, which steps over the only breakpoint. */
  ghost predicate OnStep(o: seq<byte>, tids: set<int>, s: System)
  {
    && |o| == 8 && s.phase.Tracing?
    && s.world.kernel == Kernel(o, Init(o, tids).world.kernel.status[7 := Stepping])
    && s.world.engine == Engine(Init(o, tids).world.engine.threads[7 := Thread(Some(0), false)], {},
                                map[0 := Breakpoint(Fetch(o, 0), HookSpec("lib", 0))], [])
  }

  lemma OneHook(w: World, a: Answers)
    requires InStop(w.kernel, 7) && |w.kernel.text| == 8 && w.engine.bps == map[]
    requires w.engine.pendingSpecs == [HookSpec("lib", 0)] && a == AllAnswers()
    ensures InstallPending(w, 7, a)
            == w.(engine := w.engine.(bps := map[0 := Breakpoint(Fetch(w.kernel.text, 0), HookSpec("lib", 0))], pendingSpecs := []),
                  kernel := w.kernel.(text := Store(w.kernel.text, 0, BRK)))
  {
    assert [HookSpec("lib", 0)][..0] == [];
    assert InstallAll(w, 7, [], a) == w;
    assert InstallAll(w, 7, [HookSpec("lib", 0)], a) == InstallThread(w, 7, HookSpec("lib", 0), a);
  }

  /** The hook is asked for, and a thread stops because it was interrupted. */
  lemma AskedAndHalted(o: seq<byte>, tids: set<int>, a: Answers)
    requires |o| == 8 && 7 in tids && a == AllAnswers()
    ensures var i := Init(o, tids);
      && Enabled(i, HookAndHit(a)[0]) && Enabled(Apply(i, HookAndHit(a)[0]), HookAndHit(a)[1])
      && Halted(o, tids, Apply(Apply(i, HookAndHit(a)[0]), HookAndHit(a)[1]))
  {}

  ghost predicate Halted(o: seq<byte>, tids: set<int>, s: System)
  {
    && s.phase.Tracing? && s.world.kernel == Kernel(o, Init(o, tids).world.kernel.status[7 := Waiting(false)])
    && s.world.engine == Engine(Init(o, tids).world.engine.threads, {}, map[], [HookSpec("lib", 0)])
  }

  /** All threads run, and the hook is in. */
  ghost predicate Hooked(o: seq<byte>, tids: set<int>, s: System)
  {
    && |o| == 8 && s.phase.Tracing? && s.world.kernel == Kernel(Store(o, 0, BRK), Init(o, tids).world.kernel.status)
    && s.world.engine == Engine(Init(o, tids).world.engine.threads, {}, map[0 := Breakpoint(Fetch(o, 0), HookSpec("lib", 0))], [])
  }

  lemma PutBack<T>(m: map<int, T>, x: T)
    requires 7 in m
    ensures m[7 := x][7 := m[7]] == m
  {}

  /** The hook goes in and the thread runs on. */
  lemma OneHookStop(o: seq<byte>, tids: set<int>, s: System, a: Answers)
    requires |o| == 8 && 7 in tids && a == AllAnswers() && Halted(o, tids, s)
    ensures Enabled(s, HookAndHit(a)[2]) && Hooked(o, tids, Apply(s, HookAndHit(a)[2]))
  {
    var i := Init(o, tids).world;
    var r := SetThread(s.world.(kernel := Reported(s.world.kernel, 7)), 7, Thread(None, false));
    OneHook(r, a);
    NoMorePending(InstallPending(r, 7, a), a);
    PutBack(i.engine.threads, Thread(None, false));
    PutBack(i.kernel.status, Stopped);
    assert r.kernel.status == i.kernel.status[7 := Stopped];
  }

  lemma NoMorePending(w: World, a: Answers)
    requires w.engine.pendingSpecs == []
    ensures InstallPending(w, 7, a) == w
  {}

  /** It hits the breakpoint and is sent on its step. */
  lemma OneHookHit(o: seq<byte>, tids: set<int>, s: System, a: Answers)
    requires |o| == 8 && 7 in tids && a == AllAnswers() && Hooked(o, tids, s)
    ensures Enabled(s, HookAndHit(a)[3]) && Enabled(Apply(s, HookAndHit(a)[3]), HookAndHit(a)[4])
    ensures OnStep(o, tids, Apply(Apply(s, HookAndHit(a)[3]), HookAndHit(a)[4]))
  {
    var i := Init(o, tids).world;
    var u := Apply(s, HookAndHit(a)[3]);
    var r := SetThread(u.world.(kernel := Reported(u.world.kernel, 7)), 7, Thread(None, false));
    NoMorePending(r, a);
    assert Store(Store(o, 0, BRK), 0, Fetch(o, 0)) == o;
    var t := Apply(u, HookAndHit(a)[4]);
    assert t.world.engine.threads == i.engine.threads[7 := Thread(Some(0), false)];
    assert t.world.kernel.status == i.kernel.status[7 := Stepping];
  }

  lemma OnStepRun(o: seq<byte>, tids: set<int>) returns (run: seq<System>, events: seq<Event>)
    requires |o| == 8 && 7 in tids
    ensures IsRun(o, tids, run, events) && RunWithin(events, iset{0, 4}) && OnStep(o, tids, run[|run| - 1])
  {
    var a := AllAnswers();
    run, events := [Init(o, tids)], [];
    AskedAndHalted(o, tids, a);
    run, events := RunGrows(o, tids, iset{0, 4}, run, events, HookAndHit(a)[0]);
    run, events := RunGrows(o, tids, iset{0, 4}, run, events, HookAndHit(a)[1]);
    OneHookStop(o, tids, run[|run| - 1], a);
    run, events := RunGrows(o, tids, iset{0, 4}, run, events, HookAndHit(a)[2]);
    OneHookHit(o, tids, run[|run| - 1], a);
    run, events := RunGrows(o, tids, iset{0, 4}, run, events, HookAndHit(a)[3]);
    run, events := RunGrows(o, tids, iset{0, 4}, run, events, HookAndHit(a)[4]);
  }

  /** A breakpoint is out, and every thread that is left runs freely. */
  ghost predicate LeftOut(s: System, va: nat)
  {
    && s.phase.Tracing? && OutBp(s.world, va) && s.world.kernel.status.Keys != {}
    && forall t :: t in s.world.kernel.status ==> s.world.kernel.status[t].Running?
  }

  /** A signal during the step: the thread is sent on without its breakpoint, and the
      engine still takes it for stepping. */
  lemma SignalLoses(o: seq<byte>, tids: set<int>) returns (run: seq<System>, events: seq<Event>)
    requires |o| == 8 && 7 in tids && o[..4] != BRK
    ensures IsRun(o, tids, run, events) && RunWithin(events, iset{0, 4}) && LeftOut(run[|run| - 1], 0)
    ensures var e := run[|run| - 1].world.engine; 7 in e.threads && e.threads[7] == Thread(Some(0), true)
  {
    var a := AllAnswers();
    run, events := OnStepRun(o, tids);
    run, events := RunGrows(o, tids, iset{0, 4}, run, events, Outside(Halt(7)));
    var w := run[|run| - 1].world;
    run, events := RunGrows(o, tids, iset{0, 4}, run, events, Loop(ReportStop(7, Signal, a)));
    var s := SetThread(w.(kernel := Reported(w.kernel, 7)), 7, w.engine.threads[7].(running := false));
    NoMorePending(s, a);
    assert 7 in run[|run| - 1].world.kernel.status;
  }

  /** An exit during the step, with another thread left to run without the breakpoint. */
  lemma ExitLoses(o: seq<byte>, tids: set<int>) returns (run: seq<System>, events: seq<Event>)
    requires |o| == 8 && {7, 8} <= tids && o[..4] != BRK
    ensures IsRun(o, tids, run, events) && RunWithin(events, iset{0, 4}) && LeftOut(run[|run| - 1], 0)
    ensures 7 !in run[|run| - 1].world.engine.threads
  {
    run, events := OnStepRun(o, tids);
    run, events := RunGrows(o, tids, iset{0, 4}, run, events, Outside(Vanish(7)));
    run, events := RunGrows(o, tids, iset{0, 4}, run, events, Loop(ReportExit(7)));
    assert 8 in run[|run| - 1].world.kernel.status;
  }

  // Hook commands

  /** A hook command whose address can be hooked does nothing at all, now or later,
      exactly when the thread it picks is gone or on its step; otherwise its breakpoint
      is installed or the hook is pending. */
  lemma HookLostExact(o: seq<byte>, tids: set<int>, sites: iset<nat>, run: seq<System>, events: seq<Event>,
                      spec: HookSpec, chosen: Option<int>, a: Answers)
    requires IsRun(o, tids, run, events) && RunWithin(events, sites)
    requires Enabled(run[|run| - 1], Loop(HookCommand(spec, chosen, a))) && a.resolve(spec).Some?
    requires var va := a.resolve(spec).value;
      va !in run[|run| - 1].world.engine.bps && va + INSTRUCTION_SIZE <= |o| && a.peek(va) && a.poke(va)
    ensures var w := run[|run| - 1].world;
      var t := Apply(run[|run| - 1], Loop(HookCommand(spec, chosen, a))).world;
      && (t == w <==> chosen.Some? && (chosen.value !in w.kernel.status || w.kernel.status[chosen.value].Stepping?))
      && (t != w ==> a.resolve(spec).value in t.engine.bps || t.engine.pendingSpecs == w.engine.pendingSpecs + [spec])
  {
    RunOk(o, tids, sites, run, events, |run| - 1);
    var w := run[|run| - 1].world;
    match chosen
    case Some(tid) =>
      assert InStop(w.kernel, tid) <==> tid in w.kernel.status && !w.kernel.status[tid].Stepping?;
      assert InStop(w.kernel, tid) ==> a.resolve(spec).value in InstallThread(w, tid, spec, a).engine.bps;
      assert !InStop(w.kernel, tid) ==> InstallThread(w, tid, spec, a) == w;
    case None => assert |w.engine.pendingSpecs + [spec]| > |w.engine.pendingSpecs|;
  }

  /** It does happen: a second hook while the thread is on its step over the first. */
  lemma HookLost(o: seq<byte>) returns (run: seq<System>, events: seq<Event>)
    requires |o| == 8
    ensures IsRun(o, {7}, run, events) && RunWithin(events, iset{0, 4})
    ensures events != [] && events[|events| - 1] == Loop(HookCommand(HookSpec("lib", 4), Some(7), AllAnswers()))
    ensures var e := run[|run| - 1].world.engine; 4 !in e.bps && e.pendingSpecs == []
  {
    run, events := OnStepRun(o, {7});
    run, events := RunGrows(o, {7}, iset{0, 4}, run, events, Loop(HookCommand(HookSpec("lib", 4), Some(7), AllAnswers())));
  }
}
