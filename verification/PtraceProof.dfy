/** What every event of the breakpoint engine keeps. */
module PtraceProof {
  import opened Options
  import opened Ptrace

  // The program's text

  ghost predicate Covers(va: nat, i: int) { va <= i < va + INSTRUCTION_SIZE }

  ghost predicate Covered(bps: map<nat, Breakpoint>, i: int)
  {
    exists va :: va in bps && Covers(va, i)
  }

  /** Places for breakpoints that do not overlap. */
  ghost predicate Separate(sites: iset<nat>)
  {
    forall u, v :: u in sites && v in sites && u < v ==> u + INSTRUCTION_SIZE <= v
  }

  /** A breakpoint knows the true instruction, and its place holds that or brk. */
  ghost predicate BreakpointOk(o: seq<byte>, text: seq<byte>, va: nat, bp: Breakpoint)
  {
    && va + INSTRUCTION_SIZE <= |o| == |text|
    && bp.orig == Fetch(o, va)
    && (Fetch(text, va) == BRK || Fetch(text, va) == bp.orig)
  }

  ghost predicate TextOk(o: seq<byte>, sites: iset<nat>, bps: map<nat, Breakpoint>, text: seq<byte>)
  {
    && |text| == |o|
    && (forall va :: va in bps ==> va in sites && BreakpointOk(o, text, va, bps[va]))
    && (forall i :: 0 <= i < |o| && !Covered(bps, i) ==> text[i] == o[i])
  }

  ghost predicate WorldOk(o: seq<byte>, sites: iset<nat>, w: World)
  {
    TextOk(o, sites, w.engine.bps, w.kernel.text)
  }

  /** The hooks of an event resolve to the given places. */
  ghost predicate Within(a: Answers, sites: iset<nat>)
  {
    forall spec :: a.resolve(spec).Some? ==> a.resolve(spec).value in sites
  }

  lemma StoreAt(text: seq<byte>, va: nat, word: Word, u: nat)
    requires va + INSTRUCTION_SIZE <= |text| && u + INSTRUCTION_SIZE <= |text|
    ensures u == va ==> Fetch(Store(text, va, word), u) == word
    ensures u + INSTRUCTION_SIZE <= va || va + INSTRUCTION_SIZE <= u ==> Fetch(Store(text, va, word), u) == Fetch(text, u)
  {}

  /** Writing brk or the saved instruction at a breakpoint. */
  lemma PokeOk(o: seq<byte>, sites: iset<nat>, bps: map<nat, Breakpoint>, k: Kernel, tid: int, va: nat, word: Word, a: Answers)
    requires Separate(sites) && TextOk(o, sites, bps, k.text)
    requires va in bps && (word == BRK || word == bps[va].orig)
    ensures TextOk(o, sites, bps, Poke(k, tid, va, word, a).1.text)
  {
    if Poke(k, tid, va, word, a).0 {
      var t := Store(k.text, va, word);
      forall u | u in bps
        ensures BreakpointOk(o, t, u, bps[u])
      {
        StoreAt(k.text, va, word, u);
      }
      forall i | 0 <= i < |o| && !Covered(bps, i)
        ensures t[i] == o[i]
      {
        assert !Covers(va, i);
      }
    }
  }

  lemma UncoveredSite(o: seq<byte>, sites: iset<nat>, bps: map<nat, Breakpoint>, text: seq<byte>, va: nat)
    requires Separate(sites) && TextOk(o, sites, bps, text)
    requires va in sites && va !in bps && va + INSTRUCTION_SIZE <= |text|
    ensures Fetch(text, va) == Fetch(o, va)
  {
    forall i | va <= i < va + INSTRUCTION_SIZE
      ensures text[i] == o[i]
    {
      assert !Covered(bps, i);
    }
  }

  lemma InstallThreadOk(o: seq<byte>, sites: iset<nat>, w: World, tid: int, spec: HookSpec, a: Answers)
    requires Separate(sites) && WorldOk(o, sites, w) && Within(a, sites)
    ensures WorldOk(o, sites, InstallThread(w, tid, spec, a))
  {
    var t := InstallThread(w, tid, spec, a);
    if t != w {
      var va := a.resolve(spec).value;
      UncoveredSite(o, sites, w.engine.bps, w.kernel.text, va);
      forall u | u in t.engine.bps
        ensures BreakpointOk(o, t.kernel.text, u, t.engine.bps[u])
      {
        StoreAt(w.kernel.text, va, BRK, u);
      }
      forall i | 0 <= i < |o| && !Covered(t.engine.bps, i)
        ensures t.kernel.text[i] == o[i]
      {
        assert !Covers(va, i);
        assert forall u :: u in w.engine.bps ==> u in t.engine.bps;
      }
    }
  }

  lemma {:induction false} InstallAllOk(o: seq<byte>, sites: iset<nat>, w: World, tid: int, specs: seq<HookSpec>, a: Answers)
    requires Separate(sites) && WorldOk(o, sites, w) && Within(a, sites)
    ensures WorldOk(o, sites, InstallAll(w, tid, specs, a))
  {
    if |specs| > 0 {
      InstallAllOk(o, sites, w, tid, specs[..|specs| - 1], a);
      InstallThreadOk(o, sites, InstallAll(w, tid, specs[..|specs| - 1], a), tid, specs[|specs| - 1], a);
    }
  }

  lemma InstallPendingOk(o: seq<byte>, sites: iset<nat>, w: World, tid: int, a: Answers)
    requires Separate(sites) && WorldOk(o, sites, w) && Within(a, sites)
    ensures WorldOk(o, sites, InstallPending(w, tid, a))
  {
    InstallAllOk(o, sites, w, tid, w.engine.pendingSpecs, a);
  }

  lemma ContOk(o: seq<byte>, sites: iset<nat>, w: World, tid: int, a: Answers)
    requires Separate(sites) && WorldOk(o, sites, w) && Within(a, sites) && tid in w.engine.threads
    ensures WorldOk(o, sites, Cont(w, tid, a))
  {
    InstallPendingOk(o, sites, w, tid, a);
  }

  /** The breakpoint that a thread steps over is an installed one. */
  ghost predicate SteppingOk(e: Engine)
  {
    forall t :: t in e.threads && e.threads[t].stepping.Some? ==> e.threads[t].stepping.value in e.bps
  }

  lemma HandleBreakpointOk(o: seq<byte>, sites: iset<nat>, w: World, tid: int, pc: Option<nat>, a: Answers)
    requires Separate(sites) && WorldOk(o, sites, w) && Within(a, sites)
    requires tid in w.engine.threads && SteppingOk(w.engine)
    ensures WorldOk(o, sites, HandleBreakpoint(w, tid, pc, a))
  {
    var th := w.engine.threads[tid];
    match th.stepping
    case Some(va) =>
      PokeOk(o, sites, w.engine.bps, w.kernel, tid, va, BRK, a);
      var k := Poke(w.kernel, tid, va, BRK, a).1;
      ContOk(o, sites, SetThread(w, tid, th.(stepping := None)).(kernel := k), tid, a);
    case None =>
      if pc.None? || pc.value !in w.engine.bps {
        ContOk(o, sites, w, tid, a);
      } else {
        PokeOk(o, sites, w.engine.bps, w.kernel, tid, pc.value, w.engine.bps[pc.value].orig, a);
      }
  }

  lemma OnStopOk(o: seq<byte>, sites: iset<nat>, w: World, tid: int, stop: Stop, a: Answers)
    requires Separate(sites) && WorldOk(o, sites, w) && Within(a, sites) && SteppingOk(w.engine)
    ensures WorldOk(o, sites, OnStop(w, tid, stop, a))
  {
    if tid in w.engine.pending {
      ContOk(o, sites, w.(engine := w.engine.(pending := w.engine.pending - {tid},
                                  threads := w.engine.threads[tid := Thread(None, false)])), tid, a);
    } else if tid in w.engine.threads {
      var s := SetThread(w, tid, w.engine.threads[tid].(running := false));
      InstallPendingOk(o, sites, s, tid, a);
      InstallPendingKeeps(s, tid, a);
      var t := InstallPending(s, tid, a);
      match stop
      case EventStop(clone) =>
        ContOk(o, sites, if clone.Some? then t.(engine := t.engine.(pending := t.engine.pending + {clone.value})) else t, tid, a);
      case Trap(pc) =>
        InstallPendingGrows(s, tid, a);
        HandleBreakpointOk(o, sites, t, tid, pc, a);
      case Signal => ContOk(o, sites, t, tid, a);
    }
  }

  // Breakpoints are never forgotten

  lemma {:induction false} InstallAllGrows(w: World, tid: int, specs: seq<HookSpec>, a: Answers)
    ensures w.engine.bps.Keys <= InstallAll(w, tid, specs, a).engine.bps.Keys
    ensures forall va :: va in w.engine.bps ==> InstallAll(w, tid, specs, a).engine.bps[va] == w.engine.bps[va]
  {
    if |specs| > 0 { InstallAllGrows(w, tid, specs[..|specs| - 1], a); }
  }

  lemma InstallPendingGrows(w: World, tid: int, a: Answers)
    ensures w.engine.bps.Keys <= InstallPending(w, tid, a).engine.bps.Keys
    ensures forall va :: va in w.engine.bps ==> InstallPending(w, tid, a).engine.bps[va] == w.engine.bps[va]
  {
    InstallAllGrows(w, tid, w.engine.pendingSpecs, a);
  }

  // The engine's flags and the kernel's status

  /** A thread whose flag says it runs does run, unless its stop is still unreported; one
      whose flag says it is stopped is single-stepping, or was stopped for the cleanup. */
  predicate FlagOk(th: Thread, st: Status, closing: bool)
  {
    && (th.running ==> st.Running? || st.Waiting?)
    && (!th.running ==> st.Stepping? || st.Waiting? || (closing && st.Stopped?))
  }

  ghost predicate FlagInv(w: World, closing: bool)
  {
    && (forall t :: t in w.engine.threads && t in w.kernel.status ==> FlagOk(w.engine.threads[t], w.kernel.status[t], closing))
    && (!closing ==> forall t :: t in w.kernel.status ==> !w.kernel.status[t].Stopped?)
    && (!closing ==> forall t :: t in w.engine.threads && !w.engine.threads[t].running ==> w.engine.threads[t].stepping.Some?)
    && w.engine.pending !! w.engine.threads.Keys
    && SteppingOk(w.engine)
  }

  /** While one stopped thread is handled, the invariant holds of all the others. */
  ghost predicate FlagsBut(w: World, tid: int)
  {
    && (forall t :: t in w.engine.threads && t in w.kernel.status && t != tid ==> FlagOk(w.engine.threads[t], w.kernel.status[t], false))
    && (forall t :: t in w.kernel.status && t != tid ==> !w.kernel.status[t].Stopped?)
    && (forall t :: t in w.engine.threads && t != tid && !w.engine.threads[t].running ==> w.engine.threads[t].stepping.Some?)
    && w.engine.pending !! w.engine.threads.Keys
    && SteppingOk(w.engine)
    && tid in w.kernel.status && w.kernel.status[tid].Stopped?
  }

  lemma FlagsCont(w: World, tid: int, a: Answers)
    requires FlagsBut(w, tid) && tid in w.engine.threads
    ensures FlagInv(Cont(w, tid, a), false)
  {
    InstallPendingKeeps(w, tid, a);
    InstallPendingGrows(w, tid, a);
  }

  lemma FlagsHandle(w: World, tid: int, pc: Option<nat>, a: Answers)
    requires FlagsBut(w, tid) && tid in w.engine.threads && !w.engine.threads[tid].running
    ensures FlagInv(HandleBreakpoint(w, tid, pc, a), false)
  {
    var th := w.engine.threads[tid];
    match th.stepping
    case Some(va) =>
      var k := Poke(w.kernel, tid, va, BRK, a).1;
      FlagsCont(SetThread(w, tid, th.(stepping := None)).(kernel := k), tid, a);
    case None =>
      if pc.None? || pc.value !in w.engine.bps { FlagsCont(w, tid, a); }
  }

  lemma FlagsStop(w: World, tid: int, stop: Stop, a: Answers)
    requires FlagsBut(w, tid)
    requires stop.EventStop? && stop.clone.Some? ==> stop.clone.value !in w.engine.threads
    ensures FlagInv(OnStop(w, tid, stop, a), false)
  {
    if tid in w.engine.pending {
      FlagsCont(w.(engine := w.engine.(pending := w.engine.pending - {tid},
                                threads := w.engine.threads[tid := Thread(None, false)])), tid, a);
    } else if tid in w.engine.threads {
      var s := SetThread(w, tid, w.engine.threads[tid].(running := false));
      InstallPendingKeeps(s, tid, a);
      InstallPendingGrows(s, tid, a);
      var t := InstallPending(s, tid, a);
      assert FlagsBut(t, tid);
      match stop
      case EventStop(clone) =>
        FlagsCont(if clone.Some? then t.(engine := t.engine.(pending := t.engine.pending + {clone.value})) else t, tid, a);
      case Trap(pc) => FlagsHandle(t, tid, pc, a);
      case Signal => FlagsCont(t, tid, a);
    }
  }

  lemma FlagsReport(w: World, r: Report)
    requires FlagInv(w, false) && CanReport(w, r)
    ensures FlagInv(ApplyReport(w, r), false)
  {
    match r
    case ReportExit(tid) =>
    case ReportStop(tid, stop, a) => FlagsStop(w.(kernel := Reported(w.kernel, tid)), tid, stop, a);
    case HookCommand(spec, chosen, a) =>
    case WaitFails =>
  }

  lemma {:induction false} RemoveAllKeeps(w: World, tid: int, vas: seq<nat>, a: Answers)
    ensures var t := RemoveAll(w, tid, vas, a);
      t == w.(kernel := w.kernel.(text := t.kernel.text)) && |t.kernel.text| == |w.kernel.text|
  {
    if |vas| > 0 { RemoveAllKeeps(w, tid, vas[..|vas| - 1], a); }
  }

  lemma FlagsLast(s: System, l: Last)
    requires CanLast(s, l) && FlagInv(s.world, !s.phase.Tracing?)
    ensures FlagInv(ApplyLast(s, l).world, true)
  {
    match l
    case Restore(chosen, vas, a) => if chosen.Some? { RemoveAllKeeps(s.world, chosen.value, vas, a); }
    case _ =>
  }

  // The log of hits

  function Delivered(hits: seq<Hit>): seq<Hit>
  {
    if |hits| == 0 then []
    else
      var before := Delivered(hits[..|hits| - 1]);
      if hits[|hits| - 1].delivered then before + [hits[|hits| - 1]] else before
  }

  /** Each hit was yielded, in order, or counted as dropped, and was at a breakpoint. */
  ghost predicate LogOk(w: World)
  {
    && w.log.yielded == Delivered(w.log.hits)
    && w.log.dropped + |w.log.yielded| == |w.log.hits|
    && forall i :: 0 <= i < |w.log.hits| ==> w.log.hits[i].va in w.engine.bps
  }

  lemma LogCont(w: World, tid: int, a: Answers)
    requires LogOk(w) && tid in w.engine.threads
    ensures LogOk(Cont(w, tid, a))
  {
    InstallPendingKeeps(w, tid, a);
    InstallPendingGrows(w, tid, a);
  }

  lemma LogHandle(w: World, tid: int, pc: Option<nat>, a: Answers)
    requires LogOk(w) && tid in w.engine.threads
    ensures LogOk(HandleBreakpoint(w, tid, pc, a))
  {
    var th := w.engine.threads[tid];
    match th.stepping
    case Some(va) =>
      LogCont(SetThread(w, tid, th.(stepping := None)).(kernel := Poke(w.kernel, tid, va, BRK, a).1), tid, a);
    case None =>
      if pc.None? || pc.value !in w.engine.bps {
        LogCont(w, tid, a);
      } else {
        var hits := HandleBreakpoint(w, tid, pc, a).log.hits;
        assert hits[..|hits| - 1] == w.log.hits;
      }
  }

  lemma LogStop(w: World, tid: int, stop: Stop, a: Answers)
    requires LogOk(w)
    ensures LogOk(OnStop(w, tid, stop, a))
  {
    if tid in w.engine.pending {
      LogCont(w.(engine := w.engine.(pending := w.engine.pending - {tid},
                              threads := w.engine.threads[tid := Thread(None, false)])), tid, a);
    } else if tid in w.engine.threads {
      var s := SetThread(w, tid, w.engine.threads[tid].(running := false));
      InstallPendingKeeps(s, tid, a);
      InstallPendingGrows(s, tid, a);
      var t := InstallPending(s, tid, a);
      match stop
      case EventStop(clone) =>
        LogCont(if clone.Some? then t.(engine := t.engine.(pending := t.engine.pending + {clone.value})) else t, tid, a);
      case Trap(pc) => LogHandle(t, tid, pc, a);
      case Signal => LogCont(t, tid, a);
    }
  }

  lemma LogReport(w: World, r: Report)
    requires LogOk(w) && CanReport(w, r)
    ensures LogOk(ApplyReport(w, r))
  {
    match r
    case ReportStop(tid, stop, a) => LogStop(w.(kernel := Reported(w.kernel, tid)), tid, stop, a);
    case HookCommand(spec, chosen, a) =>
    case _ =>
  }

  // Cleanup

  /** Restoring through a thread that is not stopped changes nothing. */
  lemma {:induction false} RemoveNothing(w: World, tid: int, vas: seq<nat>, a: Answers)
    requires !InStop(w.kernel, tid)
    ensures RemoveAll(w, tid, vas, a) == w
  {
    if |vas| > 0 { RemoveNothing(w, tid, vas[..|vas| - 1], a); }
  }

  /** The saved instruction is in place at va. */
  ghost predicate OutAt(o: seq<byte>, w: World, va: nat)
  {
    va + INSTRUCTION_SIZE <= |o| == |w.kernel.text| && Fetch(w.kernel.text, va) == Fetch(o, va)
  }

  lemma RestoreOne(o: seq<byte>, sites: iset<nat>, w: World, tid: int, va: nat, a: Answers)
    requires Separate(sites) && WorldOk(o, sites, w) && InStop(w.kernel, tid) && va in w.engine.bps && a.poke(va)
    ensures var t := w.(kernel := Poke(w.kernel, tid, va, w.engine.bps[va].orig, a).1);
      && WorldOk(o, sites, t) && t.kernel.status == w.kernel.status && OutAt(o, t, va)
      && forall u :: u in w.engine.bps && OutAt(o, w, u) ==> OutAt(o, t, u)
  {
    PokeOk(o, sites, w.engine.bps, w.kernel, tid, va, w.engine.bps[va].orig, a);
    var t := w.(kernel := Poke(w.kernel, tid, va, w.engine.bps[va].orig, a).1);
    StoreAt(w.kernel.text, va, w.engine.bps[va].orig, va);
    forall u | u in w.engine.bps && OutAt(o, w, u)
      ensures OutAt(o, t, u)
    {
      StoreAt(w.kernel.text, va, w.engine.bps[va].orig, u);
    }
  }

  ghost predicate AllOutAt(o: seq<byte>, w: World, vas: seq<nat>)
  {
    forall i :: 0 <= i < |vas| ==> OutAt(o, w, vas[i])
  }

  ghost predicate Among(vas: seq<nat>, bps: map<nat, Breakpoint>)
  {
    forall i :: 0 <= i < |vas| ==> vas[i] in bps
  }

  lemma OutMore(o: seq<byte>, w: World, t: World, vas: seq<nat>, va: nat)
    requires Among(vas, w.engine.bps) && AllOutAt(o, w, vas) && OutAt(o, t, va)
    requires forall u :: u in w.engine.bps && OutAt(o, w, u) ==> OutAt(o, t, u)
    ensures AllOutAt(o, t, vas + [va])
  {}

  /** Restoring through a stopped thread puts back every breakpoint it visits. */
  lemma {:induction false} RemoveRestores(o: seq<byte>, sites: iset<nat>, w: World, tid: int, vas: seq<nat>, a: Answers)
    requires Separate(sites) && WorldOk(o, sites, w) && InStop(w.kernel, tid)
    requires forall va :: va in w.engine.bps ==> a.poke(va)
    requires Among(vas, w.engine.bps)
    ensures var t := RemoveAll(w, tid, vas, a);
      && WorldOk(o, sites, t) && t.engine == w.engine && t.kernel.status == w.kernel.status
      && AllOutAt(o, t, vas)
  {
    if |vas| > 0 {
      var n := |vas| - 1;
      var front, va := vas[..n], vas[n];
      assert vas == front + [va] && Among(front, w.engine.bps);
      RemoveRestores(o, sites, w, tid, front, a);
      var t := RemoveAll(w, tid, front, a);
      RestoreOne(o, sites, t, tid, va, a);
      OutMore(o, t, RemoveAll(w, tid, vas, a), front, va);
    }
  }

  /** With every breakpoint out, the text is the original one. */
  lemma AllOut(o: seq<byte>, sites: iset<nat>, bps: map<nat, Breakpoint>, text: seq<byte>)
    requires TextOk(o, sites, bps, text)
    requires forall va :: va in bps ==> Fetch(text, va) == Fetch(o, va)
    ensures text == o
  {
    forall i | 0 <= i < |o|
      ensures text[i] == o[i]
    {
      if Covered(bps, i) {
        var va :| va in bps && Covers(va, i);
        assert Fetch(text, va)[i - va] == Fetch(o, va)[i - va];
      }
    }
  }

  // Breakpoints that are out for a step

  /** An installed breakpoint whose place does not hold brk. */
  ghost predicate OutBp(w: World, va: nat)
  {
    va in w.engine.bps && va + INSTRUCTION_SIZE <= |w.kernel.text| && Fetch(w.kernel.text, va) != BRK
  }

  /** The kernel single-steps the thread, or stopped it while it did. */
  predicate Steps(k: Kernel, tid: int)
  {
    tid in k.status && (k.status[tid].Stepping? || (k.status[tid].Waiting? && k.status[tid].stepped))
  }

  /** The thread is on its step over va, as the engine knows. */
  predicate Over(w: World, tid: int, va: nat)
  {
    tid in w.engine.threads && w.engine.threads[tid].stepping == Some(va) && Steps(w.kernel, tid)
  }

  ghost predicate SteppedOver(w: World, va: nat) { exists t :: Over(w, t, va) }

  /** Every breakpoint that is out is being stepped over. */
  ghost predicate Owed(w: World)
  {
    forall va :: OutBp(w, va) ==> SteppedOver(w, va)
  }

  /** The thread went for a step over a breakpoint that is out, and no other thread is on
      a step over it. */
  ghost predicate LastOver(w: World, tid: int)
  {
    && tid in w.engine.threads && w.engine.threads[tid].stepping.Some?
    && OutBp(w, w.engine.threads[tid].stepping.value)
    && forall x :: Over(w, x, w.engine.threads[tid].stepping.value) ==> x == tid
  }

  ghost predicate SameOut(w: World, t: World) { forall u :: OutBp(t, u) <==> OutBp(w, u) }

  /** The other threads are on the same steps. */
  ghost predicate SameOthers(w: World, t: World, tid: int)
  {
    forall x, va :: x != tid ==> (Over(t, x, va) <==> Over(w, x, va))
  }

  lemma OutInstallThread(o: seq<byte>, sites: iset<nat>, w: World, tid: int, spec: HookSpec, a: Answers)
    requires Separate(sites) && WorldOk(o, sites, w) && Within(a, sites)
    ensures SameOut(w, InstallThread(w, tid, spec, a))
  {
    var t := InstallThread(w, tid, spec, a);
    if t != w {
      var va := a.resolve(spec).value;
      forall u
        ensures OutBp(t, u) <==> OutBp(w, u)
      {
        if u in t.engine.bps { StoreAt(w.kernel.text, va, BRK, u); }
      }
    }
  }

  lemma {:induction false} OutInstallAll(o: seq<byte>, sites: iset<nat>, w: World, tid: int, specs: seq<HookSpec>, a: Answers)
    requires Separate(sites) && WorldOk(o, sites, w) && Within(a, sites)
    ensures SameOut(w, InstallAll(w, tid, specs, a))
  {
    if |specs| > 0 {
      var n := |specs| - 1;
      OutInstallAll(o, sites, w, tid, specs[..n], a);
      InstallAllOk(o, sites, w, tid, specs[..n], a);
      OutInstallThread(o, sites, InstallAll(w, tid, specs[..n], a), tid, specs[n], a);
    }
  }

  lemma OutInstallPending(o: seq<byte>, sites: iset<nat>, w: World, tid: int, a: Answers)
    requires Separate(sites) && WorldOk(o, sites, w) && Within(a, sites)
    ensures SameOut(w, InstallPending(w, tid, a))
  {
    var t := InstallAll(w, tid, w.engine.pendingSpecs, a);
    OutInstallAll(o, sites, w, tid, w.engine.pendingSpecs, a);
    forall u ensures OutBp(InstallPending(w, tid, a), u) <==> OutBp(t, u) {}
  }

  /** A stopped thread that is continued steps over nothing, and nothing else changes. */
  lemma OutCont(o: seq<byte>, sites: iset<nat>, w: World, tid: int, a: Answers)
    requires Separate(sites) && WorldOk(o, sites, w) && Within(a, sites)
    requires tid in w.engine.threads && InStop(w.kernel, tid)
    ensures var t := Cont(w, tid, a);
      SameOut(w, t) && SameOthers(w, t, tid) && !Steps(t.kernel, tid)
  {
    OutInstallPending(o, sites, w, tid, a);
    InstallPendingKeeps(w, tid, a);
    var p, t := InstallPending(w, tid, a), Cont(w, tid, a);
    assert t.kernel.text == p.kernel.text && t.engine.bps == p.engine.bps;
    forall u ensures OutBp(t, u) <==> OutBp(p, u) {}
  }

  /** What the end of a step does to the set of breakpoints that are out. */
  lemma OutStepEnds(o: seq<byte>, sites: iset<nat>, w: World, tid: int, va: nat, pc: Option<nat>, a: Answers)
    requires Separate(sites) && WorldOk(o, sites, w) && Within(a, sites)
    requires tid in w.engine.threads && w.engine.threads[tid].stepping == Some(va) && va in w.engine.bps
    requires InStop(w.kernel, tid)
    ensures var t := HandleBreakpoint(w, tid, pc, a);
      && SameOthers(w, t, tid) && !Steps(t.kernel, tid)
      && forall u :: OutBp(t, u) <==> OutBp(w, u) && (a.poke(va) ==> u != va)
  {
    PokeOk(o, sites, w.engine.bps, w.kernel, tid, va, BRK, a);
    var s := SetThread(w, tid, w.engine.threads[tid].(stepping := None)).(kernel := Poke(w.kernel, tid, va, BRK, a).1);
    OutCont(o, sites, s, tid, a);
    assert SameOthers(w, s, tid);
    forall u
      ensures OutBp(s, u) <==> OutBp(w, u) && (a.poke(va) ==> u != va)
    {
      if u in w.engine.bps { StoreAt(w.kernel.text, va, BRK, u); }
    }
  }

  /** A hit takes at most its own breakpoint out, and its thread goes on the step. */
  lemma OutStepBegins(o: seq<byte>, sites: iset<nat>, w: World, tid: int, va: nat, a: Answers)
    requires Separate(sites) && WorldOk(o, sites, w)
    requires tid in w.engine.threads && w.engine.threads[tid].stepping == None && va in w.engine.bps
    requires InStop(w.kernel, tid)
    ensures var t := HandleBreakpoint(w, tid, Some(va), a);
      && SameOthers(w, t, tid) && Over(t, tid, va)
      && forall u :: OutBp(t, u) && u != va ==> OutBp(w, u)
  {
    var t := HandleBreakpoint(w, tid, Some(va), a);
    forall u | OutBp(t, u) && u != va
      ensures OutBp(w, u)
    {
      StoreAt(w.kernel.text, va, w.engine.bps[va].orig, u);
    }
  }

  // One stop and the debt

  /** The thread steps over nothing afterwards, and no breakpoint came in or out. */
  lemma OwedLeft(w: World, t: World, tid: int)
    requires Owed(w) && SameOut(w, t) && SameOthers(w, t, tid)
    requires forall va :: !Over(t, tid, va)
    ensures Owed(t) <==> !LastOver(w, tid)
  {
    if LastOver(w, tid) {
      var va := w.engine.threads[tid].stepping.value;
      assert OutBp(t, va);
      assert !SteppedOver(t, va);
    } else {
      forall va | OutBp(t, va)
        ensures SteppedOver(t, va)
      {
        assert OutBp(w, va) && SteppedOver(w, va);
        var x :| Over(w, x, va);
        var y :| Over(w, y, va) && (x == tid ==> y != tid);
        assert Over(t, if x == tid then y else x, va);
      }
    }
  }

  lemma OwedStepEnds(w: World, t: World, tid: int, va: nat)
    requires Owed(w) && SameOthers(w, t, tid)
    requires tid in w.engine.threads && w.engine.threads[tid].stepping == Some(va)
    requires forall u :: OutBp(t, u) <==> OutBp(w, u) && u != va
    ensures Owed(t)
  {
    forall u | OutBp(t, u)
      ensures SteppedOver(t, u)
    {
      assert SteppedOver(w, u);
      var x :| Over(w, x, u);
      assert Over(t, x, u);
    }
  }

  lemma OwedStepBegins(w: World, t: World, tid: int, va: nat)
    requires Owed(w) && SameOthers(w, t, tid) && Over(t, tid, va)
    requires tid in w.engine.threads && w.engine.threads[tid].stepping == None
    requires forall u :: OutBp(t, u) && u != va ==> OutBp(w, u)
    ensures Owed(t)
  {
    forall u | OutBp(t, u)
      ensures SteppedOver(t, u)
    {
      if u == va {
        assert Over(t, tid, u);
      } else {
        assert SteppedOver(w, u);
        var x :| Over(w, x, u);
        assert Over(t, x, u);
      }
    }
  }

  /** Nothing that the debt depends on changes. */
  lemma OwedSame(w: World, t: World)
    requires SameOut(w, t) && forall x, va :: Over(t, x, va) <==> Over(w, x, va)
    ensures Owed(t) <==> Owed(w)
  {
    forall va ensures SteppedOver(t, va) <==> SteppedOver(w, va) {
      if SteppedOver(t, va) { var x :| Over(t, x, va); assert Over(w, x, va); }
      if SteppedOver(w, va) { var x :| Over(w, x, va); assert Over(t, x, va); }
    }
  }

  /** w is the state before wait4 reported the stop, t the one in which pending hooks are
      installed and the thread's flag is down. */
  ghost predicate Seen(w: World, t: World, tid: int)
  {
    && tid in w.engine.threads && tid in t.engine.threads
    && t.engine.threads[tid].stepping == w.engine.threads[tid].stepping
    && SameOut(w, t) && SameOthers(w, t, tid) && InStop(t.kernel, tid)
  }

  lemma OwedCont(o: seq<byte>, sites: iset<nat>, w: World, t: World, tid: int, a: Answers)
    requires Separate(sites) && WorldOk(o, sites, t) && Within(a, sites)
    requires Owed(w) && Seen(w, t, tid)
    ensures Owed(Cont(t, tid, a)) <==> !LastOver(w, tid)
  {
    OutCont(o, sites, t, tid, a);
    OwedLeft(w, Cont(t, tid, a), tid);
  }

  lemma OwedHandle(o: seq<byte>, sites: iset<nat>, w: World, t: World, tid: int, pc: Option<nat>, a: Answers)
    requires Separate(sites) && WorldOk(o, sites, t) && Within(a, sites)
    requires Owed(w) && Seen(w, t, tid) && SteppingOk(t.engine)
    ensures Owed(HandleBreakpoint(t, tid, pc, a))
            <==> !(LastOver(w, tid) && !a.poke(w.engine.threads[tid].stepping.value))
  {
    var h := HandleBreakpoint(t, tid, pc, a);
    match t.engine.threads[tid].stepping
    case Some(va) =>
      OutStepEnds(o, sites, t, tid, va, pc, a);
      if a.poke(va) { OwedStepEnds(w, h, tid, va); } else { OwedLeft(w, h, tid); }
    case None =>
      if pc.None? || pc.value !in t.engine.bps {
        OwedCont(o, sites, w, t, tid, a);
      } else {
        OutStepBegins(o, sites, t, tid, pc.value, a);
        OwedStepBegins(w, h, tid, pc.value);
      }
  }

  /** The reported thread with its flag down and the pending hooks installed. */
  lemma SeenStop(o: seq<byte>, sites: iset<nat>, w: World, tid: int, a: Answers)
    requires Separate(sites) && WorldOk(o, sites, w) && Within(a, sites) && SteppingOk(w.engine)
    requires tid in w.engine.threads
    ensures var r := w.(kernel := Reported(w.kernel, tid));
      var t := InstallPending(SetThread(r, tid, r.engine.threads[tid].(running := false)), tid, a);
      && tid in t.engine.threads && WorldOk(o, sites, t) && SteppingOk(t.engine) && Seen(w, t, tid)
  {
    var r := w.(kernel := Reported(w.kernel, tid));
    var s := SetThread(r, tid, r.engine.threads[tid].(running := false));
    assert SameOut(w, s) && SameOthers(w, s, tid);
    InstallPendingKeeps(s, tid, a);
    InstallPendingGrows(s, tid, a);
    InstallPendingOk(o, sites, s, tid, a);
    OutInstallPending(o, sites, s, tid, a);
    assert SameOthers(s, InstallPending(s, tid, a), tid);
  }

  /** A reported stop keeps the debt unless its thread was the last one on a step over a
      breakpoint that is out, and brk does not go back in. */
  lemma OwedStop(o: seq<byte>, sites: iset<nat>, w: World, tid: int, stop: Stop, a: Answers)
    requires Separate(sites) && WorldOk(o, sites, w) && Within(a, sites) && Owed(w)
    requires FlagInv(w, false) && tid in w.kernel.status
    ensures Owed(OnStop(w.(kernel := Reported(w.kernel, tid)), tid, stop, a))
            <==> !(LastOver(w, tid) && (stop.Trap? ==> !a.poke(w.engine.threads[tid].stepping.value)))
  {
    var r := w.(kernel := Reported(w.kernel, tid));
    if tid in w.engine.pending {
      var s := r.(engine := r.engine.(pending := r.engine.pending - {tid},
                                      threads := r.engine.threads[tid := Thread(None, false)]));
      assert SameOut(w, s) && SameOthers(w, s, tid);
      OutCont(o, sites, s, tid, a);
      OwedLeft(w, Cont(s, tid, a), tid);
    } else if tid in w.engine.threads {
      SeenStop(o, sites, w, tid, a);
      var t := InstallPending(SetThread(r, tid, r.engine.threads[tid].(running := false)), tid, a);
      match stop
      case EventStop(clone) =>
        var u := if clone.Some? then t.(engine := t.engine.(pending := t.engine.pending + {clone.value})) else t;
        assert SameOut(t, u) && SameOthers(t, u, tid);
        OwedCont(o, sites, w, u, tid, a);
      case Trap(pc) => OwedHandle(o, sites, w, t, tid, pc, a);
      case Signal => OwedCont(o, sites, w, t, tid, a);
    } else {
      OwedSame(w, OnStop(r, tid, stop, a));
    }
  }

  /** Hook commands and what the kernel does on its own. */
  lemma OwedHook(o: seq<byte>, sites: iset<nat>, w: World, spec: HookSpec, chosen: Option<int>, a: Answers)
    requires Separate(sites) && WorldOk(o, sites, w) && Within(a, sites)
    ensures Owed(Install(w, spec, chosen, a)) <==> Owed(w)
  {
    if chosen.Some? { OutInstallThread(o, sites, w, chosen.value, spec, a); }
    OwedSame(w, Install(w, spec, chosen, a));
  }

  lemma OwedChange(w: World, c: Change)
    requires Owed(w) && CanChange(w.kernel, w.engine, c)
    ensures Owed(w.(kernel := ApplyChange(w.kernel, c))) <==> !(c.Vanish? && LastOver(w, c.tid))
  {
    var t := w.(kernel := ApplyChange(w.kernel, c));
    assert SameOut(w, t);
    if c.Vanish? {
      OwedLeft(w, t, c.tid);
    } else {
      OwedSame(w, t);
    }
  }
}
