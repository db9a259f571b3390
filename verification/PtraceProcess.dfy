/** The Process object, whose goroutine updates its fields in place. Each method is
    proved against the function of the same name in module Ptrace. */
module PtraceProcess {
  import opened Options
  import P = Ptrace

  lemma SomeMember(s: set<int>)
    requires s != {}
    ensures exists t :: t in s
  {
    assert (forall t: int :: t !in s) ==> s == {};
  }

  class Process {
    var threads: map<int, P.Thread>
    var pending: set<int>
    var bps: map<nat, P.Breakpoint>
    var pendingSpecs: seq<P.HookSpec>
    var kernel: P.Kernel // the tracee, which ptrace calls change
    var dropped: nat
    ghost var hits: seq<P.Hit>
    ghost var yielded: seq<P.Hit>

    ghost function View(): P.World
      reads this
    {
      P.World(P.Engine(threads, pending, bps, pendingSpecs), kernel, P.Log(hits, yielded, dropped))
    }

    constructor (text: seq<P.byte>, tids: set<int>)
      ensures View() == P.Init(text, tids).world
    {
      threads := map t | t in tids :: P.Thread(None, true);
      pending, bps, pendingSpecs := {}, map[], [];
      kernel := P.Kernel(text, map t | t in tids :: P.Running);
      dropped, hits, yielded := 0, [], [];
    }

    method PokeText(tid: int, va: nat, word: P.Word, a: P.Answers) returns (ok: bool)
      modifies this`kernel
      ensures (ok, kernel) == P.Poke(old(kernel), tid, va, word, a)
    {
      ok := P.InStop(kernel, tid) && P.Mapped(kernel, va) && a.poke(va);
      if ok {
        kernel := kernel.(text := P.Store(kernel.text, va, word));
      }
    }

    method InstallThread(tid: int, spec: P.HookSpec, a: P.Answers)
      modifies this`kernel, this`bps
      ensures View() == P.InstallThread(old(View()), tid, spec, a)
    {
      var va := a.resolve(spec);
      if va.None? || va.value in bps {
        return;
      }
      var orig := P.Peek(kernel, tid, va.value, a);
      if orig.None? {
        return;
      }
      var ok := PokeText(tid, va.value, P.BRK, a);
      if ok {
        bps := bps[va.value := P.Breakpoint(orig.value, spec)];
      }
    }

    method InstallPending(tid: int, a: P.Answers)
      modifies this`kernel, this`bps, this`pendingSpecs
      ensures View() == P.InstallPending(old(View()), tid, a)
    {
      ghost var was := View();
      assert pendingSpecs[..0] == [];
      if |pendingSpecs| == 0 {
        return;
      }
      var i := 0;
      while i < |pendingSpecs|
        invariant 0 <= i <= |pendingSpecs| && pendingSpecs == was.engine.pendingSpecs
        invariant View() == P.InstallAll(was, tid, pendingSpecs[..i], a)
      {
        InstallThread(tid, pendingSpecs[i], a);
        assert pendingSpecs[..i + 1][..i] == pendingSpecs[..i];
        i := i + 1;
      }
      assert pendingSpecs[..i] == pendingSpecs;
      pendingSpecs := [];
    }

    method Cont(tid: int, a: P.Answers)
      requires tid in threads
      modifies this`kernel, this`bps, this`pendingSpecs, this`threads
      ensures View() == P.Cont(old(View()), tid, a)
    {
      P.InstallPendingKeeps(View(), tid, a);
      InstallPending(tid, a);
      threads := threads[tid := threads[tid].(running := true)];
      kernel := P.Resume(kernel, tid, P.Running);
    }

    /** The loop that looks for a thread whose running flag is down. Go visits a map in
        any order. */
    method FindStopped() returns (chosen: Option<int>)
      ensures P.ChoiceOk(View().engine, chosen)
    {
      var rest := threads.Keys;
      while rest != {}
        invariant rest <= threads.Keys && forall t :: t in threads.Keys - rest ==> threads[t].running
        decreases rest
      {
        SomeMember(rest);
        var t :| t in rest;
        if !threads[t].running {
          return Some(t);
        }
        rest := rest - {t};
      }
      chosen := None;
    }

    method Install(spec: P.HookSpec, a: P.Answers) returns (chosen: Option<int>)
      modifies this`kernel, this`bps, this`pendingSpecs
      ensures P.ChoiceOk(old(View()).engine, chosen)
      ensures View() == P.Install(old(View()), spec, chosen, a)
    {
      chosen := FindStopped();
      if chosen.Some? {
        InstallThread(chosen.value, spec, a);
      } else {
        pendingSpecs := pendingSpecs + [spec]; // and some thread is interrupted
      }
    }

    method Emit(tid: int, va: nat, listening: bool)
      modifies this`hits, this`yielded, this`dropped
      ensures View() == old(View()).(log := P.Emit(old(View()).log, tid, va, listening))
    {
      hits := hits + [P.Hit(tid, va, listening)];
      if listening {
        yielded := yielded + [P.Hit(tid, va, listening)];
      } else {
        dropped := dropped + 1;
      }
    }

    method HandleBreakpoint(tid: int, pc: Option<nat>, a: P.Answers)
      requires tid in threads
      modifies this
      ensures View() == P.HandleBreakpoint(old(View()), tid, pc, a)
    {
      var th := threads[tid];
      if th.stepping.Some? {
        threads := threads[tid := th.(stepping := None)];
        var _ := PokeText(tid, th.stepping.value, P.BRK, a);
        Cont(tid, a);
        return;
      }
      if pc.None? {
        Cont(tid, a);
        return;
      }
      if pc.value !in bps {
        Cont(tid, a);
        return;
      }
      var bp := bps[pc.value];
      Emit(tid, pc.value, a.listening);
      var _ := PokeText(tid, pc.value, bp.orig, a);
      threads := threads[tid := th.(stepping := Some(pc.value))];
      kernel := P.Resume(kernel, tid, P.Stepping);
    }

    /** The rest of a pass of the loop once wait4 has reported a stop. */
    method OnStop(tid: int, stop: P.Stop, a: P.Answers)
      modifies this
      ensures View() == P.OnStop(old(View()), tid, stop, a)
    {
      if tid in pending {
        pending := pending - {tid};
        threads := threads[tid := P.Thread(None, false)];
        Cont(tid, a);
        return;
      }
      if tid !in threads {
        kernel := P.Resume(kernel, tid, P.Running);
        return;
      }
      threads := threads[tid := threads[tid].(running := false)];
      P.InstallPendingKeeps(View(), tid, a);
      InstallPending(tid, a);
      match stop {
        case EventStop(clone) =>
          if clone.Some? {
            pending := pending + {clone.value};
          }
          Cont(tid, a);
        case Trap(pc) => HandleBreakpoint(tid, pc, a);
        case Signal => Cont(tid, a);
      }
    }

    /** The end of the cleanup: through some thread taken for stopped, every breakpoint
        is overwritten with its saved instruction. vas is the order of the visit. */
    method Restore(a: P.Answers) returns (chosen: Option<int>, vas: seq<nat>)
      modifies this`kernel
      ensures P.ChoiceOk(old(View()).engine, chosen) && P.Visits(bps, vas)
      ensures View() == if chosen.Some? then P.RemoveAll(old(View()), chosen.value, vas, a) else old(View())
    {
      chosen := FindStopped();
      vas := [];
      ghost var was := View();
      var rest := bps.Keys;
      while rest != {}
        invariant rest <= bps.Keys && (forall va :: va in bps <==> va in rest || va in vas)
        invariant View() == was.(kernel := kernel)
        invariant View() == if chosen.Some? then P.RemoveAll(was, chosen.value, vas, a) else was
        decreases rest
      {
        var va :| va in rest;
        if chosen.Some? {
          var _ := PokeText(chosen.value, va, bps[va].orig, a);
        }
        assert (vas + [va])[..|vas|] == vas;
        vas := vas + [va];
        rest := rest - {va};
      }
    }
  }
}
