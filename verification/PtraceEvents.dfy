/** The hand-over of breakpoint hits from the tracing goroutine (emit) to the iterator of
    the consumer (Events), step by step. */
module PtraceEvents {
  import opened Options
  import opened Ptrace

  /** One call of the consumer's loop body. */
  datatype Yielded = Yielded(hit: Option<Hit>, drops: nat)

  /** Where the tracing goroutine is: at the top of its loop, past the test for Close,
      inside emit with a hit taken, on its way out, or gone. */
  datatype Tracer = Top | Looking | InEmit | Leaving | Gone

  /** Where the iterator is. Holding has the hit but not yet the counter; Handing is the
      loop body and the wait to hand control back; Ending saw the tracer's end. */
  datatype Consumer =
    | Away
    | AtSelect
    | Parked
    | Holding(hit: Hit)
    | Swapped(hit: Hit, drops: nat)
    | Handing(cont: bool)
    | Testing(cont: bool)
    | Ending
    | Telling(drops: nat)

  datatype State = State(
    tracer: Tracer,
    consumer: Consumer,
    log: Log,
    counter: nat,
    stop: bool,
    fatal: bool,
    done: bool,
    canceled: bool,
    calls: seq<Yielded>)

  datatype Step =
    // the tracer
    | Look
    | Pass
    | SeeStop
    | HitAt(tid: int, va: nat)
    | LeaveEmit
    | WaitFails
    | Finish
    // the consumer
    | Call
    | Park
    | Swap
    | Yield(cont: bool)
    | HandBack
    | Test
    | SeeGone
    | SeeEnd
    | SwapLast
    | TellLast
    | SeeCanceled
    // others
    | Close
    | Cancel

  /** A send that does not block finds a receiver. */
  predicate Waits(s: State) { s.consumer.Parked? && !s.done && !s.fatal && !s.canceled }

  predicate Selects(c: Consumer) { c.AtSelect? || c.Parked? }

  predicate Enabled(s: State, e: Step)
  {
    match e
    case Look => s.tracer.Top?
    case Pass => s.tracer.Looking?
    case SeeStop => s.tracer.Looking? && s.stop
    case HitAt(_, _) => s.tracer.Looking?
    case LeaveEmit => s.tracer.InEmit? && s.stop
    case WaitFails => s.tracer.Looking?
    case Finish => s.tracer.Leaving?
    case Call => s.consumer.Away?
    case Park => s.consumer.AtSelect? && !s.done && !s.fatal && !s.canceled
    case Swap => s.consumer.Holding?
    case Yield(_) => s.consumer.Swapped?
    case HandBack => s.consumer.Handing? && s.tracer.InEmit?
    case Test => s.consumer.Testing?
    case SeeGone => s.consumer.Handing? && s.done
    case SeeEnd => Selects(s.consumer) && (s.done || s.fatal)
    case SwapLast => s.consumer.Ending?
    case TellLast => s.consumer.Telling?
    case SeeCanceled => Selects(s.consumer) && s.canceled
    case Close => true
    case Cancel => true
  }

  function Apply(s: State, e: Step): State
    requires Enabled(s, e)
  {
    match e
    case Look => s.(tracer := if s.stop then Leaving else Looking)
    case Pass => s.(tracer := Top)
    case SeeStop => s.(tracer := Leaving)
    case HitAt(tid, va) =>
      var t := s.(log := Emit(s.log, tid, va, Waits(s)));
      if Waits(s) then t.(tracer := InEmit, consumer := Holding(Hit(tid, va, true)))
      else t.(tracer := Top, counter := s.counter + 1)
    case LeaveEmit => s.(tracer := Top)
    case WaitFails => s.(tracer := Leaving, fatal := true)
    case Finish => s.(tracer := Gone, done := true)
    case Call => s.(consumer := AtSelect, canceled := false)
    case Park => s.(consumer := Parked)
    case Swap => s.(consumer := Swapped(s.consumer.hit, s.counter), counter := 0)
    case Yield(cont) => s.(consumer := Handing(cont), calls := s.calls + [Yielded(Some(s.consumer.hit), s.consumer.drops)])
    case HandBack => s.(consumer := Testing(s.consumer.cont), tracer := Top)
    case Test => s.(consumer := if s.consumer.cont && !s.canceled then AtSelect else Away)
    case SeeGone => s.(consumer := Away)
    case SeeEnd => s.(consumer := Ending)
    case SwapLast => s.(consumer := if s.counter > 0 then Telling(s.counter) else Away, counter := 0)
    case TellLast => s.(consumer := Away, calls := s.calls + [Yielded(None, s.consumer.drops)])
    case SeeCanceled => s.(consumer := Away)
    case Close => s.(stop := true)
    case Cancel => s.(canceled := true)
  }

  function Init(): State { State(Top, Away, Log([], [], 0), 0, false, false, false, false, []) }

  ghost predicate IsRun(run: seq<State>, steps: seq<Step>)
  {
    && |run| == |steps| + 1 && run[0] == Init()
    && forall i :: 0 <= i < |steps| ==> Enabled(run[i], steps[i]) && run[i + 1] == Apply(run[i], steps[i])
  }

  // What the consumer is told

  /** n hits that the consumer does not get. */
  function Missing(n: nat): (r: seq<Option<Hit>>)
    ensures |r| == n && forall i :: 0 <= i < n ==> r[i] == None
  {
    seq(n, _ => None)
  }

  /** The hits that a consumer can tell from its calls, in order: a number of hits that it
      missed, and the one it got. */
  function Told(ys: seq<Yielded>): seq<Option<Hit>>
  {
    if |ys| == 0 then []
    else
      var y := ys[|ys| - 1];
      Told(ys[..|ys| - 1]) + Missing(y.drops) + (if y.hit.Some? then [y.hit] else [])
  }

  /** What happened: every hit, those that nobody waited for as missing. */
  function Happened(hits: seq<Hit>): (r: seq<Option<Hit>>)
    ensures |r| == |hits|
    ensures forall i :: 0 <= i < |hits| ==> r[i] == if hits[i].delivered then Some(hits[i]) else None
  {
    seq(|hits|, i requires 0 <= i < |hits| => if hits[i].delivered then Some(hits[i]) else None)
  }

  /** What the consumer is about to be told, and the counter. */
  function Untold(s: State): seq<Option<Hit>>
  {
    match s.consumer
    case Holding(hit) => Missing(s.counter) + [Some(hit)]
    case Swapped(hit, drops) => Missing(drops) + [Some(hit)] + Missing(s.counter)
    case Telling(drops) => Missing(drops) + Missing(s.counter)
    case _ => Missing(s.counter)
  }

  predicate Held(c: Consumer) { c.Holding? || c.Swapped? || c.Handing? }

  predicate Inv(s: State)
  {
    Happened(s.log.hits) == Told(s.calls) + Untold(s) && Stages(s)
  }

  /** While the consumer has a hit, the tracer waits for it or has seen Close; and a
      consumer that saw the end has seen the tracer's last hit. */
  predicate Stages(s: State)
  {
    && s.log.dropped + |s.log.yielded| == |s.log.hits|
    && (s.tracer.InEmit? ==> Held(s.consumer))
    && (Held(s.consumer) ==> s.tracer.InEmit? || (s.stop && !s.tracer.Looking?))
    && (s.done ==> s.tracer.Gone?)
    && (s.fatal ==> s.tracer.Leaving? || s.tracer.Gone?)
    && (s.consumer.Ending? || s.consumer.Telling? ==> s.done || s.fatal)
  }

  lemma ToldMore(ys: seq<Yielded>, y: Yielded)
    ensures Told(ys + [y]) == Told(ys) + Missing(y.drops) + (if y.hit.Some? then [y.hit] else [])
  {
    assert (ys + [y])[..|ys|] == ys;
  }

  lemma HappenedMore(hits: seq<Hit>, hit: Hit)
    ensures Happened(hits + [hit]) == Happened(hits) + [if hit.delivered then Some(hit) else None]
  {}

  lemma MissingMore(n: nat)
    ensures Missing(n + 1) == Missing(n) + [None] && Missing(0) == []
  {}

  lemma HitKeepsStory(s: State, tid: int, va: nat)
    requires Inv(s) && s.tracer.Looking?
    ensures var t := Apply(s, HitAt(tid, va)); Happened(t.log.hits) == Told(t.calls) + Untold(t)
  {
    HappenedMore(s.log.hits, Hit(tid, va, Waits(s)));
    MissingMore(s.counter);
    assert Untold(s) == Missing(s.counter) || s.consumer.Telling?;
  }

  lemma Regroup<T>(a: seq<T>, b: seq<T>, c: seq<T>, d: seq<T>)
    ensures a + (b + c + d) == (a + b + c) + d
  {}

  lemma YieldKeepsStory(s: State, cont: bool)
    requires s.consumer.Swapped?
    ensures var t := Apply(s, Yield(cont)); Told(t.calls) + Untold(t) == Told(s.calls) + Untold(s)
  {
    ToldMore(s.calls, Yielded(Some(s.consumer.hit), s.consumer.drops));
    Regroup(Told(s.calls), Missing(s.consumer.drops), [Some(s.consumer.hit)], Missing(s.counter));
  }

  lemma TellKeepsStory(s: State)
    requires s.consumer.Telling?
    ensures var t := Apply(s, TellLast); Told(t.calls) + Untold(t) == Told(s.calls) + Untold(s)
  {
    ToldMore(s.calls, Yielded(None, s.consumer.drops));
    Regroup(Told(s.calls), Missing(s.consumer.drops), [], Missing(s.counter));
    assert Missing(s.consumer.drops) + [] == Missing(s.consumer.drops);
  }

  lemma SwapKeepsStory(s: State, e: Step)
    requires Enabled(s, e) && (e.Swap? || e.SwapLast?)
    ensures Untold(Apply(s, e)) == Untold(s)
  {
    MissingMore(0);
    assert Missing(s.counter) + [] == Missing(s.counter);
  }

  /** Every other step but a hit leaves the story as it is. */
  lemma OtherKeepsStory(s: State, e: Step)
    requires Enabled(s, e) && !e.HitAt? && !e.Yield? && !e.TellLast? && !e.Swap? && !e.SwapLast?
    ensures Untold(Apply(s, e)) == Untold(s) && Apply(s, e).calls == s.calls && Apply(s, e).log == s.log
  {}

  lemma KeepsStory(s: State, e: Step)
    requires Inv(s) && Enabled(s, e)
    ensures var t := Apply(s, e); Happened(t.log.hits) == Told(t.calls) + Untold(t)
  {
    if e.HitAt? {
      HitKeepsStory(s, e.tid, e.va);
    } else if e.Yield? {
      YieldKeepsStory(s, e.cont);
    } else if e.TellLast? {
      TellKeepsStory(s);
    } else if e.Swap? || e.SwapLast? {
      SwapKeepsStory(s, e);
    } else {
      OtherKeepsStory(s, e);
    }
  }

  predicate OfTracer(e: Step)
  {
    e.Look? || e.Pass? || e.SeeStop? || e.HitAt? || e.LeaveEmit? || e.WaitFails? || e.Finish?
  }

  lemma TracerKeepsStages(s: State, e: Step)
    requires Stages(s) && Enabled(s, e) && OfTracer(e)
    ensures Stages(Apply(s, e))
  {}

  lemma OthersKeepStages(s: State, e: Step)
    requires Stages(s) && Enabled(s, e) && !OfTracer(e)
    ensures Stages(Apply(s, e))
  {}

  lemma StepKeeps(s: State, e: Step)
    requires Inv(s) && Enabled(s, e)
    ensures Inv(Apply(s, e))
  {
    KeepsStory(s, e);
    if OfTracer(e) { TracerKeepsStages(s, e); } else { OthersKeepStages(s, e); }
  }

  lemma {:induction false} RunKeeps(run: seq<State>, steps: seq<Step>, i: nat)
    requires IsRun(run, steps) && i < |run|
    ensures Inv(run[i])
  {
    if i > 0 {
      RunKeeps(run, steps, i - 1);
      StepKeeps(run[i - 1], steps[i - 1]);
    }
  }

  /** Whatever the tracer, the consumer, its context and Close do: the consumer's calls
      tell every hit in order, those it got and how many it missed before each, up to
      what it is being told and the counter. */
  lemma ConsumerIsTold(run: seq<State>, steps: seq<Step>)
    requires IsRun(run, steps)
    ensures var s := run[|run| - 1];
      && Happened(s.log.hits) == Told(s.calls) + Untold(s)
      && s.log.dropped + |s.log.yielded| == |s.log.hits|
  {
    RunKeeps(run, steps, |run| - 1);
  }

  /** A call with a hit: the hit is where the story puts it, and the hits just before it,
      as many as the call says, are those that nobody waited for. */
  lemma HitInItsPlace(run: seq<State>, steps: seq<Step>, k: nat)
    requires IsRun(run, steps)
    requires var s := run[|run| - 1]; k < |s.calls| && s.calls[k].hit.Some?
    ensures var s := run[|run| - 1];
      var p := |Told(s.calls[..k])| + s.calls[k].drops;
      && p < |s.log.hits| && s.log.hits[p] == s.calls[k].hit.value
      && forall i :: |Told(s.calls[..k])| <= i < p ==> !s.log.hits[i].delivered
  {
    var s := run[|run| - 1];
    RunKeeps(run, steps, |run| - 1);
    ToldPrefix(s.calls, k + 1);
    assert s.calls[..k + 1][..k] == s.calls[..k];
    var q, y := |Told(s.calls[..k])|, s.calls[k];
    assert Told(s.calls[..k + 1]) == Told(s.calls[..k]) + Missing(y.drops) + [y.hit];
    var h := Happened(s.log.hits);
    assert |Told(s.calls[..k + 1])| == q + y.drops + 1 && Told(s.calls[..k + 1]) <= Told(s.calls) <= h;
    forall i | q <= i <= q + y.drops
      ensures i < |h| && h[i] == if i < q + y.drops then None else y.hit
    {
      assert h[i] == Told(s.calls[..k + 1])[i];
    }
  }

  lemma {:induction false} ToldPrefix(ys: seq<Yielded>, k: nat)
    requires k <= |ys|
    ensures Told(ys[..k]) <= Told(ys)
  {
    if k == |ys| {
      assert ys[..k] == ys;
    } else {
      ToldPrefix(ys[..|ys| - 1], k);
      assert ys[..|ys| - 1][..k] == ys[..k];
    }
  }

  /** The tracer never waits in emit for a consumer that is not there. */
  lemma EmitIsAnswered(run: seq<State>, steps: seq<Step>)
    requires IsRun(run, steps) && run[|run| - 1].tracer.InEmit?
    ensures var s := run[|run| - 1]; Enabled(s, Swap) || Enabled(s, Yield(true)) || Enabled(s, HandBack)
  {
    RunKeeps(run, steps, |run| - 1);
  }

  // Drops that are never told

  predicate Drops(s: State, e: Step) { e.HitAt? && !Waits(s) }

  predicate Swaps(e: Step) { e.Swap? || e.SwapLast? }

  /** Some call of swap comes after the i-th step, before the n-th. */
  ghost predicate SwappedAfter(steps: seq<Step>, i: nat, n: nat)
    requires n <= |steps|
  {
    exists j :: i < j < n && Swaps(steps[j])
  }

  ghost predicate AllSwapped(run: seq<State>, steps: seq<Step>, n: nat)
    requires n <= |steps| <= |run|
  {
    forall i :: 0 <= i < n && Drops(run[i], steps[i]) ==> SwappedAfter(steps, i, n)
  }

  lemma CounterStep(s: State, e: Step)
    requires Enabled(s, e)
    ensures Apply(s, e).counter == if Drops(s, e) then s.counter + 1 else if Swaps(e) then 0 else s.counter
  {}

  lemma {:induction false} CounterExact(run: seq<State>, steps: seq<Step>, n: nat)
    requires IsRun(run, steps) && n <= |steps|
    ensures run[n].counter == 0 <==> AllSwapped(run, steps, n)
  {
    if n > 0 {
      CounterExact(run, steps, n - 1);
      var e := steps[n - 1];
      forall i | 0 <= i < n - 1
        ensures SwappedAfter(steps, i, n) <==> SwappedAfter(steps, i, n - 1) || Swaps(e)
      {
        if Swaps(e) { assert i < n - 1 < n && Swaps(steps[n - 1]); }
        if SwappedAfter(steps, i, n) && !Swaps(e) {
          var j :| i < j < n && Swaps(steps[j]);
          assert j < n - 1;
        }
      }
      CounterStep(run[n - 1], e);
      assert !SwappedAfter(steps, n - 1, n);
    }
  }

  /** Between two iterations the consumer knows every hit exactly if each one that was
      dropped is followed by a hit that it got or by an iteration that saw the end. */
  lemma AllToldExact(run: seq<State>, steps: seq<Step>)
    requires IsRun(run, steps) && run[|run| - 1].consumer.Away?
    ensures var s := run[|run| - 1];
      Told(s.calls) == Happened(s.log.hits) <==> AllSwapped(run, steps, |steps|)
  {
    var s := run[|run| - 1];
    RunKeeps(run, steps, |run| - 1);
    CounterExact(run, steps, |steps|);
    assert |Happened(s.log.hits)| == |Told(s.calls)| + s.counter;
  }

  lemma OverStep(s: State, e: Step)
    requires Enabled(s, e) && (s.tracer.Leaving? || s.tracer.Gone?)
    ensures !e.HitAt? && (Apply(s, e).tracer.Leaving? || Apply(s, e).tracer.Gone?)
  {}

  /** No hit comes after an iteration has seen the end. */
  lemma {:induction false} EndIsEnd(run: seq<State>, steps: seq<Step>, j: nat, n: nat)
    requires IsRun(run, steps) && j < n < |run| && steps[j].SwapLast?
    ensures run[n].tracer.Leaving? || run[n].tracer.Gone?
    ensures forall i :: j <= i < n ==> !steps[i].HitAt?
  {
    RunKeeps(run, steps, j);
    if n > j + 1 { EndIsEnd(run, steps, j, n - 1); }
    OverStep(run[n - 1], steps[n - 1]);
  }

  /** So an iteration that runs to the end of tracing leaves nothing untold. */
  lemma EndTellsAll(run: seq<State>, steps: seq<Step>, j: nat)
    requires IsRun(run, steps) && j < |steps| && steps[j].SwapLast?
    requires run[|run| - 1].consumer.Away?
    ensures var s := run[|run| - 1]; Told(s.calls) == Happened(s.log.hits)
  {
    EndIsEnd(run, steps, j, |steps|);
    forall i | 0 <= i < |steps| && Drops(run[i], steps[i])
      ensures SwappedAfter(steps, i, |steps|)
    {
      assert i < j && Swaps(steps[j]);
    }
    AllToldExact(run, steps);
  }

  lemma RunGrows(run: seq<State>, steps: seq<Step>, e: Step) returns (run': seq<State>, steps': seq<Step>)
    requires IsRun(run, steps) && Enabled(run[|run| - 1], e)
    ensures IsRun(run', steps') && run'[|run'| - 1] == Apply(run[|run| - 1], e)
  {
    run', steps' := run + [Apply(run[|run| - 1], e)], steps + [e];
  }

  /** An iterator that has returned because its context is done. */
  lemma CanceledIterator() returns (run: seq<State>, steps: seq<Step>)
    ensures IsRun(run, steps) && run[|run| - 1] == Init().(canceled := true)
  {
    run, steps := [Init()], [];
    run, steps := RunGrows(run, steps, Call);
    run, steps := RunGrows(run, steps, Park);
    run, steps := RunGrows(run, steps, Cancel);
    run, steps := RunGrows(run, steps, SeeCanceled);
  }

  /** But one that its context ends does not: here a hit is dropped after the iterator
      has returned, tracing ends, and no call ever tells of it. */
  lemma DropNeverTold() returns (run: seq<State>, steps: seq<Step>)
    ensures IsRun(run, steps) && run[|run| - 1].consumer.Away? && run[|run| - 1].done
    ensures run[|run| - 1].log.hits == [Hit(7, 0, false)] && run[|run| - 1].calls == []
  {
    run, steps := CanceledIterator();
    run, steps := RunGrows(run, steps, Look);
    run, steps := RunGrows(run, steps, HitAt(7, 0));
    run, steps := RunGrows(run, steps, Close);
    run, steps := RunGrows(run, steps, Look);
    run, steps := RunGrows(run, steps, Finish);
  }

  // What the flags mean

  ghost predicate Has(steps: seq<Step>, e: Step, n: nat)
    requires n <= |steps|
  {
    exists j :: 0 <= j < n && steps[j] == e
  }

  /** The context that the iteration was given is done. */
  ghost predicate CanceledSince(steps: seq<Step>, n: nat)
    requires n <= |steps|
  {
    exists j :: 0 <= j < n && steps[j] == Cancel && NoCall(steps, j + 1, n)
  }

  ghost predicate NoCall(steps: seq<Step>, from: nat, to: nat)
    requires to <= |steps|
  {
    forall k :: from <= k < to ==> steps[k] != Call
  }

  lemma FlagStep(s: State, e: Step)
    requires Enabled(s, e)
    ensures var t := Apply(s, e);
      && t.stop == (s.stop || e == Close) && t.fatal == (s.fatal || e == Step.WaitFails) && t.done == (s.done || e == Finish)
      && t.canceled == (e == Cancel || (s.canceled && e != Call))
  {}

  lemma HasNext(steps: seq<Step>, e: Step, n: nat)
    requires n < |steps|
    ensures Has(steps, e, n + 1) <==> Has(steps, e, n) || steps[n] == e
  {}

  lemma CanceledNext(steps: seq<Step>, n: nat)
    requires n < |steps|
    ensures CanceledSince(steps, n + 1) <==> steps[n] == Cancel || (CanceledSince(steps, n) && steps[n] != Call)
  {
    if CanceledSince(steps, n + 1) {
      var j :| 0 <= j < n + 1 && steps[j] == Cancel && NoCall(steps, j + 1, n + 1);
      if j < n { assert NoCall(steps, j + 1, n) && steps[n] != Call; }
    }
    if CanceledSince(steps, n) && steps[n] != Call {
      var j :| 0 <= j < n && steps[j] == Cancel && NoCall(steps, j + 1, n);
      assert NoCall(steps, j + 1, n + 1);
    }
    if steps[n] == Cancel { assert NoCall(steps, n + 1, n + 1); }
  }

  /** Tracing is over or being closed exactly if something ended it, and an iteration is
      canceled exactly if its own context was. */
  lemma {:induction false} FlagsExact(run: seq<State>, steps: seq<Step>, n: nat)
    requires IsRun(run, steps) && n < |run|
    ensures run[n].stop <==> Has(steps, Close, n)
    ensures run[n].fatal <==> Has(steps, Step.WaitFails, n)
    ensures run[n].done <==> Has(steps, Finish, n)
    ensures run[n].canceled <==> CanceledSince(steps, n)
  {
    if n > 0 {
      FlagsExact(run, steps, n - 1);
      FlagStep(run[n - 1], steps[n - 1]);
      HasNext(steps, Close, n - 1);
      HasNext(steps, Step.WaitFails, n - 1);
      HasNext(steps, Finish, n - 1);
      CanceledNext(steps, n - 1);
    }
  }

  /** An iterator at its select sees the end of tracing or of its context, if they have come;
      and otherwise it takes the next hit as soon as it is parked. */
  lemma SelectAnswers(s: State, tid: int, va: nat)
    requires Selects(s.consumer)
    ensures s.done || s.fatal ==> Enabled(s, SeeEnd)
    ensures s.canceled ==> Enabled(s, SeeCanceled)
    ensures !s.done && !s.fatal && !s.canceled ==>
      var parked := if s.consumer.AtSelect? then Apply(s, Park) else s;
      s.tracer.Looking? ==> Apply(parked, HitAt(tid, va)).consumer == Holding(Hit(tid, va, true))
  {}

  /** Where the loop body's answer comes from. */
  ghost predicate LastYield(steps: seq<Step>, y: nat, n: nat)
  {
    y < n <= |steps| && steps[y].Yield? && forall k :: y < k < n ==> !steps[k].Yield?
  }

  predicate Answered(c: Consumer) { c.Handing? || c.Testing? }

  lemma AnswerStep(s: State, e: Step)
    requires Enabled(s, e) && Answered(Apply(s, e).consumer)
    ensures e.Yield? ==> Apply(s, e).consumer == Handing(e.cont)
    ensures !e.Yield? ==> Answered(s.consumer) && Apply(s, e).consumer.cont == s.consumer.cont
  {}

  lemma {:induction false} AnswerFrom(run: seq<State>, steps: seq<Step>, y: nat, n: nat)
    requires IsRun(run, steps) && n < |run| && LastYield(steps, y, n) && Answered(run[n].consumer)
    ensures run[n].consumer.cont == steps[y].cont
    decreases n
  {
    assert Enabled(run[n - 1], steps[n - 1]) && run[n] == Apply(run[n - 1], steps[n - 1]);
    AnswerStep(run[n - 1], steps[n - 1]);
    if y < n - 1 {
      assert !steps[n - 1].Yield? && LastYield(steps, y, n - 1);
      AnswerFrom(run, steps, y, n - 1);
    }
  }

  /** After a hit the iterator goes on exactly if the loop body asked for more and the context
      is not done; otherwise it returns. */
  lemma GoesOnExact(run: seq<State>, steps: seq<Step>, y: nat, n: nat)
    requires IsRun(run, steps) && n < |steps| && steps[n] == Test && LastYield(steps, y, n)
    ensures run[n + 1].consumer == if steps[y].cont && !CanceledSince(steps, n) then AtSelect else Away
  {
    assert Enabled(run[n], steps[n]);
    AnswerFrom(run, steps, y, n);
    FlagsExact(run, steps, n);
  }

  predicate Telltale(s: State)
  {
    && (s.consumer.Telling? ==> s.consumer.drops > 0)
    && forall k :: 0 <= k < |s.calls| ==> s.calls[k].hit.Some? || s.calls[k].drops > 0
  }

  /** No call of the loop body is empty. */
  lemma {:induction false} NoEmptyCall(run: seq<State>, steps: seq<Step>, n: nat)
    requires IsRun(run, steps) && n < |run|
    ensures Telltale(run[n])
  {
    if n > 0 {
      NoEmptyCall(run, steps, n - 1);
      TellingStep(run[n - 1], steps[n - 1]);
    }
  }

  lemma TellingStep(s: State, e: Step)
    requires Telltale(s) && Enabled(s, e)
    ensures Telltale(Apply(s, e))
  {}

  /** A hit that is taken: the loop body gets it, and both sides go on. */
  lemma HitTaken() returns (run: seq<State>, steps: seq<Step>)
    ensures IsRun(run, steps)
    ensures var s := run[|run| - 1];
      && s.tracer.Top? && s.consumer.AtSelect? && s.counter == 0
      && s.log.hits == [Hit(7, 0, true)] && s.calls == [Yielded(Some(Hit(7, 0, true)), 0)]
  {
    run, steps := [Init()], [];
    run, steps := RunGrows(run, steps, Call);
    run, steps := RunGrows(run, steps, Park);
    run, steps := RunGrows(run, steps, Look);
    run, steps := RunGrows(run, steps, HitAt(7, 0));
    run, steps := TakenGoesOn(run, steps);
  }

  lemma TakenGoesOn(run0: seq<State>, steps0: seq<Step>) returns (run: seq<State>, steps: seq<Step>)
    requires IsRun(run0, steps0)
    requires var s := run0[|run0| - 1]; s.tracer.InEmit? && s.consumer.Holding? && s.calls == [] && !s.canceled
    ensures IsRun(run, steps)
    ensures var s, t := run0[|run0| - 1], run[|run| - 1];
      && t.tracer.Top? && t.consumer.AtSelect? && t.counter == 0 && t.log == s.log
      && t.calls == [Yielded(Some(s.consumer.hit), s.counter)]
  {
    run, steps := RunGrows(run0, steps0, Swap);
    run, steps := RunGrows(run, steps, Yield(true));
    run, steps := RunGrows(run, steps, HandBack);
    run, steps := RunGrows(run, steps, Test);
  }
}
