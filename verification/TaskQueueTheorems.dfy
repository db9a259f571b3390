/** What holds in every run of the scanner's workers. */
module TaskQueueTheorems {
  import opened TaskQueue
  import opened TaskQueueProof

  ghost predicate Inv(s: State)
  {
    |s.workers| >= 1 && SleepInv(s) && OrderInv(s) && PlaceInv(s) && InflightInv(s)
  }

  lemma InitInv(n: nat)
    requires n >= 1
    ensures Inv(Init(n))
  {
    var s := Init(n);
    NobodyOwns(s.workers);
    assert Ids(s.table.queue) == [];
  }

  lemma {:induction false} NobodyOwns(workers: seq<Worker>)
    requires forall w :: 0 <= w < |workers| ==> workers[w].Ready?
    ensures forall id: nat :: Owners(workers, id) == 0
  {
    if |workers| > 0 {
      NobodyOwns(workers[1..]);
      forall id: nat ensures Owners(workers, id) == 0 { assert Owners(workers[1..], id) == 0; }
    }
  }

  lemma {:induction false} RunInv(n: nat, run: seq<State>, steps: seq<Step>, i: nat)
    requires IsRun(n, run, steps) && i < |run|
    ensures Inv(run[i])
  {
    if i == 0 {
      InitInv(n);
    } else {
      RunInv(n, run, steps, i - 1);
      var s, step := run[i - 1], steps[i - 1];
      assert Enabled(s, step) && run[i] == Next(s, step);
      SleepStep(s, step);
      OrderStep(s, step);
      PlaceStep(s, step);
      InflightStep(s, step);
    }
  }

  /** The table of tasks in flight holds exactly the tasks that are queued or being
      processed, and no two of them have the same key. */
  lemma InflightExact(n: nat, run: seq<State>, steps: seq<Step>, i: nat)
    requires IsRun(n, run, steps) && i < |run|
    ensures var s := run[i];
      && (forall t :: Live(s, t) <==> t.key in s.table.inflight && s.table.inflight[t.key] == t)
      && (forall t, u :: Live(s, t) && Live(s, u) && t.key == u.key ==> t == u)
      && (forall k :: k in s.table.inflight ==> s.table.inflight[k].key == k)
  {
    RunInv(n, run, steps, i);
  }

  /** The done channel of a task is closed once at most, and not while it is live. */
  lemma DoneOnce(n: nat, run: seq<State>, steps: seq<Step>, i: nat, id: nat)
    requires IsRun(n, run, steps) && i < |run|
    ensures Times(run[i].done, id) <= 1
    ensures id in run[i].done ==> id < run[i].next && forall t :: Live(run[i], t) ==> t.id != id
  {
    RunInv(n, run, steps, i);
    var s := run[i];
    AllOnce(s, id);
    if id in s.done {
      forall t | Live(s, t) ensures t.id != id {
        QueuedCounts(s.table.queue, t);
        if Busy(t) in s.workers {
          var w :| 0 <= w < |s.workers| && s.workers[w] == Busy(t);
          OwnersCount(s.workers, w, t.id);
        }
      }
    }
  }

  lemma {:induction false} HeldByNone(workers: seq<Worker>, id: nat)
    ensures Owners(workers, id) == 0 ==> forall w :: 0 <= w < |workers| ==> !Holds(workers[w], id)
  {
    if |workers| > 0 {
      HeldByNone(workers[1..], id);
      assert forall w :: 1 <= w < |workers| ==> workers[w] == workers[1..][w - 1];
    }
  }

  /** A task whose done channel is closed was taken by a worker or dropped at a shutdown,
      and not both; one that was taken has been processed, and no worker has it any more. */
  lemma DoneMeansProcessedOrDropped(n: nat, run: seq<State>, steps: seq<Step>, i: nat, id: nat)
    requires IsRun(n, run, steps) && i < |run| && id in run[i].done
    ensures id in run[i].started <==> id !in run[i].dropped
    ensures forall w :: 0 <= w < |run[i].workers| ==> !Holds(run[i].workers[w], id)
  {
    RunInv(n, run, steps, i);
    var s := run[i];
    AllOnce(s, id);
    assert Times(s.done, id) >= 1;
    assert Owners(s.workers, id) + Times(s.done, id) == Times(s.started, id) + Times(s.dropped, id);
    HeldByNone(s.workers, id);
  }

  /** Close closes the scanner and wakes all that sleep, and changes nothing else; a second
      one does nothing. */
  lemma CloseExact(s: State)
    ensures Enabled(s, Shut)
    ensures var t := Next(s, Shut);
      && t.table.closed && t.table.queue == s.table.queue && t.table.inflight == s.table.inflight
      && (t.next, t.started, t.dropped, t.done) == (s.next, s.started, s.dropped, s.done)
      && (s.table.closed ==> t == s)
      && |t.workers| == |s.workers| && (!s.table.closed ==> Asleep !in t.workers)
      && forall w :: 0 <= w < |s.workers| && !s.workers[w].Asleep? ==> t.workers[w] == s.workers[w]
  {}

  /** The scanner is open until it is closed, and closed from then on. */
  lemma {:induction false} ClosedExact(n: nat, run: seq<State>, steps: seq<Step>, i: nat)
    requires IsRun(n, run, steps) && i < |run|
    ensures run[i].table.closed <==> Shut in steps[..i]
  {
    if i > 0 {
      ClosedExact(n, run, steps, i - 1);
      assert Enabled(run[i - 1], steps[i - 1]) && run[i] == Next(run[i - 1], steps[i - 1]);
      assert steps[..i] == steps[..i - 1] + [steps[i - 1]];
    }
  }

  /** A request for a key that is not in flight makes a task exactly before the close. */
  lemma RequestExact(n: nat, run: seq<State>, steps: seq<Step>, i: nat)
    requires IsRun(n, run, steps) && i < |steps| && steps[i].Request?
    ensures var s, t, key := run[i], run[i + 1], steps[i].key;
      if key !in s.table.inflight && Shut !in steps[..i]
      then t.next == s.next + 1 && key in t.table.inflight && t.table.queue == s.table.queue + [t.table.inflight[key]]
      else t == s
  {
    ClosedExact(n, run, steps, i);
    assert Enabled(run[i], steps[i]) && run[i + 1] == Next(run[i], steps[i]);
  }

  /** Only one worker ever owns a task, so nobody else changes its info and errs. */
  lemma OneOwner(n: nat, run: seq<State>, steps: seq<Step>, i: nat, v: nat, w: nat, id: nat)
    requires IsRun(n, run, steps) && i < |run|
    requires v < |run[i].workers| && w < |run[i].workers| && Holds(run[i].workers[v], id) && Holds(run[i].workers[w], id)
    ensures v == w && id !in run[i].done
  {
    RunInv(n, run, steps, i);
    var s := run[i];
    AllOnce(s, id);
    OwnersCount(s.workers, v, id);
    if v < w { OwnedTwice(s.workers, v, w, id); }
    if w < v { OwnedTwice(s.workers, w, v, id); }
  }

  /** Tasks are processed in the order they were submitted, each once; those that are
      never processed are the last ones, and were dropped by a shutdown. */
  lemma StartedInOrder(n: nat, run: seq<State>, steps: seq<Step>, i: nat)
    requires IsRun(n, run, steps) && i < |run|
    ensures var s := run[i];
      && s.started == Upto(|s.started|)
      && (forall id :: id in s.dropped ==> |s.started| <= id < s.next && s.table.closed)
  {
    RunInv(n, run, steps, i);
    var s := run[i];
    var all := s.started + s.dropped + Ids(s.table.queue);
    assert forall j :: 0 <= j < |s.started| ==> s.started[j] == all[j];
    assert forall j :: 0 <= j < |s.dropped| ==> s.dropped[j] == all[|s.started| + j];
  }

  lemma {:induction false} SomeAwake(workers: seq<Worker>) returns (w: nat)
    requires Count(workers) > 0
    ensures w < |workers| && workers[w].Ready?
  {
    if workers[0].Ready? {
      w := 0;
    } else {
      var v := SomeAwake(workers[1..]);
      w := v + 1;
    }
  }

  predicate CanWork(s: State)
  {
    exists w :: 0 <= w < |s.workers| && (s.workers[w].Ready? || s.workers[w].Busy? || s.workers[w].Closing?)
  }

  /** A queued task never finds all workers asleep or gone. */
  lemma NoLostWakeUp(n: nat, run: seq<State>, steps: seq<Step>, i: nat)
    requires IsRun(n, run, steps) && i < |run| && run[i].table.queue != []
    ensures CanWork(run[i])
    ensures Asleep in run[i].workers ==> |run[i].table.queue| <= Count(run[i].workers)
  {
    RunInv(n, run, steps, i);
    var s := run[i];
    if Asleep in s.workers {
      var w := SomeAwake(s.workers);
    } else {
      assert s.workers[0] != Asleep && s.workers[0] != Exited;
    }
  }

  /** When no worker can take a step, every task that was ever submitted is done. */
  lemma QuietMeansDone(n: nat, run: seq<State>, steps: seq<Step>, i: nat, id: nat)
    requires IsRun(n, run, steps) && i < |run| && !CanWork(run[i]) && id < run[i].next
    ensures run[i].table.queue == [] && run[i].table.inflight == map[] && id in run[i].done
  {
    RunInv(n, run, steps, i);
    var s := run[i];
    if s.table.queue != [] { NoLostWakeUp(n, run, steps, i); }
    AllOnce(s, id);
    NoOwner(s.workers, id);
    SomeLive(s);
    assert forall t :: !Live(s, t);
  }

  lemma SomeLive(s: State)
    requires InflightInv(s)
    ensures s.table.inflight != map[] ==> exists t :: Live(s, t)
  {
    if s.table.inflight != map[] {
      var k :| k in s.table.inflight;
      assert Live(s, s.table.inflight[k]);
    }
  }

  lemma {:induction false} NoOwner(workers: seq<Worker>, id: nat)
    requires forall w :: 0 <= w < |workers| ==> !workers[w].Busy? && !workers[w].Closing?
    ensures Owners(workers, id) == 0
  {
    if |workers| > 0 { NoOwner(workers[1..], id); }
  }

  /** Once Close has waited for all workers, nothing is queued or in flight, and all that
      ever waited for a task are released. */
  lemma ExitedMeansDone(n: nat, run: seq<State>, steps: seq<Step>, i: nat, id: nat)
    requires IsRun(n, run, steps) && i < |run| && id < run[i].next
    requires forall w :: 0 <= w < |run[i].workers| ==> run[i].workers[w].Exited?
    ensures run[i].table.queue == [] && run[i].table.inflight == map[] && id in run[i].done
  {
    QuietMeansDone(n, run, steps, i, id);
  }

  // The workers come to rest

  function Left(w: Worker): nat
  {
    match w
    case Ready => 1
    case Busy(_) => 3
    case Closing(_) => 2
    case _ => 0
  }

  function LeftAll(workers: seq<Worker>): nat
  {
    if |workers| == 0 then 0 else Left(workers[0]) + LeftAll(workers[1..])
  }

  lemma {:induction false} LeftUpdate(workers: seq<Worker>, w: nat, x: Worker)
    requires w < |workers|
    ensures LeftAll(workers[w := x]) == LeftAll(workers) - Left(workers[w]) + Left(x)
  {
    if w == 0 {
      assert workers[0 := x][1..] == workers[1..];
    } else {
      LeftUpdate(workers[1..], w - 1, x);
      assert workers[w := x][1..] == workers[1..][w - 1 := x];
    }
  }

  /** How many steps the workers can still take. */
  function Measure(s: State): nat { 3 * |s.table.queue| + LeftAll(s.workers) }

  lemma WorkDecreases(s: State, step: Step)
    requires Enabled(s, step) && !step.Request? && !step.Shut?
    ensures Measure(Next(s, step)) < Measure(s)
  {
    match step
    case Look(w) => LookDecreases(s, w);
    case Finish(w) => LeftUpdate(s.workers, w, Closing(s.workers[w].task));
    case Announce(w) => LeftUpdate(s.workers, w, Ready);
  }

  lemma LookDecreases(s: State, w: nat)
    requires w < |s.workers| && s.workers[w].Ready?
    ensures Measure(NextLook(s, w)) < Measure(s)
  {
    LeftUpdate(s.workers, w, NextLook(s, w).workers[w]);
    assert NextLook(s, w).workers == s.workers[w := NextLook(s, w).workers[w]];
  }

  /** Without new requests, the workers run for a bounded number of steps; and then, as
      QuietMeansDone says, everything is done. */
  lemma {:induction false} WorkEnds(n: nat, run: seq<State>, steps: seq<Step>, i: nat, j: nat)
    requires IsRun(n, run, steps) && i <= j < |run|
    requires forall k :: i <= k < j ==> !steps[k].Request? && !steps[k].Shut?
    ensures Measure(run[j]) + (j - i) <= Measure(run[i])
  {
    if i < j {
      WorkEnds(n, run, steps, i, j - 1);
      assert Enabled(run[j - 1], steps[j - 1]) && run[j] == Next(run[j - 1], steps[j - 1]);
      WorkDecreases(run[j - 1], steps[j - 1]);
    }
  }

  /** A request for a key in flight shares the live task and queues nothing; another one
      queues exactly one new task, unless the scanner is closed. */
  lemma RequestsShare(n: nat, run: seq<State>, steps: seq<Step>, i: nat, key: Key)
    requires IsRun(n, run, steps) && i < |run|
    ensures var s := run[i];
      var (table, task) := Submit(s.table, key, s.next);
      && (s.table.closed ==> task.None? && table == s.table)
      && (!s.table.closed ==> (
            && task.Some? && task.value.key == key
            && (task.value.id < s.next <==> exists t :: Live(s, t) && t.key == key)
            && (task.value.id < s.next ==> Live(s, task.value) && table == s.table)
            && (task.value.id >= s.next ==> table.queue == s.table.queue + [task.value])))
  {
    RunInv(n, run, steps, i);
    var s := run[i];
    if !s.table.closed {
      if key in s.table.inflight {
        LiveIsOld(s, s.table.inflight[key]);
      }
    }
  }

  lemma LiveIsOld(s: State, t: Task)
    requires Inv(s) && Live(s, t)
    ensures t.id < s.next
  {
    AllOnce(s, t.id);
    QueuedCounts(s.table.queue, t);
    if Busy(t) in s.workers {
      var w :| 0 <= w < |s.workers| && s.workers[w] == Busy(t);
      OwnersCount(s.workers, w, t.id);
    }
  }
}
