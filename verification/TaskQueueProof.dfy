/** Invariants of the scanner's workers, kept by every step. */
module TaskQueueProof {
  import opened TaskQueue

  // Nobody sleeps through a task

  function Awake(w: Worker): nat { if w.Ready? then 1 else 0 }

  /** How many workers are about to look at the queue. */
  function Count(workers: seq<Worker>): nat
  {
    if |workers| == 0 then 0 else Awake(workers[0]) + Count(workers[1..])
  }

  lemma {:induction false} CountUpdate(workers: seq<Worker>, w: nat, x: Worker)
    requires w < |workers|
    ensures Count(workers[w := x]) == Count(workers) - Awake(workers[w]) + Awake(x)
  {
    if w == 0 {
      assert workers[0 := x][1..] == workers[1..];
    } else {
      CountUpdate(workers[1..], w - 1, x);
      assert workers[w := x][1..] == workers[1..][w - 1 := x];
    }
  }

  /** While a worker sleeps, others that are awake will look at every queued task. */
  predicate SleepInv(s: State)
  {
    && (Asleep in s.workers ==> !s.table.closed && |s.table.queue| <= Count(s.workers))
    && (Exited in s.workers ==> s.table.closed && s.table.queue == [])
  }

  lemma NotIn(workers: seq<Worker>, w: nat, x: Worker, y: Worker)
    requires w < |workers|
    ensures y in workers[w := x] ==> y in workers || y == x
  {}

  lemma SleepLook(s: State, w: nat)
    requires SleepInv(s) && w < |s.workers| && s.workers[w].Ready?
    ensures SleepInv(NextLook(s, w))
  {
    var t := NextLook(s, w);
    CountUpdate(s.workers, w, t.workers[w]);
    NotIn(s.workers, w, t.workers[w], Asleep);
    NotIn(s.workers, w, t.workers[w], Exited);
    assert t.workers == s.workers[w := t.workers[w]];
    assert Exited in s.workers ==> s.table.closed;
  }

  lemma SleepRequest(s: State, key: Key, wake: nat)
    requires SleepInv(s) && Enabled(s, Request(key, wake))
    ensures SleepInv(NextRequest(s, key, wake))
  {
    if Asleep in s.workers {
      CountUpdate(s.workers, wake, Ready);
      NotIn(s.workers, wake, Ready, Exited);
    }
  }

  lemma SleepStep(s: State, step: Step)
    requires SleepInv(s) && Enabled(s, step)
    ensures SleepInv(Next(s, step))
  {
    match step
    case Request(key, wake) => SleepRequest(s, key, wake);
    case Shut =>
    case Look(w) => SleepLook(s, w);
    case Finish(w) =>
      var x := Closing(s.workers[w].task);
      CountUpdate(s.workers, w, x);
      NotIn(s.workers, w, x, Asleep);
      NotIn(s.workers, w, x, Exited);
    case Announce(w) =>
      CountUpdate(s.workers, w, Ready);
      NotIn(s.workers, w, Ready, Asleep);
      NotIn(s.workers, w, Ready, Exited);
  }

  // Each task is in one place

  function Upto(n: nat): (ids: seq<nat>)
    ensures |ids| == n && forall i :: 0 <= i < n ==> ids[i] == i
  {
    if n == 0 then [] else Upto(n - 1) + [n - 1]
  }

  /** Tasks are started in the order they were submitted, and what is dropped comes last. */
  predicate OrderInv(s: State)
  {
    && s.started + s.dropped + Ids(s.table.queue) == Upto(s.next)
    && (s.dropped != [] ==> s.table.closed)
  }

  lemma OrderStep(s: State, step: Step)
    requires OrderInv(s) && Enabled(s, step)
    ensures OrderInv(Next(s, step))
  {
    var t := Next(s, step);
    if step.Request? && t.next != s.next {
      OrderRequest(s, step.key);
    } else if step.Look? && !s.table.closed && s.table.queue != [] {
      OrderPop(s.started, s.table.queue);
    } else if step.Look? && s.table.closed {
      assert (s.started + s.dropped) + Ids(s.table.queue) == s.started + (s.dropped + Ids(s.table.queue)) + [];
    }
  }

  lemma OrderRequest(s: State, key: Key)
    requires OrderInv(s)
    ensures s.started + s.dropped + Ids(s.table.queue + [Task(s.next, key)]) == Upto(s.next + 1)
  {
    assert Ids(s.table.queue + [Task(s.next, key)]) == Ids(s.table.queue) + [s.next];
  }

  lemma OrderPop(started: seq<nat>, queue: seq<Task>)
    requires queue != []
    ensures started + [queue[0].id] + [] + Ids(queue[1..]) == started + [] + Ids(queue)
  {
    assert Ids(queue) == [queue[0].id] + Ids(queue[1..]);
  }

  predicate Holds(w: Worker, id: nat) { (w.Busy? || w.Closing?) && w.task.id == id }

  /** How many workers own the task. */
  function Owners(workers: seq<Worker>, id: nat): nat
  {
    if |workers| == 0 then 0 else (if Holds(workers[0], id) then 1 else 0) + Owners(workers[1..], id)
  }

  lemma {:induction false} OwnersUpdate(workers: seq<Worker>, w: nat, x: Worker, id: nat)
    requires w < |workers|
    ensures Owners(workers[w := x], id)
      == Owners(workers, id) - (if Holds(workers[w], id) then 1 else 0) + (if Holds(x, id) then 1 else 0)
  {
    if w == 0 {
      assert workers[0 := x][1..] == workers[1..];
    } else {
      OwnersUpdate(workers[1..], w - 1, x, id);
      assert workers[w := x][1..] == workers[1..][w - 1 := x];
    }
  }

  lemma {:induction false} OwnersSame(a: seq<Worker>, b: seq<Worker>, id: nat)
    requires |a| == |b| && forall i :: 0 <= i < |a| ==> (Holds(a[i], id) <==> Holds(b[i], id))
    ensures Owners(a, id) == Owners(b, id)
  {
    if |a| > 0 {
      assert Holds(a[0], id) <==> Holds(b[0], id);
      OwnersSame(a[1..], b[1..], id);
    }
  }

  function Times(ids: seq<nat>, id: nat): nat { multiset(ids)[id] }

  /** Every task that was started or dropped is held by one worker, or done once. */
  ghost predicate PlaceInv(s: State)
  {
    forall id: nat :: Owners(s.workers, id) + Times(s.done, id) == Times(s.started, id) + Times(s.dropped, id)
  }

  lemma PlaceLook(s: State, w: nat, id: nat)
    requires w < |s.workers| && s.workers[w].Ready?
    requires Owners(s.workers, id) + Times(s.done, id) == Times(s.started, id) + Times(s.dropped, id)
    ensures var t := NextLook(s, w);
      Owners(t.workers, id) + Times(t.done, id) == Times(t.started, id) + Times(t.dropped, id)
  {
    OwnersUpdate(s.workers, w, NextLook(s, w).workers[w], id);
    assert NextLook(s, w).workers == s.workers[w := NextLook(s, w).workers[w]];
  }

  lemma PlaceStep(s: State, step: Step)
    requires PlaceInv(s) && Enabled(s, step)
    ensures PlaceInv(Next(s, step))
  {
    var t := Next(s, step);
    forall id: nat ensures Owners(t.workers, id) + Times(t.done, id) == Times(t.started, id) + Times(t.dropped, id) {
      assert Owners(s.workers, id) + Times(s.done, id) == Times(s.started, id) + Times(s.dropped, id);
      PlaceOne(s, step, id);
    }
  }

  lemma PlaceOne(s: State, step: Step, id: nat)
    requires Enabled(s, step)
    requires Owners(s.workers, id) + Times(s.done, id) == Times(s.started, id) + Times(s.dropped, id)
    ensures var t := Next(s, step);
      Owners(t.workers, id) + Times(t.done, id) == Times(t.started, id) + Times(t.dropped, id)
  {
    match step
    case Request(key, wake) => OwnersSame(s.workers, Signal(s.workers, wake), id);
    case Shut => OwnersSame(s.workers, Broadcast(s.workers), id);
    case Look(w) => PlaceLook(s, w, id);
    case Finish(w) => OwnersUpdate(s.workers, w, Closing(s.workers[w].task), id);
    case Announce(w) => OwnersUpdate(s.workers, w, Ready, id);
  }

  lemma {:induction false} UptoOnce(n: nat, id: nat)
    ensures Times(Upto(n), id) == if id < n then 1 else 0
  {
    if n > 0 { UptoOnce(n - 1, id); }
  }

  /** Queued, held and done together are all tasks, each once. */
  lemma AllOnce(s: State, id: nat)
    requires OrderInv(s) && PlaceInv(s)
    ensures Times(Ids(s.table.queue), id) + Owners(s.workers, id) + Times(s.done, id) == if id < s.next then 1 else 0
  {
    UptoOnce(s.next, id);
    assert Times(s.started + s.dropped + Ids(s.table.queue), id)
      == Times(s.started, id) + Times(s.dropped, id) + Times(Ids(s.table.queue), id);
    assert Owners(s.workers, id) + Times(s.done, id) == Times(s.started, id) + Times(s.dropped, id);
  }

  lemma {:induction false} OwnersCount(workers: seq<Worker>, w: nat, id: nat)
    requires w < |workers| && Holds(workers[w], id)
    ensures Owners(workers, id) >= 1
  {
    if w > 0 { OwnersCount(workers[1..], w - 1, id); }
  }

  lemma QueuedCounts(queue: seq<Task>, t: Task)
    ensures t in queue ==> Times(Ids(queue), t.id) >= 1
  {
    if t in queue {
      var i :| 0 <= i < |queue| && queue[i] == t;
      assert Ids(queue)[i] == t.id;
    }
  }

  /** Two workers never own one task. */
  lemma {:induction false} OwnedTwice(workers: seq<Worker>, v: nat, w: nat, id: nat)
    requires v < w < |workers| && Holds(workers[v], id) && Holds(workers[w], id)
    ensures Owners(workers, id) >= 2
  {
    if v > 0 { OwnedTwice(workers[1..], v - 1, w - 1, id); } else { OwnersCount(workers[1..], w - 1, id); }
  }

  // The tasks in flight

  /** Queued or being processed. */
  predicate Live(s: State, t: Task) { t in s.table.queue || Busy(t) in s.workers }

  /** The table holds exactly the live tasks, each under its key, so no two of them have
      the same key. */
  ghost predicate InflightInv(s: State)
  {
    && (forall k :: k in s.table.inflight ==> s.table.inflight[k].key == k && Live(s, s.table.inflight[k]))
    && (forall t :: Live(s, t) ==> t.key in s.table.inflight && s.table.inflight[t.key] == t)
  }

  /** What is known of a task by being in one place. */
  lemma OnePlace(s: State, w: nat)
    requires OrderInv(s) && PlaceInv(s) && w < |s.workers| && s.workers[w].Busy?
    ensures s.workers[w].task !in s.table.queue
    ensures forall v :: 0 <= v < |s.workers| && v != w ==> s.workers[v] != s.workers[w]
  {
    var t := s.workers[w].task;
    AllOnce(s, t.id);
    OwnersCount(s.workers, w, t.id);
    QueuedCounts(s.table.queue, t);
    forall v | 0 <= v < |s.workers| && v != w ensures s.workers[v] != s.workers[w] {
      if s.workers[v] == s.workers[w] {
        if v < w { OwnedTwice(s.workers, v, w, t.id); } else { OwnedTwice(s.workers, w, v, t.id); }
      }
    }
  }

  lemma InflightRequest(s: State, key: Key, wake: nat)
    requires InflightInv(s) && Enabled(s, Request(key, wake))
    ensures InflightInv(NextRequest(s, key, wake))
  {
    var t := NextRequest(s, key, wake);
    assert forall x :: Busy(x) in t.workers <==> Busy(x) in s.workers by { SignalKeeps(s.workers, wake); }
    if t.next != s.next {
      var task := Task(s.next, key);
      assert forall x :: x in t.table.queue <==> x in s.table.queue || x == task;
    }
  }

  lemma SignalKeeps(workers: seq<Worker>, wake: nat)
    ensures forall x :: Busy(x) in Signal(workers, wake) <==> Busy(x) in workers
  {
    forall x ensures Busy(x) in Signal(workers, wake) <==> Busy(x) in workers {
      if Busy(x) in workers {
        var i :| 0 <= i < |workers| && workers[i] == Busy(x);
        assert Signal(workers, wake)[i] == Busy(x);
      }
    }
  }

  lemma BroadcastKeeps(workers: seq<Worker>)
    ensures forall x :: Busy(x) in Broadcast(workers) <==> Busy(x) in workers
  {
    forall x ensures Busy(x) in Broadcast(workers) <==> Busy(x) in workers {
      if Busy(x) in workers {
        var i :| 0 <= i < |workers| && workers[i] == Busy(x);
        assert Broadcast(workers)[i] == Busy(x);
      }
    }
  }

  /** A worker that was not busy becomes y. */
  lemma BusyUpdate(workers: seq<Worker>, w: nat, y: Worker)
    requires w < |workers| && !workers[w].Busy?
    ensures forall x :: Busy(x) in workers[w := y] <==> Busy(x) in workers || y == Busy(x)
  {
    forall x ensures Busy(x) in workers[w := y] <==> Busy(x) in workers || y == Busy(x) {
      if Busy(x) in workers {
        var i :| 0 <= i < |workers| && workers[i] == Busy(x);
        assert workers[w := y][i] == Busy(x);
      }
      if y == Busy(x) { assert workers[w := y][w] == y; }
    }
  }

  lemma InflightPop(s: State, w: nat)
    requires InflightInv(s) && w < |s.workers| && s.workers[w].Ready? && !s.table.closed && s.table.queue != []
    ensures InflightInv(NextLook(s, w))
  {
    var q := s.table.queue;
    BusyUpdate(s.workers, w, Busy(q[0]));
    assert forall x :: x in q <==> x == q[0] || x in q[1..];
    assert forall x :: Live(NextLook(s, w), x) <==> Live(s, x);
  }

  lemma InflightDrop(s: State, w: nat)
    requires InflightInv(s) && OrderInv(s) && PlaceInv(s) && w < |s.workers| && s.workers[w].Ready? && s.table.closed
    ensures InflightInv(NextLook(s, w))
  {
    var t := NextLook(s, w);
    BusyUpdate(s.workers, w, Exited);
    forall x | Busy(x) in s.workers ensures x.key !in Keys(s.table.queue) {
      var v :| 0 <= v < |s.workers| && s.workers[v] == Busy(x);
      OnePlace(s, v);
      assert Live(s, x);
      assert forall q :: q in s.table.queue ==> Live(s, q);
    }
    assert forall x :: Live(t, x) <==> Busy(x) in s.workers;
    assert forall k :: k in t.table.inflight ==> Busy(s.table.inflight[k]) in s.workers;
  }

  lemma InflightFinish(s: State, w: nat)
    requires InflightInv(s) && OrderInv(s) && PlaceInv(s) && Enabled(s, Finish(w))
    ensures InflightInv(Next(s, Finish(w)))
  {
    var t, task := Next(s, Finish(w)), s.workers[w].task;
    OnePlace(s, w);
    forall x ensures Live(t, x) <==> Live(s, x) && x != task {
      if Busy(x) in s.workers && x != task {
        var i :| 0 <= i < |s.workers| && s.workers[i] == Busy(x);
        assert t.workers[i] == Busy(x);
      }
    }
    assert Live(s, task);
  }

  lemma InflightStep(s: State, step: Step)
    requires InflightInv(s) && OrderInv(s) && PlaceInv(s) && Enabled(s, step)
    ensures InflightInv(Next(s, step))
  {
    match step
    case Request(key, wake) => InflightRequest(s, key, wake);
    case Shut =>
      BroadcastKeeps(s.workers);
      assert forall x :: Live(Next(s, step), x) <==> Live(s, x);
    case Look(w) =>
      if s.table.closed {
        InflightDrop(s, w);
      } else if s.table.queue != [] {
        InflightPop(s, w);
      } else {
        BusyUpdate(s.workers, w, Asleep);
        assert forall x :: Live(Next(s, step), x) <==> Live(s, x);
      }
    case Finish(w) => InflightFinish(s, w);
    case Announce(w) =>
      BusyUpdate(s.workers, w, Ready);
      assert forall x :: Live(Next(s, step), x) <==> Live(s, x);
  }
}
