/** The scanner's workers: a queue of file scans behind one mutex and one condition
    variable, tasks in flight found again by their key, and shutdown. Every critical
    section is one atomic step; a worker processes a task outside of the mutex. */
module TaskQueue {
  import opened Options

  type Key = string

  /** id tells apart tasks that had the same key at different times. */
  datatype Task = Task(id: nat, key: Key)

  /** What the mutex protects. */
  datatype Table = Table(closed: bool, queue: seq<Task>, inflight: map<Key, Task>)

  /** submitTask's critical section; None is its nil result. */
  function Submit(t: Table, key: Key, id: nat): (Table, Option<Task>)
  {
    if t.closed then (t, None)
    else if key in t.inflight then (t, Some(t.inflight[key]))
    else (Table(false, t.queue + [Task(id, key)], t.inflight[key := Task(id, key)]), Some(Task(id, key)))
  }

  function Keys(queue: seq<Task>): set<Key> { set t | t in queue :: t.key }

  /** A worker that finds the scanner closed drops what is queued. */
  function DropAll(t: Table): Table { Table(t.closed, [], t.inflight - Keys(t.queue)) }

  /** Where a worker is: about to look at the queue with the mutex held; in cond.Wait;
      in processTask; between removing its task from the table and closing done; gone. */
  datatype Worker = Ready | Asleep | Busy(task: Task) | Closing(task: Task) | Exited

  /** next is the number of tasks ever created; done, started and dropped are what
      happened to them: done channels closed, tasks popped, tasks dropped at shutdown. */
  datatype State = State(table: Table, workers: seq<Worker>, next: nat, started: seq<nat>, dropped: seq<nat>, done: seq<nat>)

  /** Request is a call of submitTask, and wake the sleeper that Signal picks if there is
      one; Shut is Close. Look, Finish and Announce are steps of worker w. */
  datatype Step = Request(key: Key, wake: nat) | Shut | Look(w: nat) | Finish(w: nat) | Announce(w: nat)

  function Init(n: nat): State { State(Table(false, [], map[]), seq(n, _ => Ready), 0, [], [], []) }

  function Ids(queue: seq<Task>): (ids: seq<nat>)
    ensures |ids| == |queue| && forall i :: 0 <= i < |queue| ==> ids[i] == queue[i].id
  {
    seq(|queue|, i requires 0 <= i < |queue| => queue[i].id)
  }

  predicate Sleeps(workers: seq<Worker>) { Asleep in workers }

  predicate Enabled(s: State, step: Step)
  {
    match step
    case Request(_, wake) => Sleeps(s.workers) ==> wake < |s.workers| && s.workers[wake].Asleep?
    case Shut => true
    case Look(w) => w < |s.workers| && s.workers[w].Ready?
    case Finish(w) => w < |s.workers| && s.workers[w].Busy?
    case Announce(w) => w < |s.workers| && s.workers[w].Closing?
  }

  /** Signal wakes one sleeper, Broadcast all. */
  function Signal(workers: seq<Worker>, wake: nat): seq<Worker>
  {
    if wake < |workers| && workers[wake].Asleep? then workers[wake := Ready] else workers
  }

  function Broadcast(workers: seq<Worker>): (r: seq<Worker>)
    ensures |r| == |workers| && forall i :: 0 <= i < |r| ==> r[i] == if workers[i].Asleep? then Ready else workers[i]
  {
    seq(|workers|, i requires 0 <= i < |workers| => if workers[i].Asleep? then Ready else workers[i])
  }

  /** Only a request that creates a task signals. */
  function NextRequest(s: State, key: Key, wake: nat): State
  {
    var (table, task) := Submit(s.table, key, s.next);
    if table == s.table then s
    else s.(table := table, next := s.next + 1, workers := Signal(s.workers, wake))
  }

  /** The loop around cond.Wait, and what follows it before the mutex is released. */
  function NextLook(s: State, w: nat): State
    requires w < |s.workers|
  {
    var t := s.table;
    if t.closed then
      s.(table := DropAll(t), workers := s.workers[w := Exited],
         dropped := s.dropped + Ids(t.queue), done := s.done + Ids(t.queue))
    else if t.queue == [] then s.(workers := s.workers[w := Asleep])
    else
      s.(table := t.(queue := t.queue[1..]), workers := s.workers[w := Busy(t.queue[0])],
         started := s.started + [t.queue[0].id])
  }

  function Next(s: State, step: Step): State
    requires Enabled(s, step)
  {
    match step
    case Request(key, wake) => NextRequest(s, key, wake)
    case Shut => if s.table.closed then s else s.(table := s.table.(closed := true), workers := Broadcast(s.workers))
    case Look(w) => NextLook(s, w)
    case Finish(w) =>
      var task := s.workers[w].task;
      s.(table := s.table.(inflight := s.table.inflight - {task.key}), workers := s.workers[w := Closing(task)])
    case Announce(w) => s.(workers := s.workers[w := Ready], done := s.done + [s.workers[w].task.id])
  }

  /** New starts one worker at least. */
  ghost predicate IsRun(n: nat, run: seq<State>, steps: seq<Step>)
  {
    && n >= 1 && |run| == |steps| + 1 && run[0] == Init(n)
    && forall i :: 0 <= i < |steps| ==> Enabled(run[i], steps[i]) && run[i + 1] == Next(run[i], steps[i])
  }

  // The class whose fields the mutex protects

  class Tasks {
    var closed: bool
    var queue: seq<Task>
    var inflight: map<Key, Task>
    var next: nat

    function View(): Table
      reads this
    {
      Table(closed, queue, inflight)
    }

    constructor ()
      ensures View() == Init(0).table && next == 0
    {
      closed, queue, inflight, next := false, [], map[], 0;
    }

    /** submitTask after its stat: signal says that cond.Signal is called. */
    method SubmitTask(key: Key) returns (task: Option<Task>, signal: bool)
      modifies this
      ensures (View(), task) == Submit(old(View()), key, old(next))
      ensures signal <==> View() != old(View())
      ensures next == old(next) + if signal then 1 else 0
    {
      if closed { return None, false; }
      if key in inflight { return Some(inflight[key]), false; }
      var t := Task(next, key);
      next := next + 1;
      inflight := inflight[key := t];
      queue := queue + [t];
      assert |queue| == |old(queue)| + 1;
      return Some(t), true;
    }

    /** The worker's shutdown loop: each queued task is removed and its channel closed. */
    method DropQueued() returns (closedDone: seq<nat>)
      modifies this`queue, this`inflight
      ensures View() == DropAll(old(View())) && closedDone == Ids(old(queue))
    {
      closedDone := [];
      var i := 0;
      while i < |queue|
        invariant i <= |queue| && queue == old(queue)
        invariant closedDone == Ids(queue[..i])
        invariant inflight == old(inflight) - Keys(queue[..i])
      {
        KeysNext(queue, i);
        inflight := inflight - {queue[i].key};
        closedDone := closedDone + [queue[i].id];
        i := i + 1;
      }
      assert queue[..|queue|] == queue;
      queue := [];
    }

    method Pop() returns (task: Task)
      requires !closed && queue != []
      modifies this`queue
      ensures task == old(queue)[0] && queue == old(queue)[1..]
    {
      task := queue[0];
      queue := queue[1..];
    }

    method Forget(task: Task)
      modifies this`inflight
      ensures inflight == old(inflight) - {task.key}
    {
      inflight := inflight - {task.key};
    }
  }

  lemma KeysNext(queue: seq<Task>, i: nat)
    requires i < |queue|
    ensures Keys(queue[..i + 1]) == Keys(queue[..i]) + {queue[i].key}
    ensures Ids(queue[..i + 1]) == Ids(queue[..i]) + [queue[i].id]
  {
    assert queue[..i + 1] == queue[..i] + [queue[i]];
  }
}
