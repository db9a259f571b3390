/** The scan functions: they walk directories and archives, submit what looks like a
    library, wait for the tasks and add up what they counted. */
module ScanWalk {
  import opened ScanTask

  /** What a task has counted, once its done channel is closed. */
  datatype Counted = Counted(info: ScanInfo, errs: seq<Error>)

  type Finished = c: Counted | Balanced(c.info, c.errs, 0) witness Counted(NOTHING, [])

  /** A task that a shutdown dropped, or that a worker processed and that saw this. */
  datatype Task = Dropped | Processed(key: FileKey, seen: Observed)

  /** What it has counted is balanced in either case. */
  function FinishedOf(t: Task): (c: Finished)
    ensures t.Dropped? ==> Zero(c.info)
    ensures t.Processed? ==> c.info.file.total == 1
  {
    match t
    case Dropped => Counted(NOTHING, [])
    case Processed(key, seen) =>
      ProcessBalanced(key, seen);
      Counted(Process(key, seen).info, Process(key, seen).errs)
  }

  /** What submitTask returns: an error, which may say that the file does not exist; nil
      after a shutdown; or a task, which may be shared. */
  datatype Submitted = Refused(err: Error, notExist: bool) | ShutDown | Accepted(task: Task)

  /** Entries of an archive. lib and likely are what soRe and bsslNameRe say of the name,
      extracted is that a compressed entry has been extracted next to the archive. */
  datatype Members = NoMember | Member(lib: bool, likely: bool, extracted: bool, submitted: Submitted, rest: Members)

  datatype Archive = NotOpened(err: Error) | Opened(members: Members)

  datatype Entries = NoEntry | SubDir(dir: Listing, rest: Entries) | Lib(likely: bool, submitted: Submitted, rest: Entries)
                   | Zip(archive: Archive, rest: Entries) | Other(rest: Entries)

  datatype Listing = NotListed(err: Error) | Listed(entries: Entries)

  /** One of the standard directories. */
  datatype Root = Missing | StatFailed(err: Error) | Present(dir: Listing)

  // What a walk comes to: the failures on the way, and the tasks to wait for

  function Refusal(s: Submitted): seq<Error> { if s.Refused? then [s.err] else [] }

  function TaskOf(s: Submitted): seq<Finished> { if s.Accepted? then [FinishedOf(s.task)] else [] }

  predicate Wanted(m: Members, all: bool)
    requires m.Member?
  {
    m.lib && (all || m.likely) && !m.extracted
  }

  function MemberFailures(m: Members, all: bool): seq<Error>
  {
    if m.NoMember? then []
    else (if Wanted(m, all) then Refusal(m.submitted) else []) + MemberFailures(m.rest, all)
  }

  function MemberTasks(m: Members, all: bool): seq<Finished>
  {
    if m.NoMember? then []
    else (if Wanted(m, all) then TaskOf(m.submitted) else []) + MemberTasks(m.rest, all)
  }

  function ArchiveFailures(a: Archive, all: bool): seq<Error>
  {
    if a.NotOpened? then [a.err] else MemberFailures(a.members, all)
  }

  function ArchiveTasks(a: Archive, all: bool): seq<Finished>
  {
    if a.NotOpened? then [] else MemberTasks(a.members, all)
  }

  /** What the first entry comes to. */
  function EntryFailure(e: Entries, recursive: bool, all: bool): seq<Error>
    decreases e, 0
  {
    match e
    case SubDir(dir, _) => if recursive then Failures(dir, true, all) else []
    case Lib(likely, submitted, _) => if all || likely then Refusal(submitted) else []
    case Zip(archive, _) => ArchiveFailures(archive, all)
    case _ => []
  }

  function EntryTask(e: Entries, recursive: bool, all: bool): seq<Finished>
    decreases e, 0
  {
    match e
    case SubDir(dir, _) => if recursive then Tasks(dir, true, all) else []
    case Lib(likely, submitted, _) => if all || likely then TaskOf(submitted) else []
    case Zip(archive, _) => ArchiveTasks(archive, all)
    case _ => []
  }

  function EntryFailures(e: Entries, recursive: bool, all: bool): seq<Error>
    decreases e, 1
  {
    if e.NoEntry? then [] else EntryFailure(e, recursive, all) + EntryFailures(e.rest, recursive, all)
  }

  function EntryTasks(e: Entries, recursive: bool, all: bool): seq<Finished>
    decreases e, 1
  {
    if e.NoEntry? then [] else EntryTask(e, recursive, all) + EntryTasks(e.rest, recursive, all)
  }

  function Failures(dir: Listing, recursive: bool, all: bool): seq<Error>
    decreases dir, 2
  {
    if dir.NotListed? then [dir.err] else EntryFailures(dir.entries, recursive, all)
  }

  function Tasks(dir: Listing, recursive: bool, all: bool): seq<Finished>
    decreases dir, 2
  {
    if dir.NotListed? then [] else EntryTasks(dir.entries, recursive, all)
  }

  function RootFailure(root: Root, all: bool): seq<Error>
  {
    match root
    case Missing => []
    case StatFailed(err) => [err]
    case Present(dir) => Failures(dir, true, all)
  }

  function RootTask(root: Root, all: bool): seq<Finished> { if root.Present? then Tasks(root.dir, true, all) else [] }

  function RootFailures(roots: seq<Root>, all: bool): seq<Error>
  {
    if |roots| == 0 then [] else RootFailure(roots[0], all) + RootFailures(roots[1..], all)
  }

  function RootTasks(roots: seq<Root>, all: bool): seq<Finished>
  {
    if |roots| == 0 then [] else RootTask(roots[0], all) + RootTasks(roots[1..], all)
  }

  function Sum(tasks: seq<Finished>): ScanInfo
  {
    if |tasks| == 0 then NOTHING else Add(tasks[0].info, Sum(tasks[1..]))
  }

  function AllErrs(tasks: seq<Finished>): seq<Error>
  {
    if |tasks| == 0 then [] else tasks[0].errs + AllErrs(tasks[1..])
  }

  /** n failures, each counted once in total and once as an error. */
  function Failing(n: nat): ScanInfo { ScanInfo(Counts(n, 0, 0, 0, n), NONE) }

  /** The three variables that a scan hands to its helpers by pointer. */
  datatype Tally = Tally(info: ScanInfo, errs: seq<Error>, tasks: seq<Finished>)

  /** The tally with some failures and tasks more. */
  function After(t: Tally, failures: seq<Error>, tasks: seq<Finished>): Tally
  {
    Tally(Add(t.info, Failing(|failures|)), t.errs + failures, t.tasks + tasks)
  }

  lemma AfterNothing(t: Tally)
    ensures After(t, [], []) == t
  {
    AddZero(t.info, Failing(0));
  }

  lemma AfterBoth(t: Tally, f: seq<Error>, m: seq<Finished>, g: seq<Error>, n: seq<Finished>)
    ensures After(After(t, f, m), g, n) == After(t, f + g, m + n)
  {}

  // What is submitted

  /** A file that a walk comes to: a library on its own or in an archive, or another member
      of an archive. */
  datatype Candidate = Candidate(lib: bool, likely: bool, extracted: bool, submitted: Submitted)

  function MemberCandidates(m: Members): seq<Candidate>
  {
    if m.NoMember? then [] else [Candidate(m.lib, m.likely, m.extracted, m.submitted)] + MemberCandidates(m.rest)
  }

  function ArchiveCandidates(a: Archive): seq<Candidate> { if a.Opened? then MemberCandidates(a.members) else [] }

  /** All of them, in the order of the walk. */
  function EntryCandidates(e: Entries, recursive: bool): seq<Candidate>
    decreases e
  {
    match e
    case NoEntry => []
    case SubDir(dir, rest) => (if recursive then DirCandidates(dir, true) else []) + EntryCandidates(rest, recursive)
    case Lib(likely, submitted, rest) => [Candidate(true, likely, false, submitted)] + EntryCandidates(rest, recursive)
    case Zip(archive, rest) => ArchiveCandidates(archive) + EntryCandidates(rest, recursive)
    case Other(rest) => EntryCandidates(rest, recursive)
  }

  function DirCandidates(dir: Listing, recursive: bool): seq<Candidate>
    decreases dir
  {
    if dir.Listed? then EntryCandidates(dir.entries, recursive) else []
  }

  /** The candidates that are submitted: libraries that are not extracted next to their
      archive, with a likely name unless all are asked for. */
  function Chosen(cs: seq<Candidate>, all: bool): seq<Submitted>
  {
    if |cs| == 0 then []
    else (if cs[0].lib && !cs[0].extracted && (cs[0].likely || all) then [cs[0].submitted] else []) + Chosen(cs[1..], all)
  }

  function TasksOf(ss: seq<Submitted>): seq<Finished>
  {
    if |ss| == 0 then [] else TaskOf(ss[0]) + TasksOf(ss[1..])
  }

  function RefusalsOf(ss: seq<Submitted>): seq<Error>
  {
    if |ss| == 0 then [] else Refusal(ss[0]) + RefusalsOf(ss[1..])
  }

  lemma {:induction false} ChosenAppend(a: seq<Candidate>, b: seq<Candidate>, all: bool)
    ensures Chosen(a + b, all) == Chosen(a, all) + Chosen(b, all)
  {
    if |a| == 0 {
      assert a + b == b;
    } else {
      assert (a + b)[1..] == a[1..] + b;
      ChosenAppend(a[1..], b, all);
    }
  }

  lemma {:induction false} SubmitsAppend(a: seq<Submitted>, b: seq<Submitted>)
    ensures TasksOf(a + b) == TasksOf(a) + TasksOf(b) && RefusalsOf(a + b) == RefusalsOf(a) + RefusalsOf(b)
  {
    if |a| == 0 {
      Append(b, a);
    } else {
      SubmitsAppend(a[1..], b);
      SubmitsFirst(a[0], a[1..]);
      SubmitsFirst(a[0], a[1..] + b);
      Regroup([a[0]], a[1..], b);
      Uncons(a);
      Regroup(TaskOf(a[0]), TasksOf(a[1..]), TasksOf(b));
      Regroup(Refusal(a[0]), RefusalsOf(a[1..]), RefusalsOf(b));
    }
  }

  lemma SubmitsFirst(s: Submitted, rest: seq<Submitted>)
    ensures TasksOf([s] + rest) == TaskOf(s) + TasksOf(rest) && RefusalsOf([s] + rest) == Refusal(s) + RefusalsOf(rest)
  {
    assert ([s] + rest)[0] == s && ([s] + rest)[1..] == rest;
  }

  lemma BothChosen(a: seq<Candidate>, b: seq<Candidate>, all: bool)
    ensures TasksOf(Chosen(a + b, all)) == TasksOf(Chosen(a, all)) + TasksOf(Chosen(b, all))
    ensures RefusalsOf(Chosen(a + b, all)) == RefusalsOf(Chosen(a, all)) + RefusalsOf(Chosen(b, all))
  {
    ChosenAppend(a, b, all);
    SubmitsAppend(Chosen(a, all), Chosen(b, all));
  }

  lemma OneChosen(c: Candidate, all: bool)
    ensures var chosen := c.lib && !c.extracted && (c.likely || all);
      && TasksOf(Chosen([c], all)) == (if chosen then TaskOf(c.submitted) else [])
      && RefusalsOf(Chosen([c], all)) == (if chosen then Refusal(c.submitted) else [])
  {
    assert [c][1..] == [];
    assert Chosen([c], all) == (if c.lib && !c.extracted && (c.likely || all) then [c.submitted] else []) + [];
    assert [c.submitted][1..] == [];
  }

  /** Of an archive that opens, each chosen member becomes a task or a refusal. */
  lemma {:induction false} MembersExact(m: Members, all: bool)
    ensures MemberTasks(m, all) == TasksOf(Chosen(MemberCandidates(m), all))
    ensures MemberFailures(m, all) == RefusalsOf(Chosen(MemberCandidates(m), all))
  {
    if m.Member? {
      MembersExact(m.rest, all);
      var c := Candidate(m.lib, m.likely, m.extracted, m.submitted);
      OneChosen(c, all);
      BothChosen([c], MemberCandidates(m.rest), all);
    }
  }

  /** A walk waits for the tasks of exactly the chosen candidates, in its order. */
  lemma {:induction false} EntriesExact(e: Entries, recursive: bool, all: bool)
    ensures EntryTasks(e, recursive, all) == TasksOf(Chosen(EntryCandidates(e, recursive), all))
    decreases e
  {
    if !e.NoEntry? {
      EntriesExact(e.rest, recursive, all);
      match e
      case SubDir(dir, rest) =>
        var first := if recursive then DirCandidates(dir, true) else [];
        if recursive { DirExact(dir, true, all); }
        BothChosen(first, EntryCandidates(rest, recursive), all);
      case Lib(likely, submitted, rest) =>
        OneChosen(Candidate(true, likely, false, submitted), all);
        BothChosen([Candidate(true, likely, false, submitted)], EntryCandidates(rest, recursive), all);
      case Zip(archive, rest) =>
        if archive.Opened? { MembersExact(archive.members, all); }
        BothChosen(ArchiveCandidates(archive), EntryCandidates(rest, recursive), all);
      case Other(_) =>
    }
  }

  lemma DirExact(dir: Listing, recursive: bool, all: bool)
    ensures Tasks(dir, recursive, all) == TasksOf(Chosen(DirCandidates(dir, recursive), all))
    decreases dir
  {
    if dir.Listed? { EntriesExact(dir.entries, recursive, all); }
  }

  /** What cannot be listed or opened on the way. */
  function Closed(e: Entries, recursive: bool): nat
    decreases e
  {
    match e
    case NoEntry => 0
    case SubDir(dir, rest) => (if recursive then ClosedIn(dir, true) else 0) + Closed(rest, recursive)
    case Zip(archive, rest) => (if archive.NotOpened? then 1 else 0) + Closed(rest, recursive)
    case Lib(_, _, rest) => Closed(rest, recursive)
    case Other(rest) => Closed(rest, recursive)
  }

  function ClosedIn(dir: Listing, recursive: bool): nat
    decreases dir
  {
    if dir.NotListed? then 1 else Closed(dir.entries, recursive)
  }

  lemma {:induction false} EntryFailuresExact(e: Entries, recursive: bool, all: bool)
    ensures |EntryFailures(e, recursive, all)| == Closed(e, recursive) + |RefusalsOf(Chosen(EntryCandidates(e, recursive), all))|
    decreases e
  {
    if !e.NoEntry? {
      EntryFailuresExact(e.rest, recursive, all);
      match e
      case SubDir(dir, rest) =>
        var first := if recursive then DirCandidates(dir, true) else [];
        if recursive { DirFailuresExact(dir, true, all); }
        BothChosen(first, EntryCandidates(rest, recursive), all);
      case Lib(likely, submitted, rest) =>
        OneChosen(Candidate(true, likely, false, submitted), all);
        BothChosen([Candidate(true, likely, false, submitted)], EntryCandidates(rest, recursive), all);
      case Zip(archive, rest) =>
        if archive.Opened? { MembersExact(archive.members, all); }
        BothChosen(ArchiveCandidates(archive), EntryCandidates(rest, recursive), all);
      case Other(_) =>
    }
  }

  /** There is one failure for each directory that cannot be listed, each archive that does not
      open, and each chosen candidate that is refused. */
  lemma DirFailuresExact(dir: Listing, recursive: bool, all: bool)
    ensures |Failures(dir, recursive, all)| == ClosedIn(dir, recursive) + |RefusalsOf(Chosen(DirCandidates(dir, recursive), all))|
    decreases dir
  {
    if dir.Listed? { EntryFailuresExact(dir.entries, recursive, all); }
  }

  lemma {:induction false} RootsAppend(a: seq<Root>, b: seq<Root>, all: bool)
    ensures RootTasks(a + b, all) == RootTasks(a, all) + RootTasks(b, all)
    ensures RootFailures(a + b, all) == RootFailures(a, all) + RootFailures(b, all)
  {
    if |a| == 0 {
      Append(b, a);
      Append(RootTasks(b, all), RootTasks(a, all));
      Append(RootFailures(b, all), RootFailures(a, all));
    } else {
      RootsAppend(a[1..], b, all);
      RootsLonger(a[0], a[1..], b, all);
      Uncons(a);
    }
  }

  lemma RootsLonger(root: Root, a: seq<Root>, b: seq<Root>, all: bool)
    requires RootTasks(a + b, all) == RootTasks(a, all) + RootTasks(b, all)
    requires RootFailures(a + b, all) == RootFailures(a, all) + RootFailures(b, all)
    ensures RootTasks([root] + a + b, all) == RootTasks([root] + a, all) + RootTasks(b, all)
    ensures RootFailures([root] + a + b, all) == RootFailures([root] + a, all) + RootFailures(b, all)
  {
    Regroup([root], a, b);
    RootsFirst(root, a, all);
    RootsFirst(root, a + b, all);
    Regroup(RootTask(root, all), RootTasks(a, all), RootTasks(b, all));
    Regroup(RootFailure(root, all), RootFailures(a, all), RootFailures(b, all));
  }

  lemma RootsFirst(root: Root, rest: seq<Root>, all: bool)
    ensures RootTasks([root] + rest, all) == RootTask(root, all) + RootTasks(rest, all)
    ensures RootFailures([root] + rest, all) == RootFailure(root, all) + RootFailures(rest, all)
  {
    assert ([root] + rest)[0] == root && ([root] + rest)[1..] == rest;
  }

  lemma Regroup<T>(a: seq<T>, b: seq<T>, c: seq<T>)
    ensures a + b + c == a + (b + c)
  {}

  lemma Uncons<T>(a: seq<T>)
    requires |a| > 0
    ensures [a[0]] + a[1..] == a
  {}

  /** Every standard directory adds its own: one that is missing nothing, one whose stat fails
      that error, and one that is there what is chosen in it and everything below it. */
  lemma RootsExact(before: seq<Root>, root: Root, after: seq<Root>, all: bool)
    ensures var tasks, roots := RootTasks(before + [root] + after, all), before + after;
      if root.Present?
      then tasks == RootTasks(before, all) + TasksOf(Chosen(DirCandidates(root.dir, true), all)) + RootTasks(after, all)
      else tasks == RootTasks(roots, all)
    ensures var failures, others := RootFailures(before + [root] + after, all), RootFailures(before + after, all);
      if root.Missing? then failures == others
      else if root.StatFailed? then failures == RootFailures(before, all) + [root.err] + RootFailures(after, all)
      else |failures| == |others| + ClosedIn(root.dir, true) + |RefusalsOf(Chosen(DirCandidates(root.dir, true), all))|
  {
    RootsSplit(before, root, after, all);
    RootsAppend(before, after, all);
    if root.Present? {
      DirExact(root.dir, true, all);
      DirFailuresExact(root.dir, true, all);
    } else {
      Append(RootTasks(before, all), RootTask(root, all));
    }
    if root.Missing? { Append(RootFailures(before, all), RootFailure(root, all)); }
  }

  lemma RootsSplit(before: seq<Root>, root: Root, after: seq<Root>, all: bool)
    ensures RootTasks(before + [root] + after, all) == RootTasks(before, all) + RootTask(root, all) + RootTasks(after, all)
    ensures RootFailures(before + [root] + after, all) == RootFailures(before, all) + RootFailure(root, all) + RootFailures(after, all)
  {
    RootsAppend(before + [root], after, all);
    RootsAppend(before, [root], all);
    RootsFirst(root, [], all);
    Append([root], []);
    Append(RootTask(root, all), []);
    Append(RootFailure(root, all), []);
  }

  // The walk itself

  class Scan {
    var info: ScanInfo
    var errs: seq<Error>
    var tasks: seq<Finished>

    function View(): Tally
      reads this
    {
      Tally(info, errs, tasks)
    }

    constructor ()
      ensures Fresh(View())
    {
      info, errs, tasks := NOTHING, [], [];
    }

    method Fail(err: Error)
      modifies this
      ensures View() == After(old(View()), [err], [])
    {
      info := info.(file := info.file.(total := info.file.total + 1, error := info.file.error + 1));
      errs := errs + [err];
    }

    method Collect(s: Submitted)
      modifies this
      ensures View() == After(old(View()), Refusal(s), TaskOf(s))
    {
      match s
      case Refused(err, _) => Fail(err);
      case ShutDown => AfterNothing(View());
      case Accepted(t) =>
        AfterNothing(View());
        tasks := tasks + [FinishedOf(t)];
    }

    method QueueArchive(a: Archive, all: bool)
      modifies this
      ensures View() == After(old(View()), ArchiveFailures(a, all), ArchiveTasks(a, all))
    {
      if a.NotOpened? {
        Fail(a.err);
        return;
      }
      var m := a.members;
      while m.Member?
        invariant After(View(), MemberFailures(m, all), MemberTasks(m, all))
          == After(old(View()), ArchiveFailures(a, all), ArchiveTasks(a, all))
        decreases m
      {
        ghost var before := View();
        ghost var f, n := [], [];
        AfterNothing(before);
        if Wanted(m, all) {
          Collect(m.submitted);
          f, n := Refusal(m.submitted), TaskOf(m.submitted);
        }
        AfterBoth(before, f, n, MemberFailures(m.rest, all), MemberTasks(m.rest, all));
        m := m.rest;
      }
      AfterNothing(View());
    }

    method WalkEntry(e: Entries, recursive: bool, all: bool)
      requires !e.NoEntry?
      modifies this
      ensures View() == After(old(View()), EntryFailure(e, recursive, all), EntryTask(e, recursive, all))
      decreases e, 0
    {
      AfterNothing(View());
      match e
      case SubDir(dir, _) => if recursive { WalkDir(dir, recursive, all); }
      case Lib(likely, submitted, _) => if all || likely { Collect(submitted); }
      case Zip(archive, _) => QueueArchive(archive, all);
      case Other(_) =>
    }

    method WalkDir(dir: Listing, recursive: bool, all: bool)
      modifies this
      ensures View() == After(old(View()), Failures(dir, recursive, all), Tasks(dir, recursive, all))
      decreases dir, 1
    {
      if dir.NotListed? {
        Fail(dir.err);
        return;
      }
      var e := dir.entries;
      while !e.NoEntry?
        invariant e == dir.entries || e < dir.entries
        invariant After(View(), EntryFailures(e, recursive, all), EntryTasks(e, recursive, all))
          == After(old(View()), Failures(dir, recursive, all), Tasks(dir, recursive, all))
        decreases e
      {
        ghost var before := View();
        WalkEntry(e, recursive, all);
        AfterBoth(before, EntryFailure(e, recursive, all), EntryTask(e, recursive, all),
                  EntryFailures(e.rest, recursive, all), EntryTasks(e.rest, recursive, all));
        e := e.rest;
      }
      AfterNothing(View());
    }

    method WalkRoot(root: Root, all: bool)
      modifies this
      ensures View() == After(old(View()), RootFailure(root, all), RootTask(root, all))
    {
      AfterNothing(View());
      match root
      case Missing =>
      case StatFailed(err) => Fail(err);
      case Present(dir) => WalkDir(dir, true, all);
    }

    method WalkDirs(roots: seq<Root>, all: bool)
      modifies this
      ensures View() == After(old(View()), RootFailures(roots, all), RootTasks(roots, all))
    {
      assert roots[0..] == roots;
      for i := 0 to |roots|
        invariant After(View(), RootFailures(roots[i..], all), RootTasks(roots[i..], all))
          == After(old(View()), RootFailures(roots, all), RootTasks(roots, all))
      {
        ghost var before, rest := View(), roots[i + 1..];
        assert roots[i..][1..] == rest;
        WalkRoot(roots[i], all);
        AfterBoth(before, RootFailure(roots[i], all), RootTask(roots[i], all), RootFailures(rest, all), RootTasks(rest, all));
      }
      AfterNothing(View());
    }

    /** Waiting for each task and adding what it counted. */
    method Wait()
      modifies this`info, this`errs
      ensures info == Add(old(info), Sum(tasks)) && errs == old(errs) + AllErrs(tasks)
    {
      assert tasks[0..] == tasks;
      for i := 0 to |tasks|
        invariant Add(info, Sum(tasks[i..])) == Add(old(info), Sum(tasks))
        invariant errs + AllErrs(tasks[i..]) == old(errs) + AllErrs(tasks)
      {
        ghost var rest := tasks[i + 1..];
        assert tasks[i..][1..] == rest;
        AddAdd(info, tasks[i].info, Sum(rest));
        info := Add(info, tasks[i].info);
        errs := errs + tasks[i].errs;
      }
    }

    /** The loop of scanCached: a file that cannot be submitted counts as stale, and if it
        is gone it is forgotten without an error. */
    method Resubmit(subs: seq<Resubmission>) returns (forgotten: seq<string>)
      modifies this
      ensures View() == AfterSubs(old(View()), subs) && forgotten == Gone(subs)
    {
      forgotten := [];
      assert subs[0..] == subs;
      for i := 0 to |subs|
        invariant AfterSubs(View(), subs[i..]) == AfterSubs(old(View()), subs)
        invariant forgotten + Gone(subs[i..]) == Gone(subs)
      {
        ghost var before, rest := View(), subs[i + 1..];
        assert subs[i..][0] == subs[i] && subs[i..][1..] == rest;
        Uncons(subs[i..]);
        var gone := ResubmitOne(subs[i]);
        AfterFirst(before, subs[i], rest);
        Regroup(forgotten, gone, Gone(rest));
        forgotten := forgotten + gone;
      }
      AfterNone(View(), subs[|subs|..]);
      Append(forgotten, Gone(subs[|subs|..]));
    }

    method ResubmitOne(r: Resubmission) returns (gone: seq<string>)
      modifies this
      ensures View() == AfterOne(old(View()), r) && gone == GoneOne(r)
    {
      gone := [];
      match r.submitted
      case Refused(err, notExist) =>
        info := info.(file := info.file.(total := info.file.total + 1, stale := info.file.stale + 1));
        if notExist {
          gone := [r.name];
        } else {
          info := info.(file := info.file.(error := info.file.error + 1));
          errs := errs + [err];
        }
      case ShutDown =>
      case Accepted(t) => tasks := tasks + [FinishedOf(t)];
    }
  }

  lemma AddAdd(a: ScanInfo, b: ScanInfo, c: ScanInfo)
    ensures Add(Add(a, b), c) == Add(a, Add(b, c))
  {}

  // What the scans return

  /** All tasks of a scan together. */
  lemma {:induction false} SumBalanced(tasks: seq<Finished>)
    ensures Balanced(Sum(tasks), AllErrs(tasks), 0)
  {
    if |tasks| > 0 {
      SumBalanced(tasks[1..]);
      BalancedAdd(tasks[0].info, tasks[0].errs, 0, Sum(tasks[1..]), AllErrs(tasks[1..]), 0);
    }
  }

  /** What a scan returns after some failures and these tasks. */
  function Totals(failures: nat, tasks: seq<Finished>): ScanInfo { Add(Failing(failures), Sum(tasks)) }

  lemma TotalsBalanced(failures: seq<Error>, tasks: seq<Finished>)
    ensures Balanced(Totals(|failures|, tasks), failures + AllErrs(tasks), |failures|)
  {
    SumBalanced(tasks);
    FailingBalanced(failures);
    BalancedAdd(Failing(|failures|), failures, |failures|, Sum(tasks), AllErrs(tasks), 0);
  }

  lemma FailingBalanced(failures: seq<Error>)
    ensures Balanced(Failing(|failures|), failures, |failures|)
  {}

  predicate Fresh(t: Tally) { Zero(t.info) && t.errs == [] && t.tasks == [] }

  lemma FromNothing(t: Tally, failures: seq<Error>, tasks: seq<Finished>)
    requires Fresh(t)
    ensures After(t, failures, tasks) == Tally(Failing(|failures|), failures, tasks)
  {
    AddZero(Failing(|failures|), t.info);
    Prepend(t.errs, failures);
    Prepend(t.tasks, tasks);
  }

  lemma Prepend<T>(none: seq<T>, s: seq<T>)
    requires none == []
    ensures none + s == s
  {}

  /** Directories are listed and archives opened on the way; each failure to do so, or to
      submit a library, counts once in total and once as an error. */
  method ScanDir(dir: Listing, recursive: bool, all: bool) returns (info: ScanInfo, errs: seq<Error>)
    ensures var failures, tasks := Failures(dir, recursive, all), Tasks(dir, recursive, all);
      && info == Totals(|failures|, tasks) && errs == failures + AllErrs(tasks)
      && Balanced(info, errs, |failures|)
  {
    var s := new Scan();
    FromNothing(s.View(), Failures(dir, recursive, all), Tasks(dir, recursive, all));
    s.WalkDir(dir, recursive, all);
    s.Wait();
    info, errs := s.info, s.errs;
    TotalsBalanced(Failures(dir, recursive, all), Tasks(dir, recursive, all));
  }

  method ScanDirs(roots: seq<Root>, all: bool) returns (info: ScanInfo, errs: seq<Error>)
    ensures var failures, tasks := RootFailures(roots, all), RootTasks(roots, all);
      && info == Totals(|failures|, tasks) && errs == failures + AllErrs(tasks)
      && Balanced(info, errs, |failures|)
  {
    var s := new Scan();
    FromNothing(s.View(), RootFailures(roots, all), RootTasks(roots, all));
    s.WalkDirs(roots, all);
    s.Wait();
    info, errs := s.info, s.errs;
    TotalsBalanced(RootFailures(roots, all), RootTasks(roots, all));
  }

  method ScanArchive(a: Archive, all: bool) returns (info: ScanInfo, errs: seq<Error>)
    ensures var failures, tasks := ArchiveFailures(a, all), ArchiveTasks(a, all);
      && info == Totals(|failures|, tasks) && errs == failures + AllErrs(tasks)
      && Balanced(info, errs, |failures|)
  {
    var s := new Scan();
    FromNothing(s.View(), ArchiveFailures(a, all), ArchiveTasks(a, all));
    s.QueueArchive(a, all);
    s.Wait();
    info, errs := s.info, s.errs;
    TotalsBalanced(ArchiveFailures(a, all), ArchiveTasks(a, all));
  }

  /** The scan of one file returns what its task counted. */
  method ScanOne(s: Submitted) returns (info: ScanInfo, errs: seq<Error>)
    ensures info == Totals(|Refusal(s)|, TaskOf(s)) && errs == Refusal(s) + AllErrs(TaskOf(s))
    ensures Balanced(info, errs, |Refusal(s)|)
  {
    ghost var failures, tasks := Refusal(s), TaskOf(s);
    TotalsBalanced(failures, tasks);
    match s
    case Refused(err, _) =>
      OnlyFailures(failures, tasks);
      return Failing(1), [err];
    case ShutDown =>
      OnlyFailures(failures, tasks);
      NoFailures(failures, NOTHING);
      return NOTHING, [];
    case Accepted(t) =>
      var f := FinishedOf(t);
      TaskReturned(failures, tasks, f);
      return f.info, f.errs;
  }

  lemma OnlyFailures(failures: seq<Error>, tasks: seq<Finished>)
    requires tasks == []
    ensures Totals(|failures|, tasks) == Failing(|failures|) && failures + AllErrs(tasks) == failures
  {
    SumNone(tasks);
    AddZero(Failing(|failures|), Sum(tasks));
    Append(failures, AllErrs(tasks));
  }

  lemma SumNone(tasks: seq<Finished>)
    requires tasks == []
    ensures Zero(Sum(tasks)) && AllErrs(tasks) == []
  {}

  lemma Append<T>(s: seq<T>, none: seq<T>)
    requires none == []
    ensures s + none == s && none + s == s
  {}

  lemma NoFailures(failures: seq<Error>, zero: ScanInfo)
    requires failures == [] && Zero(zero)
    ensures Failing(|failures|) == zero
  {}

  lemma TaskReturned(failures: seq<Error>, tasks: seq<Finished>, f: Finished)
    requires failures == [] && tasks == [f]
    ensures Totals(|failures|, tasks) == f.info && failures + AllErrs(tasks) == f.errs
  {
    OneTask(failures, tasks);
  }

  lemma OneTask(failures: seq<Error>, tasks: seq<Finished>)
    requires failures == [] && |tasks| == 1
    ensures Totals(|failures|, tasks) == tasks[0].info && failures + AllErrs(tasks) == tasks[0].errs
  {
    AddZero(tasks[0].info, Sum(tasks[1..]));
    AddZero(tasks[0].info, Failing(|failures|));
    assert failures + (tasks[0].errs + AllErrs(tasks[1..])) == tasks[0].errs;
  }

  // Scanning what is cached

  /** What submitting the cached names comes to. */
  datatype Resubmission = Resubmission(name: string, submitted: Submitted)

  function GoneOne(r: Resubmission): seq<string> { if r.submitted.Refused? && r.submitted.notExist then [r.name] else [] }

  function ErrorOne(r: Resubmission): seq<Error>
  {
    if r.submitted.Refused? && !r.submitted.notExist then [r.submitted.err] else []
  }

  function Gone(subs: seq<Resubmission>): seq<string>
  {
    if |subs| == 0 then []
    else GoneOne(subs[0]) + Gone(subs[1..])
  }

  function CachedErrors(subs: seq<Resubmission>): seq<Error>
  {
    if |subs| == 0 then []
    else ErrorOne(subs[0]) + CachedErrors(subs[1..])
  }

  function CachedTasks(subs: seq<Resubmission>): seq<Finished>
  {
    if |subs| == 0 then [] else TaskOf(subs[0].submitted) + CachedTasks(subs[1..])
  }

  /** The tally with some cached files that could not be submitted, with or without an
      error, and tasks more. */
  function AfterCached(t: Tally, errs: seq<Error>, gone: nat, tasks: seq<Finished>): Tally
  {
    Tally(Add(t.info, Untried(|errs|, gone)), t.errs + errs, t.tasks + tasks)
  }

  /** Cached files that could not be submitted. */
  function Untried(errs: nat, gone: nat): ScanInfo { ScanInfo(Counts(errs + gone, 0, errs + gone, 0, errs), NONE) }

  lemma CachedNothing(t: Tally)
    ensures AfterCached(t, [], 0, []) == t
  {
    AddZero(t.info, Untried(0, 0));
  }

  function AfterSubs(t: Tally, subs: seq<Resubmission>): Tally
  {
    AfterCached(t, CachedErrors(subs), |Gone(subs)|, CachedTasks(subs))
  }

  lemma AfterNone(t: Tally, subs: seq<Resubmission>)
    requires subs == []
    ensures AfterSubs(t, subs) == t && Gone(subs) == []
  {
    CachedNothing(t);
  }

  function AfterOne(t: Tally, r: Resubmission): Tally
  {
    AfterCached(t, ErrorOne(r), |GoneOne(r)|, TaskOf(r.submitted))
  }

  lemma AfterFirst(t: Tally, r: Resubmission, rest: seq<Resubmission>)
    ensures AfterSubs(AfterOne(t, r), rest) == AfterSubs(t, [r] + rest)
    ensures Gone([r] + rest) == GoneOne(r) + Gone(rest)
  {
    CachedBoth(t, ErrorOne(r), |GoneOne(r)|, TaskOf(r.submitted), CachedErrors(rest), |Gone(rest)|, CachedTasks(rest));
    SubsFirst(r, rest);
  }

  lemma SubsFirst(r: Resubmission, rest: seq<Resubmission>)
    ensures var subs := [r] + rest;
      && CachedErrors(subs) == ErrorOne(r) + CachedErrors(rest) && Gone(subs) == GoneOne(r) + Gone(rest)
      && CachedTasks(subs) == TaskOf(r.submitted) + CachedTasks(rest)
  {
    assert ([r] + rest)[0] == r && ([r] + rest)[1..] == rest;
  }

  lemma {:induction false} SubsAppend(a: seq<Resubmission>, b: seq<Resubmission>)
    ensures CachedErrors(a + b) == CachedErrors(a) + CachedErrors(b) && Gone(a + b) == Gone(a) + Gone(b)
    ensures CachedTasks(a + b) == CachedTasks(a) + CachedTasks(b)
  {
    if |a| == 0 {
      Append(b, a);
      Append(CachedTasks(b), CachedTasks(a));
      Append(CachedErrors(b), CachedErrors(a));
      Append(Gone(b), Gone(a));
    } else {
      SubsAppend(a[1..], b);
      SubsLonger(a[0], a[1..], b);
      SubTasksLonger(a[0], a[1..], b);
      Uncons(a);
    }
  }

  lemma SubsLonger(r: Resubmission, a: seq<Resubmission>, b: seq<Resubmission>)
    requires CachedErrors(a + b) == CachedErrors(a) + CachedErrors(b) && Gone(a + b) == Gone(a) + Gone(b)
    ensures CachedErrors([r] + a + b) == CachedErrors([r] + a) + CachedErrors(b)
    ensures Gone([r] + a + b) == Gone([r] + a) + Gone(b)
  {
    Regroup([r], a, b);
    SubsFirst(r, a + b);
    SubsFirst(r, a);
    Regroup(ErrorOne(r), CachedErrors(a), CachedErrors(b));
    Regroup(GoneOne(r), Gone(a), Gone(b));
  }

  lemma SubTasksLonger(r: Resubmission, a: seq<Resubmission>, b: seq<Resubmission>)
    requires CachedTasks(a + b) == CachedTasks(a) + CachedTasks(b)
    ensures CachedTasks([r] + a + b) == CachedTasks([r] + a) + CachedTasks(b)
  {
    Regroup([r], a, b);
    SubsFirst(r, a + b);
    SubsFirst(r, a);
    Regroup(TaskOf(r.submitted), CachedTasks(a), CachedTasks(b));
  }

  /** What one cached name comes to: its task, or its error, or, if it was refused because it
      no longer exists, that it is forgotten. */
  lemma CachedExact(before: seq<Resubmission>, r: Resubmission, after: seq<Resubmission>)
    ensures var subs, s := before + [r] + after, r.submitted;
      && CachedErrors(subs) == CachedErrors(before) + (if s.Refused? && !s.notExist then [s.err] else []) + CachedErrors(after)
      && Gone(subs) == Gone(before) + (if s.Refused? && s.notExist then [r.name] else []) + Gone(after)
      && CachedTasks(subs) == CachedTasks(before) + (if s.Accepted? then [FinishedOf(s.task)] else []) + CachedTasks(after)
  {
    SubsAppend(before + [r], after);
    SubsAppend(before, [r]);
    SubsFirst(r, []);
    Append([r], []);
    Append(ErrorOne(r), []);
    Append(GoneOne(r), []);
    Append(TaskOf(r.submitted), []);
  }

  lemma CachedBoth(t: Tally, e: seq<Error>, g: nat, m: seq<Finished>, f: seq<Error>, h: nat, n: seq<Finished>)
    ensures AfterCached(AfterCached(t, e, g, m), f, h, n) == AfterCached(t, e + f, g + h, m + n)
  {}

  lemma UntriedBalanced(errs: seq<Error>, gone: nat)
    ensures Balanced(Untried(|errs|, gone), errs, 0)
  {}

  /** What scanning the cached names returns. */
  function CachedInfo(subs: seq<Resubmission>): ScanInfo
  {
    Add(Untried(|CachedErrors(subs)|, |Gone(subs)|), Sum(CachedTasks(subs)))
  }

  function CachedErrs(subs: seq<Resubmission>): seq<Error> { CachedErrors(subs) + AllErrs(CachedTasks(subs)) }

  /** A cached file that cannot be submitted counts as stale, so that there are no other
      failures to count. */
  lemma CachedBalanced(subs: seq<Resubmission>)
    ensures Balanced(CachedInfo(subs), CachedErrs(subs), 0)
  {
    var tasks := CachedTasks(subs);
    UntriedBalanced(CachedErrors(subs), |Gone(subs)|);
    SumBalanced(tasks);
    BalancedAdd(Untried(|CachedErrors(subs)|, |Gone(subs)|), CachedErrors(subs), 0, Sum(tasks), AllErrs(tasks), 0);
  }

  lemma FromFresh(t: Tally, subs: seq<Resubmission>)
    requires Fresh(t)
    ensures AfterSubs(t, subs) == Tally(Untried(|CachedErrors(subs)|, |Gone(subs)|), CachedErrors(subs), CachedTasks(subs))
  {
    AddZero(Untried(|CachedErrors(subs)|, |Gone(subs)|), t.info);
    Prepend(t.errs, CachedErrors(subs));
    Prepend(t.tasks, CachedTasks(subs));
  }

  method ScanCached(subs: seq<Resubmission>) returns (info: ScanInfo, errs: seq<Error>, forgotten: seq<string>)
    ensures info == CachedInfo(subs) && errs == CachedErrs(subs) && forgotten == Gone(subs)
    ensures Balanced(info, errs, 0)
  {
    var s := new Scan();
    FromFresh(s.View(), subs);
    forgotten := s.Resubmit(subs);
    s.Wait();
    info, errs := s.info, s.errs;
    CachedBalanced(subs);
  }
}
