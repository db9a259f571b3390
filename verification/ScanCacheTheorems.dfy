/** What the scanner's cache can be trusted for, whatever the workers do, and what only if
    files hold still. */
module ScanCacheTheorems {
  import opened Options
  import opened ScanTask
  import opened ScanCache

  ghost predicate IsRun(world: World, run: seq<State>, steps: seq<Step>)
  {
    && |run| == |steps| + 1 && run[0].jobs == map[]
    && forall i :: 0 <= i < |steps| ==> Enabled(world, run[i], steps[i]) && run[i + 1] == Next(world, run[i], steps[i])
  }

  // Offsets belong to their hash

  ghost predicate TrueCache(world: World, c: Cache)
  {
    forall h :: h in c.offsets ==> TrueOffsets(world, h, c.offsets[h])
  }

  ghost predicate TrueJob(world: World, job: Job)
  {
    && (if job.existing.Some? then TrueIfAny(world, job.existing.value.sha256, job.existingOffsets) else job.existingOffsets.None?)
    && (!job.phase.Begun? ==> world.elf(job.key.name, job.phase.content).Some?)
    && (job.phase.Looked? ==>
          TrueIfAny(world, world.hash(world.elf(job.key.name, job.phase.content).value.data), job.phase.known))
  }

  ghost predicate TrueInv(world: World, s: State)
  {
    TrueCache(world, s.cache) && forall w :: w in s.jobs ==> TrueJob(world, s.jobs[w])
  }

  /** What a job puts into the cache is true: it comes from the cache or from the analysis. */
  lemma CommitTrue(world: World, job: Job, canceled: bool)
    requires Injective(world) && TrueJob(world, job) && job.phase.Looked?
    ensures var effect := CommitOutcome(world, job, canceled).effect;
      effect.Put? ==> TrueOffsets(world, effect.file.sha256, effect.offsets)
  {
    var e := world.elf(job.key.name, job.phase.content).value;
    var effect := CommitOutcome(world, job, canceled).effect;
    if effect.Put? && job.phase.known.None? {
      AnalyzedTrue(world, e.data, effect.offsets);
    }
  }

  lemma AnalyzedTrue(world: World, d: Data, offsets: Offsets)
    requires Injective(world) && Analyzed(world, d) == Some(offsets)
    ensures TrueOffsets(world, world.hash(d), offsets)
  {
    forall e | world.hash(e) == world.hash(d) ensures Analyzed(world, e) == Some(offsets) { assert e == d; }
  }

  lemma DecideKeeps(world: World, s: State, w: nat)
    requires TrueInv(world, s) && Enabled(world, s, Decide(w))
    ensures TrueInv(world, NextDecide(world, s, w))
  {
    var job := s.jobs[w];
    assert TrueJob(world, job);
    var o := Obs(world, job, job.phase.content, job.phase.stat, None, false);
    if !NeedsOffsets(world, job, o) { NothingPut(world, job, o); }
  }

  lemma NothingPut(world: World, job: Job, o: Observed)
    requires !NeedsOffsets(world, job, o)
    ensures !Process(job.key, o).effect.Put?
  {}

  lemma TrueStep(world: World, s: State, step: Step)
    requires Injective(world) && TrueInv(world, s) && Enabled(world, s, step)
    ensures TrueInv(world, Next(world, s, step))
  {
    match step
    case Change(_, _) =>
    case Purge =>
    case Drop(_) =>
    case Begin(w, key) =>
    case Open(w) => assert TrueJob(world, s.jobs[w]);
    case SecondStat(w) => assert TrueJob(world, s.jobs[w]);
    case Decide(w) => DecideKeeps(world, s, w);
    case Fail(w) =>
    case Commit(w, canceled) =>
      assert TrueJob(world, s.jobs[w]);
      CommitTrue(world, s.jobs[w], canceled);
  }

  lemma {:induction false} RunTrue(world: World, run: seq<State>, steps: seq<Step>, i: nat)
    requires Injective(world) && IsRun(world, run, steps) && TrueCache(world, run[0].cache) && i < |run|
    ensures TrueInv(world, run[i])
  {
    if i > 0 {
      RunTrue(world, run, steps, i - 1);
      assert Enabled(world, run[i - 1], steps[i - 1]) && run[i] == Next(world, run[i - 1], steps[i - 1]);
      TrueStep(world, run[i - 1], steps[i - 1]);
    }
  }

  /** Under any interleaving, and however files change meanwhile, the offsets cached for a
      hash are what analyzing the elf with that hash finds. */
  lemma OffsetsStayTrue(world: World, run: seq<State>, steps: seq<Step>, i: nat, h: Hash, d: Data)
    requires Injective(world) && IsRun(world, run, steps) && TrueCache(world, run[0].cache) && i < |run|
    requires h in run[i].cache.offsets && world.hash(d) == h
    ensures Analyzed(world, d) == Some(run[i].cache.offsets[h])
  {
    RunTrue(world, run, steps, i);
    assert TrueOffsets(world, h, run[i].cache.offsets[h]);
  }

  // Metadata and contents

  /** Two contents hold the same elf under a name. */
  predicate SameElf(world: World, name: string, a: Content, b: Content)
  {
    world.elf(name, a).Some? && world.elf(name, a) == world.elf(name, b)
  }

  /** The content of the file that has the metadata which a job stores: those of its second
      stat, or those of the request if that failed. */
  function MetaContent(world: World, job: Job): Content
    requires job.phase.Statted? || job.phase.Looked?
  {
    var path := world.outer(job.key.name);
    match job.phase.stat
    case Some(st) => world.content(path, st.size, MakeUnixTime(st.modtime))
    case None => world.content(path, job.key.size, MakeUnixTime(ModTime(job.key.modtime, 0)))
  }

  /** What a job stores describes the content it opened; but it stores it with the metadata
      of a later stat. So the entry is coherent exactly if the file that has this metadata
      holds the elf that was opened. */
  lemma StoredCoherentExact(world: World, job: Job, canceled: bool)
    requires Injective(world) && job.phase.Looked? && world.elf(job.key.name, job.phase.content).Some?
    requires CommitOutcome(world, job, canceled).effect.Put?
    ensures var f := CommitOutcome(world, job, canceled).effect.file;
      && f.name == job.key.name && Describes(world, f, job.phase.content)
      && (Coherent(world, f) <==> SameElf(world, job.key.name, job.phase.content, MetaContent(world, job)))
  {
    var o := Obs(world, job, job.phase.content, job.phase.stat, job.phase.known, canceled);
    PutNeeds(job.key, o);
  }

  lemma PutNeeds(key: FileKey, o: Observed)
    requires Process(key, o).effect.Put?
    ensures o.elf.Ok? && o.hash.Ok? && o.maybe == Ok(true)
    ensures Process(key, o).effect.file == NewFile(key, o, o.elf.value, o.hash.value)
  {}

  /** A file on disk has the content that its metadata tells, and was not modified at the
      zero time, which the cache cannot tell from the epoch. */
  predicate Genuine(world: World, path: string, f: OnDisk)
  {
    f.modtime != ModTime(ZERO_SECONDS, 0) && f.content == world.content(path, f.size, f.modtime.sec)
  }

  predicate GenuineDisk(world: World, disk: map<string, OnDisk>)
  {
    forall p :: p in disk ==> Genuine(world, p, disk[p])
  }

  // Where a stored entry comes from

  /** A step of the worker w. */
  predicate Own(step: Step, w: nat)
  {
    match step
    case Begin(v, _) => v == w
    case Open(v) => v == w
    case SecondStat(v) => v == w
    case Decide(v) => v == w
    case Fail(v) => v == w
    case Commit(v, _) => v == w
    case _ => false
  }

  lemma OpenStep(world: World, s: State, step: Step, w: nat)
    requires Enabled(world, s, step) && step == Open(w)
    requires var t := Next(world, s, step); w in t.jobs && !t.jobs[w].phase.Begun?
    ensures var t, path := Next(world, s, step), world.outer(s.jobs[w].key.name);
      && t.jobs[w].key == s.jobs[w].key && path in s.disk && t.jobs[w].phase.content == s.disk[path].content
  {}

  lemma OpenedStep(world: World, s: State, step: Step, w: nat)
    requires Enabled(world, s, step) && step != Open(w)
    requires var t := Next(world, s, step); w in t.jobs && !t.jobs[w].phase.Begun?
    ensures var t := Next(world, s, step);
      && w in s.jobs && !s.jobs[w].phase.Begun? && s.jobs[w].key == t.jobs[w].key
      && s.jobs[w].phase.content == t.jobs[w].phase.content
      && (Own(step, w) ==> step.SecondStat? || step.Decide?)
  {}

  lemma StattedStep(world: World, s: State, step: Step, w: nat)
    requires Enabled(world, s, step)
    requires var t := Next(world, s, step); w in t.jobs && (t.jobs[w].phase.Statted? || t.jobs[w].phase.Looked?)
    ensures var t := Next(world, s, step);
      && w in s.jobs && s.jobs[w].key == t.jobs[w].key
      && if step == SecondStat(w) then t.jobs[w].phase.stat == StatOf(s.disk, world.outer(t.jobs[w].key.name))
         else (s.jobs[w].phase.Statted? || s.jobs[w].phase.Looked?) && s.jobs[w].phase.stat == t.jobs[w].phase.stat
              && (Own(step, w) ==> step.Decide?)
  {}

  /** The step with which w opened its file. */
  lemma {:induction false} OpenedBy(world: World, run: seq<State>, steps: seq<Step>, w: nat, n: nat) returns (o: nat)
    requires IsRun(world, run, steps) && n < |run| && w in run[n].jobs && !run[n].jobs[w].phase.Begun?
    ensures o < n && steps[o] == Open(w)
    ensures var job := run[n].jobs[w]; var path := world.outer(job.key.name);
      path in run[o].disk && job.phase.content == run[o].disk[path].content
    ensures forall j :: o < j < n && Own(steps[j], w) ==> steps[j].SecondStat? || steps[j].Decide?
  {
    assert Enabled(world, run[n - 1], steps[n - 1]) && run[n] == Next(world, run[n - 1], steps[n - 1]);
    if steps[n - 1] == Open(w) {
      o := n - 1;
      OpenStep(world, run[o], steps[o], w);
    } else {
      OpenedStep(world, run[n - 1], steps[n - 1], w);
      o := OpenedBy(world, run, steps, w, n - 1);
    }
  }

  /** And the one with which it stat it again. */
  lemma {:induction false} StattedBy(world: World, run: seq<State>, steps: seq<Step>, w: nat, n: nat) returns (m: nat)
    requires IsRun(world, run, steps) && n < |run| && w in run[n].jobs
    requires run[n].jobs[w].phase.Statted? || run[n].jobs[w].phase.Looked?
    ensures m < n && steps[m] == SecondStat(w)
    ensures var job := run[n].jobs[w]; job.phase.stat == StatOf(run[m].disk, world.outer(job.key.name))
    ensures forall j :: m < j < n && Own(steps[j], w) ==> steps[j].Decide?
  {
    assert Enabled(world, run[n - 1], steps[n - 1]) && run[n] == Next(world, run[n - 1], steps[n - 1]);
    StattedStep(world, run[n - 1], steps[n - 1], w);
    if steps[n - 1] == SecondStat(w) {
      m := n - 1;
    } else {
      m := StattedBy(world, run, steps, w, n - 1);
    }
  }

  predicate GenuineChange(world: World, step: Step)
  {
    step.Change? && step.file.Some? ==> Genuine(world, step.path, step.file.value)
  }

  lemma {:induction false} RunGenuine(world: World, run: seq<State>, steps: seq<Step>, i: nat)
    requires IsRun(world, run, steps) && i < |run| && GenuineDisk(world, run[0].disk)
    requires forall j :: 0 <= j < |steps| ==> GenuineChange(world, steps[j])
    ensures GenuineDisk(world, run[i].disk)
  {
    if i > 0 {
      RunGenuine(world, run, steps, i - 1);
      assert Enabled(world, run[i - 1], steps[i - 1]) && run[i] == Next(world, run[i - 1], steps[i - 1]);
      assert GenuineChange(world, steps[i - 1]);
    }
  }

  /** In any run, on disks whose files have the content that their metadata tells: the entry
      that w stores with its i-th step is coherent exactly if the file that it found at its
      second stat holds the elf of the file that it opened; if it found none there, if the
      file that was asked for does. */
  lemma StoredCoherentRun(world: World, run: seq<State>, steps: seq<Step>, i: nat, w: nat) returns (o: nat, m: nat)
    requires Injective(world) && IsRun(world, run, steps) && GenuineDisk(world, run[0].disk)
    requires TrueCache(world, run[0].cache)
    requires forall j :: 0 <= j < |steps| ==> GenuineChange(world, steps[j])
    requires i < |steps| && steps[i].Commit? && steps[i].w == w && w in run[i].jobs && run[i].jobs[w].phase.Looked?
    requires CommitOutcome(world, run[i].jobs[w], steps[i].canceled).effect.Put?
    ensures o < m < i && steps[o] == Open(w) && steps[m] == SecondStat(w)
    ensures forall j :: o < j < i && j != m && Own(steps[j], w) ==> steps[j].Decide?
    ensures var f, key := CommitOutcome(world, run[i].jobs[w], steps[i].canceled).effect.file, run[i].jobs[w].key;
      var path := world.outer(key.name);
      && f.name == key.name && path in run[o].disk
      && (Coherent(world, f) <==>
            SameElf(world, key.name, run[o].disk[path].content,
                    if path in run[m].disk then run[m].disk[path].content
                    else world.content(path, key.size, MakeUnixTime(ModTime(key.modtime, 0)))))
  {
    var job := run[i].jobs[w];
    var path := world.outer(job.key.name);
    RunTrue(world, run, steps, i);
    assert TrueJob(world, job);
    StoredCoherentExact(world, job, steps[i].canceled);
    o := OpenedBy(world, run, steps, w, i);
    m := StattedBy(world, run, steps, w, i);
    assert Own(steps[o], w) && Own(steps[m], w);
    OneStat(world, run, steps, w, o, m, i);
    RunGenuine(world, run, steps, m);
    if path in run[m].disk { assert Genuine(world, path, run[m].disk[path]); }
  }

  /** Between opening its file and storing what it found, a worker takes one stat. */
  lemma OneStat(world: World, run: seq<State>, steps: seq<Step>, w: nat, o: nat, m: nat, n: nat)
    requires IsRun(world, run, steps) && o < n < |run| && m < n && o != m
    requires steps[o] == Open(w) && steps[m] == SecondStat(w)
    requires forall j :: o < j < n && Own(steps[j], w) ==> steps[j].SecondStat? || steps[j].Decide?
    requires forall j :: m < j < n && Own(steps[j], w) ==> steps[j].Decide?
    ensures o < m && forall j :: o < j < n && j != m && Own(steps[j], w) ==> steps[j].Decide?
  {
    assert Own(steps[o], w);
    assert !(m < o);
    forall j | o < j < n && j != m && Own(steps[j], w)
      ensures steps[j].Decide?
    {
      if j < m { NoTwoStats(world, run, steps, w, j, m); }
    }
  }

  /** A worker whose own steps are stats and decisions takes no second stat. */
  lemma NoTwoStats(world: World, run: seq<State>, steps: seq<Step>, w: nat, j: nat, m: nat)
    requires IsRun(world, run, steps) && j < m < |steps| && steps[m] == SecondStat(w)
    requires forall k :: j <= k < m && Own(steps[k], w) ==> steps[k].SecondStat? || steps[k].Decide?
    ensures steps[j] != SecondStat(w)
  {
    if steps[j] == SecondStat(w) { PastStat(world, run, steps, w, j, m); }
    assert Enabled(world, run[m], steps[m]);
  }

  lemma {:induction false} PastStat(world: World, run: seq<State>, steps: seq<Step>, w: nat, j: nat, n: nat)
    requires IsRun(world, run, steps) && j < n < |run| && steps[j] == SecondStat(w)
    requires forall k :: j <= k < n && Own(steps[k], w) ==> steps[k].SecondStat? || steps[k].Decide?
    ensures w in run[n].jobs ==> !run[n].jobs[w].phase.Opened? && !run[n].jobs[w].phase.Begun?
  {
    assert Enabled(world, run[n - 1], steps[n - 1]) && run[n] == Next(world, run[n - 1], steps[n - 1]);
    if j < n - 1 { PastStat(world, run, steps, w, j, n - 1); }
  }

  /** Nobody writes a file between a job's opening it and its stat. */
  predicate Quiet(world: World, s: State, step: Step)
  {
    step.Change? ==>
      && (step.file.Some? ==> Genuine(world, step.path, step.file.value))
      && forall w :: w in s.jobs && s.jobs[w].phase.Opened? ==> world.outer(s.jobs[w].key.name) != step.path
  }

  /** The stat that a job took is that of the content it opened. */
  predicate StatMatches(world: World, job: Job)
    requires job.phase.Statted? || job.phase.Looked?
  {
    && job.phase.stat.Some?
    && var st := job.phase.stat.value;
    job.phase.content == world.content(world.outer(job.key.name), st.size, MakeUnixTime(st.modtime))
  }

  predicate CoherentJob(world: World, disk: map<string, OnDisk>, job: Job)
  {
    && (job.existing.Some? ==> job.existing.value.name == job.key.name && Coherent(world, job.existing.value))
    && var path := world.outer(job.key.name);
    match job.phase
    case Begun => true
    case Opened(content) => path in disk && disk[path].content == content
    case _ => StatMatches(world, job)
  }

  predicate CoherentCache(world: World, c: Cache)
  {
    forall n :: n in c.file ==> c.file[n].name == n && Coherent(world, c.file[n])
  }

  predicate CoherentInv(world: World, s: State)
  {
    GenuineDisk(world, s.disk) && CoherentCache(world, s.cache)
    && forall w :: w in s.jobs ==> CoherentJob(world, s.disk, s.jobs[w])
  }

  lemma CommitCoherent(world: World, job: Job, canceled: bool)
    requires Injective(world) && job.phase.Looked? && StatMatches(world, job) && TrueJob(world, job)
    ensures var effect := CommitOutcome(world, job, canceled).effect;
      effect.Put? ==> effect.file.name == job.key.name && Coherent(world, effect.file)
  {
    if CommitOutcome(world, job, canceled).effect.Put? { StoredCoherentExact(world, job, canceled); }
  }

  lemma CoherentDecide(world: World, s: State, w: nat)
    requires CoherentInv(world, s) && Enabled(world, s, Decide(w))
    ensures CoherentInv(world, NextDecide(world, s, w))
  {
    var job := s.jobs[w];
    assert CoherentJob(world, s.disk, job);
    var o := Obs(world, job, job.phase.content, job.phase.stat, None, false);
    if !NeedsOffsets(world, job, o) { NothingPut(world, job, o); }
  }

  lemma CoherentChange(world: World, s: State, step: Step)
    requires step.Change? && CoherentInv(world, s) && Quiet(world, s, step)
    ensures CoherentInv(world, Next(world, s, step))
  {
    var t := Next(world, s, step);
    forall w | w in t.jobs ensures CoherentJob(world, t.disk, t.jobs[w]) {
      assert CoherentJob(world, s.disk, s.jobs[w]);
    }
  }

  lemma CoherentStep(world: World, s: State, step: Step)
    requires Injective(world) && TrueInv(world, s) && CoherentInv(world, s) && Enabled(world, s, step) && Quiet(world, s, step)
    ensures CoherentInv(world, Next(world, s, step))
  {
    match step
    case Change(_, _) => CoherentChange(world, s, step);
    case Purge =>
    case Drop(_) =>
    case Begin(w, key) =>
    case Open(w) => assert CoherentJob(world, s.disk, s.jobs[w]);
    case SecondStat(w) => assert CoherentJob(world, s.disk, s.jobs[w]);
    case Decide(w) => CoherentDecide(world, s, w);
    case Fail(w) =>
    case Commit(w, canceled) =>
      assert CoherentJob(world, s.disk, s.jobs[w]) && TrueJob(world, s.jobs[w]);
      CommitCoherent(world, s.jobs[w], canceled);
  }

  /** While files hold still between being opened and being stat, every entry of the cache
      describes the file that has its metadata. */
  lemma {:induction false} RunCoherent(world: World, run: seq<State>, steps: seq<Step>, i: nat)
    requires Injective(world) && IsRun(world, run, steps) && i < |run|
    requires TrueCache(world, run[0].cache) && CoherentInv(world, run[0])
    requires forall j :: 0 <= j < |steps| ==> Quiet(world, run[j], steps[j])
    ensures CoherentInv(world, run[i])
  {
    if i > 0 {
      RunCoherent(world, run, steps, i - 1);
      RunTrue(world, run, steps, i - 1);
      assert Enabled(world, run[i - 1], steps[i - 1]) && run[i] == Next(world, run[i - 1], steps[i - 1]);
      CoherentStep(world, run[i - 1], steps[i - 1]);
    }
  }

  /** What a scan that neither trusts the metadata nor skips what links BoringSSL reports
      for a file with this content. */
  function ForcedReport(world: World, key: FileKey, content: Content): Option<Report>
  {
    var forced := key.(opts := ScanOptions(key.opts.all, true, true));
    Process(forced, Obs(world, Job(forced, None, None, Begun), content, None, None, false)).report
  }

  /** The fast path reports what a forced and revalidated scan would of the file that the
      request has seen. */
  lemma FastPathAgrees(world: World, run: seq<State>, steps: seq<Step>, i: nat, w: nat)
    requires Injective(world) && IsRun(world, run, steps) && i < |run|
    requires TrueCache(world, run[0].cache) && CoherentInv(world, run[0])
    requires forall j :: 0 <= j < |steps| ==> Quiet(world, run[j], steps[j])
    requires Enabled(world, run[i], Decide(w))
    ensures var job := run[i].jobs[w];
      var o := Obs(world, job, job.phase.content, job.phase.stat, None, false);
      FastPath(job.key, o) ==>
        Process(job.key, o).report
        == ForcedReport(world, job.key, world.content(world.outer(job.key.name), job.key.size, job.key.modtime))
  {
    RunTrue(world, run, steps, i);
    RunCoherent(world, run, steps, i);
    var job := run[i].jobs[w];
    assert TrueJob(world, job) && CoherentJob(world, run[i].disk, job);
    var o := Obs(world, job, job.phase.content, job.phase.stat, None, false);
    if FastPath(job.key, o) {
      var f := job.existing.value;
      var e := world.elf(f.name, world.content(world.outer(f.name), f.size, f.modified)).value;
      assert TrueOffsets(world, f.sha256, job.existingOffsets.value);
      assert Analyzed(world, e.data) == job.existingOffsets;
    }
  }

  // A file that does not hold still

  /** A world in which a file is an elf as a whole and its own hash, and the modification
      time tells which of two contents it has. */
  function SmallWorld(): World
  {
    World(name => name, (name, content) => Some(ElfData(0, 1, content)), data => data, data => false,
          data => Ok(true), data => Ok(if data == "a" then 1 else 2), data => Ok((48, 48)),
          (path, size, modified) => if modified == 1 then "a" else "b")
  }

  const NAME := "f"
  const OLD := OnDisk(1, ModTime(1, 0), "a")
  const NEW := OnDisk(1, ModTime(2, 0), "b")
  const OLD_KEY := FileKey(NAME, 1, 1, ScanOptions(false, false, false))
  const NEW_KEY := FileKey(NAME, 1, 2, ScanOptions(false, false, false))
  const MIXED := File(NAME, NAME, 2, 1, 0, 1, "a") // the new metadata with the old hash
  const FOUND := Offsets("a", 1, 48, 48)

  function At(file: OnDisk, cache: Cache, jobs: map<nat, Job>): State { State(map[NAME := file], cache, jobs) }

  function Empty(): Cache { Cache(map[], map[]) }

  function Filled(): Cache { Cache(map[NAME := MIXED], map["a" := FOUND]) }

  function First(phase: Phase): map<nat, Job> { map[0 := Job(OLD_KEY, None, None, phase)] }

  function Second(phase: Phase): map<nat, Job> { map[1 := Job(NEW_KEY, Some(MIXED), Some(FOUND), phase)] }

  const NEW_STAT := Some(Stat(1, ModTime(2, 0)))

  lemma FirstOpens()
    ensures var world := SmallWorld();
      && Leads(world, At(OLD, Empty(), map[]), Begin(0, OLD_KEY), At(OLD, Empty(), First(Begun)))
      && Leads(world, At(OLD, Empty(), First(Begun)), Open(0), At(OLD, Empty(), First(Opened("a"))))
      && Leads(world, At(OLD, Empty(), First(Opened("a"))), Change(NAME, Some(NEW)), At(NEW, Empty(), First(Opened("a"))))
  {}

  lemma FirstLooks()
    ensures var world := SmallWorld();
      && Leads(world, At(NEW, Empty(), First(Opened("a"))), SecondStat(0), At(NEW, Empty(), First(Statted("a", NEW_STAT))))
      && Leads(world, At(NEW, Empty(), First(Statted("a", NEW_STAT))), Decide(0),
               At(NEW, Empty(), First(Looked("a", NEW_STAT, None))))
  {}

  lemma FirstStores()
    ensures Leads(SmallWorld(), At(NEW, Empty(), First(Looked("a", NEW_STAT, None))), Commit(0, false), At(NEW, Filled(), map[]))
  {
    var world := SmallWorld();
    var job := First(Looked("a", NEW_STAT, None))[0];
    assert CommitOutcome(world, job, false).effect == Put(MIXED, FOUND);
    assert First(job.phase) - {0} == map[];
  }

  lemma SecondRuns()
    ensures var world := SmallWorld();
      && Leads(world, At(NEW, Filled(), map[]), Begin(1, NEW_KEY), At(NEW, Filled(), Second(Begun)))
      && Leads(world, At(NEW, Filled(), Second(Begun)), Open(1), At(NEW, Filled(), Second(Opened("b"))))
      && Leads(world, At(NEW, Filled(), Second(Opened("b"))), SecondStat(1), At(NEW, Filled(), Second(Statted("b", NEW_STAT))))
  {}

  lemma SecondReports()
    ensures var world := SmallWorld();
      var o := Obs(world, Second(Statted("b", NEW_STAT))[1], "b", NEW_STAT, None, false);
      && Process(NEW_KEY, o).report == Some(Report(NAME, NAME, 0, FOUND))
      && ForcedReport(world, NEW_KEY, "b") == Some(Report(NAME, NAME, 0, Offsets("b", 2, 48, 48)))
      && !Coherent(world, MIXED)
  {}

  predicate Leads(world: World, s: State, step: Step, t: State) { Enabled(world, s, step) && t == Next(world, s, step) }

  lemma Extend(world: World, run: seq<State>, steps: seq<Step>, step: Step, s: State)
    requires IsRun(world, run, steps) && Leads(world, run[|run| - 1], step, s)
    ensures IsRun(world, run + [s], steps + [step])
  {}

  /** A worker scans the file, which is replaced by a genuine one meanwhile, and stores the
      new metadata with the old hash. */
  lemma FirstScan() returns (run: seq<State>, steps: seq<Step>)
    ensures IsRun(SmallWorld(), run, steps) && run[0] == At(OLD, Empty(), map[]) && run[|run| - 1] == At(NEW, Filled(), map[])
    ensures steps == [Begin(0, OLD_KEY), Open(0), Change(NAME, Some(NEW)), SecondStat(0), Decide(0), Commit(0, false)]
  {
    var world := SmallWorld();
    run, steps := [At(OLD, Empty(), map[])], [];
    FirstOpens();
    Extend(world, run, steps, Begin(0, OLD_KEY), At(OLD, Empty(), First(Begun)));
    run, steps := run + [At(OLD, Empty(), First(Begun))], steps + [Begin(0, OLD_KEY)];
    Extend(world, run, steps, Open(0), At(OLD, Empty(), First(Opened("a"))));
    run, steps := run + [At(OLD, Empty(), First(Opened("a")))], steps + [Open(0)];
    Extend(world, run, steps, Change(NAME, Some(NEW)), At(NEW, Empty(), First(Opened("a"))));
    run, steps := run + [At(NEW, Empty(), First(Opened("a")))], steps + [Change(NAME, Some(NEW))];
    FirstLooks();
    Extend(world, run, steps, SecondStat(0), At(NEW, Empty(), First(Statted("a", NEW_STAT))));
    run, steps := run + [At(NEW, Empty(), First(Statted("a", NEW_STAT)))], steps + [SecondStat(0)];
    Extend(world, run, steps, Decide(0), At(NEW, Empty(), First(Looked("a", NEW_STAT, None))));
    run, steps := run + [At(NEW, Empty(), First(Looked("a", NEW_STAT, None)))], steps + [Decide(0)];
    FirstStores();
    Extend(world, run, steps, Commit(0, false), At(NEW, Filled(), map[]));
    run, steps := run + [At(NEW, Filled(), map[])], steps + [Commit(0, false)];
  }

  /** The file is replaced after a worker has opened it and before it is stat again. Both
      files are genuine and nothing fails, but the cache then has the old hash for the new
      metadata, and the next scan, which finds the file as the cache says, reports the
      offsets of the old file. */
  lemma ReplacedWhileScanned() returns (run: seq<State>, steps: seq<Step>)
    ensures var world := SmallWorld();
      && Injective(world) && IsRun(world, run, steps) && CoherentInv(world, run[0]) && TrueCache(world, run[0].cache)
      && Genuine(world, NAME, NEW) && (forall j :: 0 <= j < |steps| && steps[j].Change? ==> steps[j] == Change(NAME, Some(NEW)))
    ensures var world, s := SmallWorld(), run[|run| - 1];
      && s == At(NEW, Filled(), Second(Statted("b", NEW_STAT))) && !Coherent(world, MIXED)
      && var o := Obs(world, s.jobs[1], "b", NEW_STAT, None, false);
      Process(NEW_KEY, o).report.Some? && Process(NEW_KEY, o).report != ForcedReport(world, NEW_KEY, "b")
  {
    var world := SmallWorld();
    run, steps := FirstScan();
    SecondRuns();
    Extend(world, run, steps, Begin(1, NEW_KEY), At(NEW, Filled(), Second(Begun)));
    run, steps := run + [At(NEW, Filled(), Second(Begun))], steps + [Begin(1, NEW_KEY)];
    Extend(world, run, steps, Open(1), At(NEW, Filled(), Second(Opened("b"))));
    run, steps := run + [At(NEW, Filled(), Second(Opened("b")))], steps + [Open(1)];
    Extend(world, run, steps, SecondStat(1), At(NEW, Filled(), Second(Statted("b", NEW_STAT))));
    run, steps := run + [At(NEW, Filled(), Second(Statted("b", NEW_STAT)))], steps + [SecondStat(1)];
    SecondReports();
  }

  // Progress

  function Rank(p: Phase): nat
  {
    match p
    case Begun => 0
    case Opened(_) => 1
    case Statted(_, _) => 2
    case Looked(_, _, _) => 3
  }

  /** What a worker does next with its job, if it can read the file. */
  function GoOn(p: Phase, w: nat): Step
  {
    match p
    case Begun => Open(w)
    case Opened(_) => SecondStat(w)
    case Statted(_, _) => Decide(w)
    case Looked(_, _, _) => Commit(w, false)
  }

  /** Whatever others do to the files and the cache, a worker can go on with its job, which takes
      four steps at most; or fail, which changes nothing else. */
  lemma JobMovesOn(world: World, s: State, w: nat)
    requires w in s.jobs
    ensures Enabled(world, s, Fail(w)) && Next(world, s, Fail(w)) == s.(jobs := s.jobs - {w})
    ensures var step := GoOn(s.jobs[w].phase, w);
      && Enabled(world, s, step)
      && var t := Next(world, s, step);
      && t.disk == s.disk && t.jobs - {w} == s.jobs - {w}
      && (w in t.jobs ==> Rank(t.jobs[w].phase) == Rank(s.jobs[w].phase) + 1 && t.jobs[w].key == s.jobs[w].key && t.cache == s.cache)
  {}

  /** The offsets can be purged and a name dropped at any time; a purge keeps the files, and a
      drop keeps the offsets and the other names. */
  lemma ForgettingExact(world: World, s: State, name: string)
    ensures Enabled(world, s, Purge) && Next(world, s, Purge) == s.(cache := Cache(s.cache.file, map[]))
    ensures Enabled(world, s, Drop(name))
    ensures var t := Next(world, s, Drop(name));
      && t.disk == s.disk && t.jobs == s.jobs && t.cache.offsets == s.cache.offsets && name !in t.cache.file
      && t.cache.file.Keys == s.cache.file.Keys - {name}
      && forall n :: n in t.cache.file ==> t.cache.file[n] == s.cache.file[n]
  {}
}
