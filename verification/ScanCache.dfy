/** The scanner's two-level cache under concurrent workers: metadata to hash, hash to
    offsets. Files change under the workers; analysis is a function of the elf. */
module ScanCache {
  import opened Options
  import opened ScanTask

  type Content = string // of a file on disk
  type Data = string    // of an elf, which may be a part of a file

  /** Where the elf is in the file, and what it is. */
  datatype ElfData = ElfData(offset: nat, length: int, data: Data)

  /** What is a function of names and contents: the path before "!/"; the elf that a name
      stands for; its hash, checks and analyses; and the content that a file has when it
      has this size and modification time. */
  datatype World = World(
    outer: string -> string,
    elf: (string, Content) -> Option<ElfData>,
    hash: Data -> Hash,
    linked: Data -> bool,
    maybe: Data -> Result<bool>,
    logSecret: Data -> Result<nat>,
    clientRandom: Data -> Result<(int, int)>,
    content: (string, int, int) -> Content)

  datatype OnDisk = OnDisk(size: int, modtime: ModTime, content: Content)

  datatype Cache = Cache(file: map<string, File>, offsets: map<Hash, Offsets>)

  /** How far processTask is: it has read the cache; opened the elf, of a file with this
      content; stat the file again; and looked for the hash in the cache. */
  datatype Phase = Begun | Opened(content: Content) | Statted(content: Content, stat: Option<Stat>)
                 | Looked(content: Content, stat: Option<Stat>, known: Option<Offsets>)

  datatype Job = Job(key: FileKey, existing: Option<File>, existingOffsets: Option<Offsets>, phase: Phase)

  datatype State = State(disk: map<string, OnDisk>, cache: Cache, jobs: map<nat, Job>)

  /** Change is anything else that writes or removes a file; Purge is PurgeOffsets; Drop is
      what scanCached does to a name that is gone. A job may Fail when it cannot read the
      file, and a Commit may be canceled, in which case the analysis fails. */
  datatype Step =
    | Change(path: string, file: Option<OnDisk>)
    | Purge
    | Drop(name: string)
    | Begin(w: nat, key: FileKey)
    | Open(w: nat)
    | SecondStat(w: nat)
    | Decide(w: nat)
    | Fail(w: nat)
    | Commit(w: nat, canceled: bool)

  function Lookup<K, V>(m: map<K, V>, k: K): Option<V> { if k in m then Some(m[k]) else None }

  /** All that processTask observes, as far as the phase goes. */
  function Obs(world: World, job: Job, content: Content, stat: Option<Stat>, known: Option<Offsets>, canceled: bool): Observed
  {
    match world.elf(job.key.name, content)
    case None => Observed(job.existing, job.existingOffsets, Err("open"), stat, Err(""), false, Ok(false), known, Err(""), Err(""))
    case Some(e) =>
      Observed(job.existing, job.existingOffsets, Ok(Elf(world.outer(job.key.name), e.offset, e.length)), stat,
               Ok(world.hash(e.data)), world.linked(e.data), world.maybe(e.data), known,
               if canceled then Err("canceled") else world.logSecret(e.data), world.clientRandom(e.data))
  }

  /** Whether processTask goes on to look for the hash in the cache. */
  predicate NeedsOffsets(world: World, job: Job, o: Observed)
  {
    && o.elf.Ok? && !FastPath(job.key, o) && o.hash.Ok?
    && (job.key.opts.force || !o.linked) && o.maybe == Ok(true)
  }

  function Apply(cache: Cache, name: string, effect: Effect): Cache
  {
    match effect
    case Keep => cache
    case Forget => cache.(file := cache.file - {name})
    case Put(f, offsets) => Cache(cache.file[name := f], cache.offsets[f.sha256 := offsets])
  }

  predicate Enabled(world: World, s: State, step: Step)
  {
    match step
    case Change(_, _) => true
    case Purge => true
    case Drop(_) => true
    case Begin(w, _) => w !in s.jobs
    case Open(w) => w in s.jobs && s.jobs[w].phase.Begun?
    case SecondStat(w) => w in s.jobs && s.jobs[w].phase.Opened?
    case Decide(w) => w in s.jobs && s.jobs[w].phase.Statted?
    case Fail(w) => w in s.jobs
    case Commit(w, _) => w in s.jobs && s.jobs[w].phase.Looked?
  }

  function NextBegin(s: State, w: nat, key: FileKey): State
  {
    var existing := Lookup(s.cache.file, key.name);
    var offsets := if existing.Some? then Lookup(s.cache.offsets, existing.value.sha256) else None;
    s.(jobs := s.jobs[w := Job(key, existing, offsets, Begun)])
  }

  /** A job whose file is gone, or is not an elf, ends with an error. */
  function NextOpen(world: World, s: State, w: nat): State
    requires w in s.jobs
  {
    var job := s.jobs[w];
    var file := Lookup(s.disk, world.outer(job.key.name));
    if file.Some? && world.elf(job.key.name, file.value.content).Some?
    then s.(jobs := s.jobs[w := job.(phase := Opened(file.value.content))])
    else s.(jobs := s.jobs - {w})
  }

  function StatOf(disk: map<string, OnDisk>, path: string): Option<Stat>
  {
    match Lookup(disk, path)
    case None => None
    case Some(f) => Some(Stat(f.size, f.modtime))
  }

  function NextDecide(world: World, s: State, w: nat): State
    requires w in s.jobs && s.jobs[w].phase.Statted?
  {
    var job := s.jobs[w];
    var o := Obs(world, job, job.phase.content, job.phase.stat, None, false);
    if NeedsOffsets(world, job, o) then
      var known := Lookup(s.cache.offsets, o.hash.value);
      s.(jobs := s.jobs[w := job.(phase := Looked(job.phase.content, job.phase.stat, known))])
    else s.(cache := Apply(s.cache, job.key.name, Process(job.key, o).effect), jobs := s.jobs - {w})
  }

  function CommitOutcome(world: World, job: Job, canceled: bool): Outcome
    requires job.phase.Looked?
  {
    Process(job.key, Obs(world, job, job.phase.content, job.phase.stat, job.phase.known, canceled))
  }

  function Next(world: World, s: State, step: Step): State
    requires Enabled(world, s, step)
  {
    match step
    case Change(path, None) => s.(disk := s.disk - {path})
    case Change(path, Some(f)) => s.(disk := s.disk[path := f])
    case Purge => s.(cache := s.cache.(offsets := map[]))
    case Drop(name) => s.(cache := s.cache.(file := s.cache.file - {name}))
    case Begin(w, key) => NextBegin(s, w, key)
    case Open(w) => NextOpen(world, s, w)
    case SecondStat(w) =>
      var job := s.jobs[w];
      s.(jobs := s.jobs[w := job.(phase := Statted(job.phase.content, StatOf(s.disk, world.outer(job.key.name))))])
    case Decide(w) => NextDecide(world, s, w)
    case Fail(w) => s.(jobs := s.jobs - {w})
    case Commit(w, canceled) =>
      s.(cache := Apply(s.cache, s.jobs[w].key.name, CommitOutcome(world, s.jobs[w], canceled).effect), jobs := s.jobs - {w})
  }

  // What is true of the cache

  /** The offsets that the analyses find in an elf. */
  function Analyzed(world: World, d: Data): Option<Offsets>
  {
    match (world.logSecret(d), world.clientRandom(d))
    case (Ok(fn), Ok((s3, cr))) => Some(Offsets(world.hash(d), fn, s3, cr))
    case _ => None
  }

  ghost predicate Injective(world: World)
  {
    forall d, e :: world.hash(d) == world.hash(e) ==> d == e
  }

  /** These are the offsets of whatever has this hash. */
  ghost predicate TrueOffsets(world: World, h: Hash, offsets: Offsets)
  {
    forall d :: world.hash(d) == h ==> Analyzed(world, d) == Some(offsets)
  }

  ghost predicate TrueIfAny(world: World, h: Hash, offsets: Option<Offsets>)
  {
    offsets.Some? ==> TrueOffsets(world, h, offsets.value)
  }

  /** The entry is what a scan of a file with this content finds. */
  predicate Describes(world: World, f: File, content: Content)
  {
    && f.path == world.outer(f.name)
    && var e := world.elf(f.name, content);
    && e.Some? && f.offset == e.value.offset && f.length == e.value.length
    && f.sha256 == world.hash(e.value.data) && world.maybe(e.value.data) == Ok(true)
  }

  /** The entry describes the file that has its metadata. */
  predicate Coherent(world: World, f: File)
  {
    Describes(world, f, world.content(world.outer(f.name), f.size, f.modified))
  }
}
