/** What scanning one file counts, reports and changes in the cache: processTask, with
    everything it observes of the world as input. */
module ScanTask {
  import opened Options

  type Hash = string
  type Error = string

  /** Seconds of Unix time, and nanoseconds within the second. */
  datatype ModTime = ModTime(sec: int, nsec: nat)

  const ZERO_SECONDS := -62135596800 // of the zero time.Time

  datatype ScanOptions = ScanOptions(all: bool, force: bool, revalidate: bool)

  datatype FileKey = FileKey(name: string, size: int, modtime: int, opts: ScanOptions)

  datatype Offsets = Offsets(hash: Hash, sslLogSecret: nat, s3: int, clientRandom: int)

  datatype File = File(name: string, path: string, modified: int, size: int, offset: nat, length: int, sha256: Hash)

  datatype Counts = Counts(total: int, cached: int, stale: int, added: int, error: int)

  datatype ScanInfo = ScanInfo(file: Counts, offset: Counts)

  const NONE := Counts(0, 0, 0, 0, 0)
  const NOTHING := ScanInfo(NONE, NONE)

  function AddCounts(a: Counts, b: Counts): Counts
  {
    Counts(a.total + b.total, a.cached + b.cached, a.stale + b.stale, a.added + b.added, a.error + b.error)
  }

  /** ScanInfo.Add. */
  function Add(a: ScanInfo, b: ScanInfo): ScanInfo { ScanInfo(AddCounts(a.file, b.file), AddCounts(a.offset, b.offset)) }

  predicate ZeroCounts(c: Counts) { c.total == 0 && c.cached == 0 && c.stale == 0 && c.added == 0 && c.error == 0 }

  predicate Zero(i: ScanInfo) { ZeroCounts(i.file) && ZeroCounts(i.offset) }

  lemma AddZero(a: ScanInfo, zero: ScanInfo)
    requires Zero(zero)
    ensures Add(a, zero) == a && Add(zero, a) == a
  {}

  /** kvlines.MakeUnixTime: the zero time becomes 0. */
  function MakeUnixTime(t: ModTime): int { if t == ModTime(ZERO_SECONDS, 0) then 0 else t.sec }

  /** An opened elf: the file it is in, and where. */
  datatype Elf = Elf(path: string, offset: nat, length: int)

  datatype Stat = Stat(size: int, modtime: ModTime)

  /** What processTask learns, in this order: the cache entries for the name; the elf;
      the metadata of its file; its hash; whether it links BoringSSL, or may contain it;
      the cache entry for the hash; the two analyses. */
  datatype Observed = Observed(
    existing: Option<File>,
    existingOffsets: Option<Offsets>,
    elf: Result<Elf>,
    stat: Option<Stat>,
    hash: Result<Hash>,
    linked: bool,
    maybe: Result<bool>,
    known: Option<Offsets>,
    logSecret: Result<nat>,
    clientRandom: Result<(int, int)>)

  /** What it does to the cache. */
  datatype Effect = Keep | Forget | Put(file: File, offsets: Offsets)

  datatype Report = Report(name: string, path: string, offset: nat, offsets: Offsets)

  datatype Outcome = Outcome(info: ScanInfo, errs: seq<Error>, effect: Effect, report: Option<Report>)

  predicate SameMeta(f: File, key: FileKey) { f.size == key.size && f.modified == key.modtime }

  predicate FastPath(key: FileKey, o: Observed)
  {
    && !key.opts.revalidate && o.existing.Some? && SameMeta(o.existing.value, key) && o.existingOffsets.Some?
  }

  function One(added: bool, cached: bool, ok: bool): Counts
  {
    Counts(1, if !added && cached then 1 else 0, if !added && !cached then 1 else 0, if added then 1 else 0, if ok then 0 else 1)
  }

  /** bumpFile and bumpFileWithHash. */
  function ByMeta(key: FileKey, existing: Option<File>, ok: bool): Counts
  {
    One(existing.None?, existing.Some? && SameMeta(existing.value, key), ok)
  }

  function ByHash(hash: Hash, existing: Option<File>, ok: bool): Counts
  {
    One(existing.None?, existing.Some? && existing.value.sha256 == hash, ok)
  }

  function Failed(file: Counts, offset: Counts, err: Error): Outcome
  {
    Outcome(ScanInfo(file, offset), [err], Keep, None)
  }

  /** What processTask comes to. */
  function Process(key: FileKey, o: Observed): Outcome
  {
    match o.elf
    case Err(e) => Failed(ByMeta(key, o.existing, false), NONE, e)
    case Ok(elf) =>
      if FastPath(key, o) then
        var f := o.existing.value;
        Outcome(ScanInfo(Counts(1, 1, 0, 0, 0), Counts(1, 1, 0, 0, 0)), [], Keep,
                Some(Report(key.name, f.path, f.offset, o.existingOffsets.value)))
      else
        match o.hash
        case Err(e) => Failed(ByMeta(key, o.existing, false), NONE, e)
        case Ok(hash) =>
          if !key.opts.force && o.linked then NotBoringSSL(hash, o.existing)
          else
            match o.maybe
            case Err(e) => Failed(ByHash(hash, o.existing, false), NONE, e)
            case Ok(maybe) => if !maybe then NotBoringSSL(hash, o.existing) else Analysis(key, o, elf, hash)
  }

  function NotBoringSSL(hash: Hash, existing: Option<File>): Outcome
  {
    Outcome(ScanInfo(ByHash(hash, existing, true), NONE), [], if existing.Some? then Forget else Keep, None)
  }

  function Analysis(key: FileKey, o: Observed, elf: Elf, hash: Hash): Outcome
  {
    match o.known
    case Some(known) => Stored(key, o, elf, hash, known, Counts(1, 1, 0, 0, 0))
    case None =>
      match o.logSecret
      case Err(e) => Failed(ByHash(hash, o.existing, false), Counts(1, 0, 0, 0, 1), e)
      case Ok(fn) =>
        match o.clientRandom
        case Err(e) => Failed(ByHash(hash, o.existing, false), Counts(1, 0, 0, 0, 1), e)
        case Ok((s3, cr)) => Stored(key, o, elf, hash, Offsets(hash, fn, s3, cr), Counts(1, 0, 0, 1, 0))
  }

  /** The entry stored for the file has the metadata of the second stat, or that of the
      request if the second stat failed. */
  function NewFile(key: FileKey, o: Observed, elf: Elf, hash: Hash): File
  {
    var (size, modified) :=
      match o.stat
      case Some(Stat(size, modtime)) => (size, MakeUnixTime(modtime))
      case None => (key.size, MakeUnixTime(ModTime(key.modtime, 0)));
    File(key.name, elf.path, modified, size, elf.offset, elf.length, hash)
  }

  function Stored(key: FileKey, o: Observed, elf: Elf, hash: Hash, offsets: Offsets, counts: Counts): Outcome
  {
    Outcome(ScanInfo(ByHash(hash, o.existing, true), counts), [],
            Put(NewFile(key, o, elf, hash), offsets), Some(Report(key.name, elf.path, elf.offset, offsets)))
  }

  /** The counts and the errors of a scan agree; failures is how many items could not be
      listed or submitted, and were not counted as stale. */
  predicate Balanced(info: ScanInfo, errs: seq<Error>, failures: nat)
  {
    && info.file.error == |errs|
    && info.file.total == info.file.added + info.file.stale + info.file.cached + failures
    && info.offset.total == info.offset.cached + info.offset.added + info.offset.error
    && info.offset.stale == 0
  }

  /** One file is counted once, with at most one error; it is reported exactly if its
      offsets are known or were found; and what fails changes nothing. */
  lemma ProcessBalanced(key: FileKey, o: Observed)
    ensures var r := Process(key, o);
      && Balanced(r.info, r.errs, 0) && r.info.file.total == 1 && r.info.offset.total <= 1
      && (r.report.Some? <==> r.info.offset.total == 1 && r.errs == [])
      && (r.errs != [] ==> r.effect == Keep && r.report.None?)
      && (r.info.file.added == 1 <==> o.existing.None?)
  {}

  /** The file that was asked for is the one that the cache knows, by its metadata. */
  predicate Unchanged(key: FileKey, f: File) { f.size == key.size && f.modified == key.modtime }

  /** How the file itself is counted: as new if the cache does not know it, and otherwise as
      cached or stale. What decides is the metadata as long as there is no hash, because the
      file cannot be opened or hashed or the fast path is taken; and then the hash alone. */
  lemma FileCountExact(key: FileKey, o: Observed)
    ensures var c := Process(key, o).info.file;
      && c.total == 1 && c.added == (if o.existing.None? then 1 else 0)
      && (o.existing.Some? ==>
            var same := if o.elf.Err? || o.hash.Err? || FastPath(key, o) then Unchanged(key, o.existing.value)
                        else o.existing.value.sha256 == o.hash.value;
            c.cached == (if same then 1 else 0) && c.stale == (if same then 0 else 1))
      && (o.existing.None? ==> c.cached == 0 && c.stale == 0)
  {}

  /** The file is looked at with the analyses: it can be opened and hashed, is not skipped
      for linking BoringSSL, and may contain it. */
  predicate IsAnalyzed(key: FileKey, o: Observed)
  {
    && o.elf.Ok? && o.hash.Ok? && !FastPath(key, o)
    && (o.linked ==> key.opts.force) && o.maybe == Ok(true)
  }

  /** How its offsets are counted: as cached on the fast path or if the cache has offsets for
      the hash, as new if both analyses find them, and as an error if one fails; and not at
      all if the file is not analyzed. */
  lemma OffsetCountExact(key: FileKey, o: Observed)
    ensures var c := Process(key, o).info.offset;
      var fast := o.elf.Ok? && FastPath(key, o);
      && c.total == (if fast || IsAnalyzed(key, o) then 1 else 0)
      && c.cached == (if fast || (IsAnalyzed(key, o) && o.known.Some?) then 1 else 0)
      && c.added == (if IsAnalyzed(key, o) && o.known.None? && o.logSecret.Ok? && o.clientRandom.Ok? then 1 else 0)
      && c.error == (if IsAnalyzed(key, o) && o.known.None? && (o.logSecret.Err? || o.clientRandom.Err?) then 1 else 0)
      && c.stale == 0
  {}

  /** A time in the cache: its Unix seconds, and 0 for midnight on January 1 of the year 1. */
  function Seconds(t: ModTime): int { if t.sec == -62135596800 && t.nsec == 0 then 0 else t.sec }

  /** The cached entry for a file is forgotten exactly if the file was hashed and is now found
      not to contain BoringSSL; and replaced exactly if offsets are found for it. */
  lemma EffectExact(key: FileKey, o: Observed)
    ensures var r := Process(key, o);
      && (r.effect.Forget? <==>
            && o.existing.Some? && o.elf.Ok? && !FastPath(key, o) && o.hash.Ok?
            && ((o.linked && !key.opts.force) || o.maybe == Ok(false)))
      && (r.effect.Put? <==>
            IsAnalyzed(key, o) && (o.known.Some? || (o.logSecret.Ok? && o.clientRandom.Ok?)))
      && (r.effect.Put? ==>
            && r.effect.file.name == key.name && r.effect.file.path == o.elf.value.path
            && r.effect.file.offset == o.elf.value.offset && r.effect.file.length == o.elf.value.length
            && r.effect.file.size == (if o.stat.Some? then o.stat.value.size else key.size)
            && r.effect.file.modified == (if o.stat.Some? then Seconds(o.stat.value.modtime) else Seconds(ModTime(key.modtime, 0)))
            && r.effect.file.sha256 == o.hash.value
            && (o.known.Some? ==> r.effect.offsets == o.known.value)
            && (o.known.None? ==> r.effect.offsets == Offsets(o.hash.value, o.logSecret.value, o.clientRandom.value.0, o.clientRandom.value.1)))
  {}

  /** What is stored is what is reported. */
  lemma StoredIsReported(key: FileKey, o: Observed)
    ensures var r := Process(key, o);
      r.effect.Put? ==>
        && r.report == Some(Report(key.name, r.effect.file.path, r.effect.file.offset, r.effect.offsets))
        && o.hash == Ok(r.effect.file.sha256)
        && (o.known.None? ==> r.effect.offsets.hash == r.effect.file.sha256)
  {}

  lemma BalancedAdd(a: ScanInfo, ae: seq<Error>, m: nat, b: ScanInfo, be: seq<Error>, n: nat)
    requires Balanced(a, ae, m) && Balanced(b, be, n)
    ensures Balanced(Add(a, b), ae + be, m + n)
  {}

  /** The task that a worker owns: processTask adds to its info and errs in place. */
  class FileTask {
    const key: FileKey
    var info: ScanInfo
    var errs: seq<Error>

    constructor (key: FileKey)
      ensures this.key == key && info == NOTHING && errs == []
    {
      this.key := key;
      info, errs := NOTHING, [];
    }

    /** The total was counted at the start. */
    method BumpFile(c: Counts)
      modifies this`info
      ensures info == old(info).(file := AddCounts(old(info).file, c.(total := 0)))
    {
      info := info.(file := AddCounts(info.file, c.(total := 0)));
    }

    method Fail(c: Counts, err: Error)
      modifies this
      ensures info == old(info).(file := AddCounts(old(info).file, c.(total := 0))) && errs == old(errs) + [err]
    {
      BumpFile(c);
      errs := errs + [err];
    }

    method BumpOffset(c: Counts)
      modifies this`info
      ensures info == old(info).(offset := AddCounts(old(info).offset, c))
    {
      info := info.(offset := AddCounts(info.offset, c));
    }

    method ProcessTask(o: Observed) returns (effect: Effect, report: Option<Report>)
      modifies this
      ensures var r := Process(key, o);
        && info == Add(old(info), r.info) && errs == old(errs) + r.errs
        && effect == r.effect && report == r.report
    {
      info := info.(file := info.file.(total := info.file.total + 1));
      effect, report := Keep, None;
      if o.elf.Err? {
        Fail(ByMeta(key, o.existing, false), o.elf.reason);
        return;
      }
      var elf := o.elf.value;
      if FastPath(key, o) {
        BumpFile(Counts(1, 1, 0, 0, 0));
        BumpOffset(Counts(1, 1, 0, 0, 0));
        report := Some(Report(key.name, o.existing.value.path, o.existing.value.offset, o.existingOffsets.value));
        return;
      }
      if o.hash.Err? {
        Fail(ByMeta(key, o.existing, false), o.hash.reason);
        return;
      }
      var hash := o.hash.value;
      if !key.opts.force && o.linked {
        BumpFile(ByHash(hash, o.existing, true));
        if o.existing.Some? { effect := Forget; }
        return;
      }
      if o.maybe.Err? {
        Fail(ByHash(hash, o.existing, false), o.maybe.reason);
        return;
      }
      if !o.maybe.value {
        BumpFile(ByHash(hash, o.existing, true));
        if o.existing.Some? { effect := Forget; }
        return;
      }
      effect, report := Analyze(o, elf, hash);
    }

    method Analyze(o: Observed, elf: Elf, hash: Hash) returns (effect: Effect, report: Option<Report>)
      modifies this
      ensures var r := Analysis(key, o, elf, hash);
        && info == ScanInfo(AddCounts(old(info).file, r.info.file.(total := 0)), AddCounts(old(info).offset, r.info.offset))
        && errs == old(errs) + r.errs && effect == r.effect && report == r.report
    {
      BumpOffset(Counts(1, 0, 0, 0, 0));
      effect, report := Keep, None;
      var offsets;
      if o.known.Some? {
        offsets := o.known.value;
        BumpOffset(Counts(0, 1, 0, 0, 0));
      } else {
        if o.logSecret.Err? {
          Fail(ByHash(hash, o.existing, false), o.logSecret.reason);
          BumpOffset(Counts(0, 0, 0, 0, 1));
          return;
        }
        if o.clientRandom.Err? {
          Fail(ByHash(hash, o.existing, false), o.clientRandom.reason);
          BumpOffset(Counts(0, 0, 0, 0, 1));
          return;
        }
        offsets := Offsets(hash, o.logSecret.value, o.clientRandom.value.0, o.clientRandom.value.1);
        BumpOffset(Counts(0, 0, 0, 1, 0));
      }
      BumpFile(ByHash(hash, o.existing, true));
      effect := Put(NewFile(key, o, elf, hash), offsets);
      report := Some(Report(key.name, elf.path, elf.offset, offsets));
    }
  }
}
