/**
 The two file trees, what a pass sees of one path, and what it does to it.
 Every decision of internal/cloudclaude/hot_sync.go is made path by path from three
 observations (local, remote, base), so a pass is given by its effect on one `Cell`.
 */
module SyncModel {
  import opened Wrappers
  import opened Paths
  import opened Ignore
  import opened IgnoreMatcher

  newtype byte = b: int | 0 <= b < 256

  const NANOS := 1_000_000_000

  /** A regular file: its bytes and its modification time in nanoseconds. */
  datatype File = File(content: seq<byte>, mtime: int)

  /** syncFileState: size, and modification time truncated to whole seconds. */
  datatype Snap = Snap(size: nat, seconds: int)

  /** What the sync is about: the bytes and the whole second of the last change. */
  datatype Version = Version(content: seq<byte>, seconds: int)

  /** normalizeSyncModTime: Go truncates towards the past, as `/` does here. */
  function Seconds(f: File): (s: int)
    ensures s * 1_000_000_000 <= f.mtime < (s + 1) * 1_000_000_000
  {
    f.mtime / NANOS
  }

  function SnapOf(f: Option<File>): Option<Snap>
  {
    match f
    case None => None
    case Some(x) => Some(Snap(|x.content|, Seconds(x)))
  }

  function VersionOf(f: Option<File>): Option<Version>
  {
    match f
    case None => None
    case Some(x) => Some(Version(x.content, Seconds(x)))
  }

  function SnapOfVersion(v: Option<Version>): Option<Snap>
  {
    match v
    case None => None
    case Some(x) => Some(Snap(|x.content|, x.seconds))
  }

  // ---------------------------------------------------------------------------
  // Which paths take part

  /** The directories that neither walk enters. */
  predicate HardSkipped(name: string)
  {
    name in ["node_modules", "target", "dist", ".venv", "__pycache__", ".next", "build", ".cache", ".git"]
  }

  ghost predicate Pruned(pats: seq<Pattern>, dir: Path)
    requires dir != []
  {
    HardSkipped(dir[|dir| - 1]) || Ignored(pats, Join(dir), true)
  }

  /** Not ignored itself, and below no pruned directory. */
  ghost predicate Tracked(pats: seq<Pattern>, p: Path)
  {
    && p != []
    && !Ignored(pats, Join(p), false)
    && forall k :: 0 < k < |p| ==> !Pruned(pats, p[..k])
  }

  datatype Config = Config(patterns: seq<Pattern>, maxFileBytes: int)

  ghost predicate Oversized(cfg: Config, p: Path, f: Option<File>)
  {
    && cfg.maxFileBytes > 0
    && Tracked(cfg.patterns, p)
    && f.Some?
    && |f.value.content| >= cfg.maxFileBytes
  }

  // ---------------------------------------------------------------------------
  // One path

  datatype World = World(local: map<Path, File>, remote: map<Path, File>, last: map<Path, Snap>)

  datatype Cell = Cell(local: Option<File>, remote: Option<File>, base: Option<Snap>)

  function At(w: World, p: Path): Cell
  {
    Cell(Get(w.local, p), Get(w.remote, p), Get(w.last, p))
  }

  datatype Sight = Sight(local: Option<Snap>, remote: Option<Snap>, base: Option<Snap>)

  /** What the pass knows of the path after both scans and the oversized filter. */
  ghost function See(cfg: Config, p: Path, c: Cell): Sight
  {
    if Oversized(cfg, p, c.local) then
      Sight(None, None, None)
    else if Tracked(cfg.patterns, p) then
      Sight(SnapOf(c.local), SnapOf(c.remote), c.base)
    else
      Sight(None, None, c.base)
  }

  datatype Side = LocalSide | RemoteSide

  function ChooseConflictWinner(local: Option<Snap>, remote: Option<Snap>): Side
  {
    match (local, remote)
    case (Some(_), None) => LocalSide
    case (None, Some(_)) => RemoteSide
    case (None, None) => LocalSide
    case (Some(l), Some(r)) =>
      if l.seconds > r.seconds then LocalSide
      else if r.seconds > l.seconds then RemoteSide
      else if l.size >= r.size then LocalSide
      else RemoteSide
  }

  predicate SameSyncState(a: Option<Snap>, b: Option<Snap>)
  {
    if a.Some? != b.Some? then false
    else if a.None? then true
    else a.value.size == b.value.size && a.value.seconds == b.value.seconds
  }

  datatype Action = Keep | ApplyLocal | ApplyRemote

  function Decide(v: Sight): Action
  {
    var localChanged := !SameSyncState(v.local, v.base);
    var remoteChanged := !SameSyncState(v.remote, v.base);
    if !localChanged && !remoteChanged then Keep
    else if localChanged && !remoteChanged then ApplyLocal
    else if !localChanged && remoteChanged then ApplyRemote
    else if ChooseConflictWinner(v.local, v.remote).LocalSide? then ApplyLocal
    else ApplyRemote
  }

  /** A copied file keeps the bytes of its source and the whole second of the state. */
  function Copied(f: File, s: Snap): File
  {
    File(f.content, s.seconds * NANOS)
  }

  /** The target after applying the state s of the source file f. */
  function Transfer(f: Option<File>, s: Option<Snap>): Option<File>
  {
    if s.Some? && f.Some? then Some(Copied(f.value, s.value)) else None
  }

  /** The effect of a completed pass on one path. */
  ghost function PassCell(cfg: Config, p: Path, c: Cell): Cell
  {
    var v := See(cfg, p, c);
    match Decide(v)
    case Keep => Cell(c.local, c.remote, v.base)
    case ApplyLocal => Cell(c.local, Transfer(c.local, v.local), v.local)
    case ApplyRemote => Cell(Transfer(c.remote, v.remote), c.remote, v.remote)
  }

  /** The base after the oversized filter, which a pass keeps even if it stops early. */
  ghost function FilteredCell(cfg: Config, p: Path, c: Cell): Cell
  {
    Cell(c.local, c.remote, See(cfg, p, c).base)
  }

  // ---------------------------------------------------------------------------
  // Whole passes

  ghost predicate PassDone(cfg: Config, w: World, w': World)
  {
    forall p :: At(w', p) == PassCell(cfg, p, At(w, p))
  }

  /** A path after a pass that stopped: those in `done` are settled on disk, no base is replaced. */
  ghost function StoppedCell(cfg: Config, w: World, done: set<Path>, p: Path): Cell
  {
    if p in done then PassCell(cfg, p, At(w, p)).(base := See(cfg, p, At(w, p)).base)
    else FilteredCell(cfg, p, At(w, p))
  }

  ghost predicate PassStopped(cfg: Config, w: World, w': World, done: set<Path>)
  {
    forall p :: At(w', p) == StoppedCell(cfg, w, done, p)
  }

  /** The two filtered scans and the filtered base show exactly what `See` gives for w. */
  ghost predicate Shows(cfg: Config, w: World, localFiles: map<Path, Snap>, remoteFiles: map<Path, Snap>,
                        base: map<Path, Snap>)
  {
    forall p :: Sight(Get(localFiles, p), Get(remoteFiles, p), Get(base, p)) == See(cfg, p, At(w, p))
  }

  ghost predicate Changes(cfg: Config, w: World, p: Path)
  {
    !Decide(See(cfg, p, At(w, p))).Keep?
  }

  /** The base entries that survive the oversized filter. */
  ghost function Bases(cfg: Config, w: World): set<Path>
  {
    set p | p in w.last && !Oversized(cfg, p, Get(w.local, p))
  }

  /** Those of them that the remote scan no longer shows. */
  ghost function Missing(cfg: Config, w: World): set<Path>
  {
    set p | p in Bases(cfg, w) && See(cfg, p, At(w, p)).remote.None?
  }

  /** Root-emptied guard: more than four fifths of at least ten base entries are gone. */
  ghost predicate GuardFires(cfg: Config, w: World)
  {
    |Bases(cfg, w)| >= 10 && 5 * |Missing(cfg, w)| > 4 * |Bases(cfg, w)|
  }

  /** Every base entry is a tracked path. */
  ghost predicate TrackedBase(cfg: Config, w: World)
  {
    forall p :: p in w.last ==> Tracked(cfg.patterns, p)
  }

  /** Worlds are equal when every path's cell is. */
  lemma SameCells(w1: World, w2: World)
    requires forall p :: At(w1, p) == At(w2, p)
    ensures w1 == w2
  {
    forall p
      ensures Get(w1.local, p) == Get(w2.local, p) && Get(w1.remote, p) == Get(w2.remote, p)
                && Get(w1.last, p) == Get(w2.last, p)
    {
      assert At(w1, p) == At(w2, p);
    }
    SameMap(w1.local, w2.local);
    SameMap(w1.remote, w2.remote);
    SameMap(w1.last, w2.last);
  }
}
