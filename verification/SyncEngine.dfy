/**
 HotSyncEngine of internal/cloudclaude/hot_sync.go: the state it keeps between passes and
 the passes as loops over the two scans. Copies and deletions may fail; a failed one has
 taken full effect or none. Each pass is tied to the path-by-path effect of SyncModel.
 */
module SyncEngine {
  import opened Wrappers
  import opened Paths
  import opened IgnoreMatcher
  import opened SyncModel
  import opened TreeWalk

  /** The regular files below one root. */
  class Disk {
    var files: map<Path, File>
  }

  /** Errors of a pass; the text of a failure can mention any path. */
  datatype PassError = RootEmptied(gone: nat, total: nat) | Failed(message: string)

  datatype PassResult = Synced(changed: bool) | Stopped(err: PassError)

  const PAUSED := "热同步已暂停"

  predicate Contains(s: string, sub: string)
  {
    exists i :: 0 <= i <= |s| && sub <= s[i..]
  }

  /** run() recognises the guard's error by its wording. */
  predicate Pauses(err: PassError)
  {
    err.RootEmptied? || Contains(err.message, PAUSED)
  }

  /** The guard's phrase stands at place i of the message. */
  predicate PhraseAt(message: string, i: nat)
  {
    i + 6 <= |message| && message[i..i + 6] == "热同步已暂停"
  }

  /** The guard's own error stops the polling for good, and so does every message with its phrase. */
  ghost predicate Halts(r: PassResult)
  {
    match r
    case Synced(_) => false
    case Stopped(RootEmptied(_, _)) => true
    case Stopped(Failed(message)) => exists i: nat :: PhraseAt(message, i)
  }

  lemma PausesIsHalts(err: PassError)
    ensures Pauses(err) <==> Halts(Stopped(err))
  {
    if err.Failed? {
      forall i | 0 <= i <= |err.message|
        ensures PAUSED <= err.message[i..] <==> PhraseAt(err.message, i)
      {
        if i + 6 <= |err.message| {
          assert err.message[i..][..6] == err.message[i..i + 6];
        }
      }
    }
  }

  const MIN_INTERVAL := 500_000_000
  const MAX_INTERVAL := 5_000_000_000
  const DEFAULT_INTERVAL := 1_000_000_000

  /** The next polling interval and idle streak after a round. */
  predicate Paces(current: int, idle: nat, hasChanges: bool, next: int, idle': nat)
  {
    && 500_000_000 <= next <= 5_000_000_000
    && (hasChanges ==> idle' == 0 && next == Max(500_000_000, current / 2))
    && (!hasChanges ==> idle' == idle + 1 && current <= next)
    && (!hasChanges && idle' < 3 ==> next == current)
    && (!hasChanges && idle' >= 3 ==> next == Min(5_000_000_000, current * 3 / 2))
  }

  function Min(a: int, b: int): int
  {
    if a < b then a else b
  }

  function Max(a: int, b: int): int
  {
    if a > b then a else b
  }

  // ---------------------------------------------------------------------------
  // Effects of the passes

  /** The effect of the resetting initial pass on one path. */
  ghost function MirrorCell(cfg: Config, p: Path, c: Cell): Cell
  {
    var v := See(cfg, p, c);
    Cell(c.local, Transfer(c.local, v.local), v.local)
  }

  ghost predicate Mirrored(cfg: Config, w: World, w': World, done: set<Path>)
  {
    forall p :: At(w', p) == if p in done then MirrorCell(cfg, p, At(w, p)) else Cell(At(w, p).local, None, None)
  }

  /** Progress of the merging initial pass, which fills the base as it goes. */
  ghost predicate Merged(cfg: Config, w: World, w': World, done: set<Path>)
  {
    forall p :: At(w', p) == if p in done then PassCell(cfg, p, At(w, p)) else At(w, p)
  }

  /** No path has disappeared from either side. */
  ghost predicate Grown(w: World, w': World)
  {
    w.local.Keys <= w'.local.Keys && w.remote.Keys <= w'.remote.Keys
  }

  lemma StartMerge(cfg: Config, w: World, w1: World)
    requires PassStopped(cfg, w, w1, {}) && w.last == map[]
    ensures Merged(cfg, w, w1, {})
  {
  }

  lemma SightAt(cfg: Config, w: World, localFiles: map<Path, Snap>, remoteFiles: map<Path, Snap>, base: map<Path, Snap>,
                p: Path)
    requires Shows(cfg, w, localFiles, remoteFiles, base)
    ensures See(cfg, p, At(w, p)) == Sight(Get(localFiles, p), Get(remoteFiles, p), Get(base, p))
  {
  }

  lemma MergeOne(cfg: Config, w: World, w1: World, w2: World, done: set<Path>, rel: Path)
    requires Merged(cfg, w, w1, done)
    requires forall p :: p != rel ==> At(w2, p) == At(w1, p)
    requires At(w2, rel) == PassCell(cfg, rel, At(w, rel))
    ensures Merged(cfg, w, w2, done + {rel})
  {
  }

  lemma MergedAll(cfg: Config, w: World, w': World, localFiles: map<Path, Snap>, remoteFiles: map<Path, Snap>,
                  known: set<Path>)
    requires w.last == map[] && Merged(cfg, w, w', known)
    requires Shows(cfg, w, localFiles, remoteFiles, map[])
    requires forall p :: p in known <==> p in localFiles || p in remoteFiles
    ensures PassDone(cfg, w, w')
  {
    UnknownPaths(cfg, w, localFiles, remoteFiles, map[]);
  }

  lemma KeysKept(before: World, after: World, rel: Path)
    requires forall p :: p != rel ==>
               Get(after.local, p) == Get(before.local, p) && Get(after.remote, p) == Get(before.remote, p)
    requires rel in before.local ==> rel in after.local
    requires rel in before.remote ==> rel in after.remote
    ensures Grown(before, after)
  {
    forall p | p != rel
      ensures p in before.local ==> p in after.local
      ensures p in before.remote ==> p in after.remote
    {
      assert Get(after.local, p) == Get(before.local, p) && Get(after.remote, p) == Get(before.remote, p);
    }
  }

  /** The effect of an upload-only pass on one path. */
  ghost function UploadCell(cfg: Config, p: Path, c: Cell): Cell
  {
    var v := See(cfg, p, c);
    if v.local.Some? then
      if SameSyncState(v.local, v.base) then Cell(c.local, c.remote, v.base)
      else Cell(c.local, Transfer(c.local, v.local), v.local)
    else if v.base.Some? then
      Cell(c.local, None, None)
    else
      Cell(c.local, c.remote, None)
  }

  ghost predicate Uploaded(cfg: Config, w: World, w': World, done: set<Path>)
  {
    forall p :: At(w', p) == if p in done then UploadCell(cfg, p, At(w, p)) else FilteredCell(cfg, p, At(w, p))
  }

  /** What a polling pass may do to the world, by its result. The guard stands before the loop, so
      whatever the result, no path is settled while its condition holds. */
  ghost predicate Outcome(cfg: Config, w: World, w': World, r: PassResult, done: set<Path>)
  {
    match r
    case Synced(changed) => PassDone(cfg, w, w') && !GuardFires(cfg, w) && (changed <==> exists p :: Changes(cfg, w, p))
    case Stopped(err) =>
      && PassStopped(cfg, w, w', done)
      && (GuardFires(cfg, w) ==> done == {})
      && (err.RootEmptied? ==> GuardFires(cfg, w) && err == RootEmptied(|Missing(cfg, w)|, |Bases(cfg, w)|))
  }

  /** After a stopped upload every path is untouched, done, or uploaded without being recorded. */
  ghost predicate PartlyUploaded(cfg: Config, w: World, w': World)
  {
    forall p :: At(w', p) in {FilteredCell(cfg, p, At(w, p)), UploadCell(cfg, p, At(w, p)),
                              UploadCell(cfg, p, At(w, p)).(base := See(cfg, p, At(w, p)).base)}
  }

  lemma UploadOneMore(cfg: Config, w: World, w1: World, w2: World, done: set<Path>, rel: Path)
    requires Uploaded(cfg, w, w1, done)
    requires forall p :: p != rel ==> At(w2, p) == At(w1, p)
    requires At(w2, rel) == UploadCell(cfg, rel, At(w, rel))
    ensures Uploaded(cfg, w, w2, done + {rel})
  {
  }

  lemma PartlyOneMore(cfg: Config, w: World, w1: World, w2: World, done: set<Path>, rel: Path)
    requires Uploaded(cfg, w, w1, done)
    requires forall p :: p != rel ==> At(w2, p) == At(w1, p)
    requires At(w2, rel) in {FilteredCell(cfg, rel, At(w, rel)),
               UploadCell(cfg, rel, At(w, rel)).(base := See(cfg, rel, At(w, rel)).base)}
    ensures PartlyUploaded(cfg, w, w2)
  {
  }

  lemma BothShow(cfg: Config, w: World, w1: World, localFiles: map<Path, Snap>, remoteFiles: map<Path, Snap>)
    requires PassStopped(cfg, w, w1, {})
    requires forall p :: Get(localFiles, p) == See(cfg, p, At(w, p)).local
    requires forall p :: Get(remoteFiles, p) == See(cfg, p, At(w1, p)).remote
    ensures Shows(cfg, w, localFiles, remoteFiles, w1.last)
  {
    forall p
      ensures Sight(Get(localFiles, p), Get(remoteFiles, p), Get(w1.last, p)) == See(cfg, p, At(w, p))
    {
      assert At(w1, p) == FilteredCell(cfg, p, At(w, p));
    }
  }

  lemma GuardMeaning(cfg: Config, w: World, localFiles: map<Path, Snap>, remoteFiles: map<Path, Snap>,
                     base: map<Path, Snap>)
    requires Shows(cfg, w, localFiles, remoteFiles, base)
    ensures base.Keys == Bases(cfg, w)
    ensures (set p | p in base && p !in remoteFiles) == Missing(cfg, w)
  {
    forall p
      ensures p in base <==> p in Bases(cfg, w)
      ensures p in base && p !in remoteFiles <==> p in Missing(cfg, w)
    {
      assert Sight(Get(localFiles, p), Get(remoteFiles, p), Get(base, p)) == See(cfg, p, At(w, p));
    }
  }

  lemma NothingKnown(cfg: Config, w: World, w1: World, localFiles: map<Path, Snap>, remoteFiles: map<Path, Snap>)
    requires Shows(cfg, w, localFiles, remoteFiles, w1.last) && PassStopped(cfg, w, w1, {})
    requires |localFiles| == |remoteFiles| == |w1.last| == 0
    ensures PassDone(cfg, w, w1) && !exists p :: Changes(cfg, w, p)
  {
    assert localFiles.Keys == {} && remoteFiles.Keys == {} && w1.last.Keys == {};
    UnknownPaths(cfg, w, localFiles, remoteFiles, w1.last);
  }

  // ---------------------------------------------------------------------------
  // Bookkeeping of the reconcile loop

  /** The base built so far: entries of the settled paths only. */
  ghost predicate NextBase(cfg: Config, w: World, next: map<Path, Snap>, done: set<Path>)
  {
    forall p :: Get(next, p) == if p in done then PassCell(cfg, p, At(w, p)).base else None
  }

  lemma UnsettledCell(cfg: Config, w: World, w1: World, done: set<Path>, rel: Path)
    requires PassStopped(cfg, w, w1, done) && rel !in done
    ensures At(w1, rel) == FilteredCell(cfg, rel, At(w, rel))
  {
  }

  lemma SettleOne(cfg: Config, w: World, w1: World, w2: World, done: set<Path>, rel: Path)
    requires PassStopped(cfg, w, w1, done)
    requires forall p :: p != rel ==> At(w2, p) == At(w1, p)
    requires At(w2, rel) == PassCell(cfg, rel, At(w, rel)).(base := See(cfg, rel, At(w, rel)).base)
    ensures PassStopped(cfg, w, w2, done + {rel})
  {
  }

  lemma NextBaseOne(cfg: Config, w: World, next: map<Path, Snap>, next': map<Path, Snap>, done: set<Path>, rel: Path)
    requires NextBase(cfg, w, next, done) && rel !in done
    requires var b := PassCell(cfg, rel, At(w, rel)).base; next' == if b.Some? then next[rel := b.value] else next
    ensures NextBase(cfg, w, next', done + {rel})
  {
  }

  lemma UnknownPaths(cfg: Config, w: World, localFiles: map<Path, Snap>, remoteFiles: map<Path, Snap>,
                     base: map<Path, Snap>)
    requires Shows(cfg, w, localFiles, remoteFiles, base)
    ensures forall p :: p !in base.Keys + localFiles.Keys + remoteFiles.Keys ==>
              See(cfg, p, At(w, p)) == Sight(None, None, None)
  {
    forall p | p !in base.Keys + localFiles.Keys + remoteFiles.Keys
      ensures See(cfg, p, At(w, p)) == Sight(None, None, None)
    {
      assert Sight(Get(localFiles, p), Get(remoteFiles, p), Get(base, p)) == See(cfg, p, At(w, p));
    }
  }

  /** Paths that none of the three maps knows are left alone by the pass. */
  lemma AllSettled(cfg: Config, w: World, w1: World, next: map<Path, Snap>, known: set<Path>)
    requires PassStopped(cfg, w, w1, known) && NextBase(cfg, w, next, known)
    requires forall p :: p !in known ==> See(cfg, p, At(w, p)) == Sight(None, None, None)
    ensures PassDone(cfg, w, World(w1.local, w1.remote, next))
    ensures forall p :: Changes(cfg, w, p) ==> p in known
  {
    forall p
      ensures At(World(w1.local, w1.remote, next), p) == PassCell(cfg, p, At(w, p))
      ensures Changes(cfg, w, p) ==> p in known
    {
      assert Get(next, p) == if p in known then PassCell(cfg, p, At(w, p)).base else None;
      assert At(w1, p).local == PassCell(cfg, p, At(w, p)).local;
    }
  }

  // ---------------------------------------------------------------------------
  // The engine

  class HotSyncEngine {
    const local: Disk
    const remote: Disk
    const resetRemote: bool
    const faulty: bool  // whether I/O operations may fail
    const rules: seq<Rule>
    const maxFileBytes: int
    ghost const cfg: Config
    var last: map<Path, Snap>
    var oversized: seq<(Path, nat)>
    var idleStreak: nat
    var halted: bool
    var interval: int

    ghost predicate Valid()
    {
      && local != remote
      && cfg.maxFileBytes == maxFileBytes
      && AllSound(cfg.patterns)
      && rules == RulesOf(cfg.patterns)
    }

    ghost function W(): World
      reads this, local, remote
    {
      World(local.files, remote.files, last)
    }

    /** The state built by StartHotSync, which replaces an interval that is not positive; run() clamps it. */
    constructor (local: Disk, remote: Disk, resetRemote: bool, patterns: seq<string>, maxFileBytes: int,
                 interval: int, faulty: bool)
      requires local != remote
      requires forall k :: 0 <= k < |patterns| ==> PlainLine(patterns[k])
      ensures Valid() && this.local == local && this.remote == remote && this.resetRemote == resetRemote
                && this.faulty == faulty
      ensures cfg == Config(ReadPatterns(patterns), maxFileBytes)
      ensures last == map[] && oversized == [] && !halted
      ensures this.interval ==
              Min(5_000_000_000, Max(500_000_000, if interval <= 0 then 1_000_000_000 else interval))
    {
      this.local, this.remote, this.resetRemote := local, remote, resetRemote;
      this.maxFileBytes, this.faulty := maxFileBytes, faulty;
      var compiled := NewIgnoreMatcher(patterns);
      this.rules, this.cfg := compiled, Config(ReadPatterns(patterns), maxFileBytes);
      last, oversized, idleStreak, halted := map[], [], 0, false;
      var wanted := if interval <= 0 then DEFAULT_INTERVAL else interval;
      this.interval := if wanted < MIN_INTERVAL then MIN_INTERVAL
                       else if wanted > MAX_INTERVAL then MAX_INTERVAL
                       else wanted;
    }

    // -------------------------------------------------------------------------
    // Per-file operations

    /** The fate of a call to the operating system or the SFTP server. */
    method Attempt() returns (ok: bool)
      ensures !faulty ==> ok
    {
      ok := true;
      if faulty {
        ok := *;
      }
    }

    method CopyLocalToRemote(rel: Path, state: Snap) returns (ok: bool)
      requires Valid()
      modifies remote
      ensures remote.files == old(remote.files) ||
              (rel in local.files && remote.files == old(remote.files)[rel := Copied(local.files[rel], state)])
      ensures ok ==> rel in local.files && remote.files == old(remote.files)[rel := Copied(local.files[rel], state)]
      ensures ok ==> remote.files[rel] == File(local.files[rel].content, state.seconds * 1_000_000_000)
      ensures !faulty && rel in local.files ==> ok
    {
      var reached := Attempt();
      if !reached || rel !in local.files {
        return false;
      }
      remote.files := remote.files[rel := Copied(local.files[rel], state)];
      ok := Attempt();
    }

    method CopyRemoteToLocal(rel: Path, state: Snap) returns (ok: bool)
      requires Valid()
      modifies local
      ensures local.files == old(local.files) ||
              (rel in remote.files && local.files == old(local.files)[rel := Copied(remote.files[rel], state)])
      ensures ok ==> rel in remote.files && local.files == old(local.files)[rel := Copied(remote.files[rel], state)]
      ensures ok ==> local.files[rel] == File(remote.files[rel].content, state.seconds * 1_000_000_000)
      ensures !faulty && rel in remote.files ==> ok
    {
      var reached := Attempt();
      if !reached || rel !in remote.files {
        return false;
      }
      local.files := local.files[rel := Copied(remote.files[rel], state)];
      ok := Attempt();
    }

    /** Deleting a file that is already gone succeeds. */
    method Delete(disk: Disk, rel: Path) returns (ok: bool)
      modifies disk
      ensures disk.files == old(disk.files) || disk.files == old(disk.files) - {rel}
      ensures ok ==> disk.files == old(disk.files) - {rel}
      ensures !faulty ==> ok
    {
      var reached := Attempt();
      if !reached {
        return false;
      }
      disk.files := disk.files - {rel};
      ok := Attempt();
    }

    method ApplyLocalState(rel: Path, state: Option<Snap>) returns (ok: bool)
      requires Valid()
      requires state.Some? ==> rel in local.files
      modifies remote
      ensures forall p :: p != rel ==> Get(remote.files, p) == old(Get(remote.files, p))
      ensures Get(remote.files, rel) in {old(Get(remote.files, rel)), Transfer(Get(local.files, rel), state)}
      ensures ok ==> Get(remote.files, rel) == Transfer(Get(local.files, rel), state)
      ensures !faulty ==> ok
    {
      if state.None? {
        ok := Delete(remote, rel);
      } else {
        ok := CopyLocalToRemote(rel, state.value);
      }
    }

    method ApplyRemoteState(rel: Path, state: Option<Snap>) returns (ok: bool)
      requires Valid()
      requires state.Some? ==> rel in remote.files
      modifies local
      ensures forall p :: p != rel ==> Get(local.files, p) == old(Get(local.files, p))
      ensures Get(local.files, rel) in {old(Get(local.files, rel)), Transfer(Get(remote.files, rel), state)}
      ensures ok ==> Get(local.files, rel) == Transfer(Get(remote.files, rel), state)
      ensures !faulty ==> ok
    {
      if state.None? {
        ok := Delete(local, rel);
      } else {
        ok := CopyRemoteToLocal(rel, state.value);
      }
    }

    // -------------------------------------------------------------------------
    // Scans and the oversized filter

    /** What the walk of a readable tree returns (module TreeWalk). */
    ghost predicate IsScan(scan: map<Path, Snap>, files: map<Path, File>)
      reads this
    {
      forall p :: Get(scan, p) == if Tracked(cfg.patterns, p) then SnapOf(Get(files, p)) else None
    }

    /** applyOversizedFilter: drops the oversized files from the scan and from the base. */
    method ApplyOversizedFilter(localFiles: map<Path, Snap>, recordOversized: bool)
      returns (kept: map<Path, Snap>, oversizedSet: set<Path>)
      requires Valid() && IsScan(localFiles, local.files)
      modifies this`last, this`oversized
      ensures forall p :: p in oversizedSet <==> Oversized(cfg, p, Get(local.files, p))
      ensures forall p :: Get(kept, p) == See(cfg, p, old(At(W(), p))).local
      ensures forall p :: Get(last, p) == See(cfg, p, old(At(W(), p))).base
      ensures !recordOversized ==> oversized == old(oversized)
      ensures recordOversized ==> |oversized| == |old(oversized)| + |oversizedSet|
      ensures recordOversized ==> forall p :: p in oversizedSet ==>
                p in localFiles && (p, localFiles[p].size) in oversized
    {
      kept, oversizedSet := DropOversized(localFiles, recordOversized);
      FilterMeaning(localFiles, oversizedSet);
    }

    method DropOversized(localFiles: map<Path, Snap>, recordOversized: bool)
      returns (kept: map<Path, Snap>, dropped: set<Path>)
      modifies this`last, this`oversized
      ensures forall p :: p in dropped <==> maxFileBytes > 0 && p in localFiles && localFiles[p].size >= maxFileBytes
      ensures kept == localFiles - dropped
      ensures last == old(last) - dropped
      ensures !recordOversized ==> oversized == old(oversized)
      ensures recordOversized ==> |oversized| == |old(oversized)| + |dropped|
      ensures recordOversized ==> forall p :: p in dropped ==> p in localFiles && (p, localFiles[p].size) in oversized
    {
      kept, dropped := localFiles, {};
      if maxFileBytes <= 0 {
        return;
      }
      var todo := localFiles.Keys;
      while todo != {}
        invariant todo <= localFiles.Keys
        invariant forall p :: p in dropped <==> p in localFiles && p !in todo && localFiles[p].size >= maxFileBytes
        invariant kept == localFiles - dropped
        invariant last == old(last) - dropped
        invariant !recordOversized ==> oversized == old(oversized)
        invariant recordOversized ==> |oversized| == |old(oversized)| + |dropped|
        invariant recordOversized ==> forall p :: p in dropped ==> (p, localFiles[p].size) in oversized
        decreases |todo|
      {
        var rel :| rel in todo;
        todo := todo - {rel};
        if localFiles[rel].size >= maxFileBytes {
          if recordOversized {
            oversized := oversized + [(rel, localFiles[rel].size)];
          }
          kept, last, dropped := kept - {rel}, last - {rel}, dropped + {rel};
        }
      }
    }

    lemma FilterMeaning(localFiles: map<Path, Snap>, oversizedSet: set<Path>)
      requires Valid() && IsScan(localFiles, local.files)
      requires forall p :: p in oversizedSet <==>
                 maxFileBytes > 0 && p in localFiles && localFiles[p].size >= maxFileBytes
      ensures forall p :: p in oversizedSet <==> Oversized(cfg, p, Get(local.files, p))
      ensures forall p :: Get(localFiles - oversizedSet, p) ==
                          if Oversized(cfg, p, Get(local.files, p)) || !Tracked(cfg.patterns, p) then None
                          else SnapOf(Get(local.files, p))
    {
      forall p
        ensures p in oversizedSet <==> Oversized(cfg, p, Get(local.files, p))
      {
        assert Get(localFiles, p) == if Tracked(cfg.patterns, p) then SnapOf(Get(local.files, p)) else None;
      }
    }

    // -------------------------------------------------------------------------
    // The reconcile loop

    /** One path of the loop: compare with the base, then upload, download or delete. */
    method ReconcileOne(rel: Path, localState: Option<Snap>, remoteState: Option<Snap>, baseState: Option<Snap>,
                        ghost c: Cell)
      returns (ok: bool, changed: bool, next: Option<Snap>)
      requires Valid()
      requires Get(local.files, rel) == c.local && Get(remote.files, rel) == c.remote
      requires Sight(localState, remoteState, baseState) == See(cfg, rel, c)
      modifies local, remote
      ensures forall p :: p != rel ==>
                Get(local.files, p) == old(Get(local.files, p)) && Get(remote.files, p) == old(Get(remote.files, p))
      ensures (Get(local.files, rel), Get(remote.files, rel)) in
                {(c.local, c.remote), (PassCell(cfg, rel, c).local, PassCell(cfg, rel, c).remote)}
      ensures ok ==> Cell(Get(local.files, rel), Get(remote.files, rel), next) == PassCell(cfg, rel, c)
      ensures ok ==> (changed <==> !Decide(See(cfg, rel, c)).Keep?)
      ensures !faulty ==> ok
    {
      var localChanged := !SameSyncState(localState, baseState);
      var remoteChanged := !SameSyncState(remoteState, baseState);
      ok, changed := true, localChanged || remoteChanged;
      if !localChanged && !remoteChanged {
        next := baseState;
      } else if localChanged && !remoteChanged {
        ok := ApplyLocalState(rel, localState);
        next := localState;
      } else if !localChanged && remoteChanged {
        ok := ApplyRemoteState(rel, remoteState);
        next := remoteState;
      } else if ChooseConflictWinner(localState, remoteState).LocalSide? {
        ok := ApplyLocalState(rel, localState);
        next := localState;
      } else {
        ok := ApplyRemoteState(rel, remoteState);
        next := remoteState;
      }
    }

    /** A round of the loop for the path rel, with the base under construction. */
    method ReconcileNext(rel: Path, localFiles: map<Path, Snap>, remoteFiles: map<Path, Snap>, base: map<Path, Snap>,
                         next: map<Path, Snap>, ghost w: World, ghost done: set<Path>)
      returns (ok: bool, differs: bool, next': map<Path, Snap>, ghost done': set<Path>)
      requires Valid() && Shows(cfg, w, localFiles, remoteFiles, base)
      requires rel !in done && PassStopped(cfg, w, W(), done) && NextBase(cfg, w, next, done)
      modifies local, remote
      ensures PassStopped(cfg, w, W(), done')
      ensures ok ==> done' == done + {rel} && NextBase(cfg, w, next', done') && (differs <==> Changes(cfg, w, rel))
      ensures !faulty ==> ok
    {
      ghost var before := W();
      UnsettledCell(cfg, w, before, done, rel);
      SightAt(cfg, w, localFiles, remoteFiles, base, rel);
      var kept;
      ok, differs, kept := ReconcileOne(rel, Get(localFiles, rel), Get(remoteFiles, rel), Get(base, rel), At(w, rel));
      next' := if kept.Some? then next[rel := kept.value] else next;
      done' := done + {rel};
      if ok || At(W(), rel) != At(before, rel) {
        SettleOne(cfg, w, before, W(), done, rel);
      } else {
        SameFiles(before);
        done' := done;
      }
      if ok {
        NextBaseOne(cfg, w, next, next', done, rel);
      }
    }

    /** The loop over all known paths, in any order, and the replacement of the base. */
    method Reconcile(localFiles: map<Path, Snap>, remoteFiles: map<Path, Snap>, ghost w: World)
      returns (err: Option<PassError>, changed: bool, ghost done: set<Path>)
      requires Valid() && PassStopped(cfg, w, W(), {})
      requires Shows(cfg, w, localFiles, remoteFiles, last)
      modifies this`last, local, remote
      ensures err.None? ==> PassDone(cfg, w, W()) && (changed <==> exists p :: Changes(cfg, w, p))
      ensures err.Some? ==> faulty && err.value.Failed? && PassStopped(cfg, w, W(), done)
    {
      var base := last;
      var todo := base.Keys + localFiles.Keys + remoteFiles.Keys;
      UnknownPaths(cfg, w, localFiles, remoteFiles, base);
      ghost var known := todo;
      var next: map<Path, Snap> := map[];
      err, changed, done := None, false, {};
      while todo != {}
        invariant todo !! done
        invariant forall p :: p in known <==> p in todo || p in done
        invariant PassStopped(cfg, w, W(), done)
        invariant NextBase(cfg, w, next, done)
        invariant changed <==> exists p :: p in done && Changes(cfg, w, p)
        decreases |todo|
      {
        var rel :| rel in todo;
        todo := todo - {rel};
        var ok, differs;
        ok, differs, next, done := ReconcileNext(rel, localFiles, remoteFiles, base, next, w, done);
        if !ok {
          var message: string := *;
          return Some(Failed(message)), changed, done;
        }
        changed := changed || differs;
      }
      AllSettled(cfg, w, W(), next, done);
      last := next;
    }

    lemma SameFiles(before: World)
      requires forall p :: At(W(), p) == At(before, p)
      ensures W() == before
    {
      SameCells(W(), before);
    }

    // -------------------------------------------------------------------------
    // The passes

    /** The remote root is a directory, and so is everything below it that the walk enters. */
    ghost predicate Listable(remoteRoot: Option<Node>)
    {
      remoteRoot.Some? && remoteRoot.value.Dir? && !Blocked(cfg.patterns, remoteRoot.value, [])
    }

    /** The trees that the walks are given list the files of the two disks. */
    ghost predicate Rooted(localRoot: Option<Node>, remoteRoot: Option<Node>)
      reads local, remote
    {
      && (localRoot.Some? ==> WellFormed(localRoot.value))
      && (remoteRoot.Some? ==> WellFormed(remoteRoot.value))
      && Lists(local.files, localRoot)
      && (if remoteRoot.Some? then Represents(remote.files, remoteRoot.value) else remote.files == map[])
    }

    /** The local scan after the oversized filter. */
    method ScanHot(localRoot: Option<Node>, recordOversized: bool)
      returns (localFiles: map<Path, Snap>, oversizedSet: set<Path>)
      requires Valid() && (localRoot.Some? ==> WellFormed(localRoot.value)) && Lists(local.files, localRoot)
      modifies this`last, this`oversized
      ensures PassStopped(cfg, old(W()), W(), {})
      ensures forall p :: Get(localFiles, p) == See(cfg, p, old(At(W(), p))).local
      ensures forall p :: p in oversizedSet <==> Oversized(cfg, p, Get(local.files, p))
      ensures !recordOversized ==> oversized == old(oversized)
      ensures recordOversized ==> |oversized| == |old(oversized)| + |oversizedSet|
      ensures recordOversized ==> forall p :: p in oversizedSet ==>
                p in local.files && (p, |local.files[p].content|) in oversized
    {
      ghost var w := W();
      var scan := ScanLocal(rules, cfg.patterns, localRoot);
      forall p
        ensures Get(scan, p) == if Tracked(cfg.patterns, p) then SnapOf(Get(local.files, p)) else None
      {
        assert Get(local.files, p) == match localRoot
                                      case None => None
                                      case Some(n) => if Readable(n, p) then RegularAt(n, p) else None;
      }
      localFiles, oversizedSet := ApplyOversizedFilter(scan, recordOversized);
      assert PassStopped(cfg, w, W(), {});
      forall p | p in oversizedSet
        ensures p in local.files && p in scan && scan[p].size == |local.files[p].content|
      {
        assert Get(scan, p) == if Tracked(cfg.patterns, p) then SnapOf(Get(local.files, p)) else None;
      }
    }

    /** Both scans with the oversized filter between them; None if the remote walk failed. */
    method ScanBoth(localRoot: Option<Node>, remoteRoot: Option<Node>)
      returns (localFiles: map<Path, Snap>, remoteFiles: Option<map<Path, Snap>>)
      requires Valid() && Rooted(localRoot, remoteRoot)
      modifies this`last, this`oversized
      ensures PassStopped(cfg, old(W()), W(), {})
      ensures remoteFiles.Some? ==> Shows(cfg, old(W()), localFiles, remoteFiles.value, last)
      ensures oversized == old(oversized)
      ensures !faulty && Listable(remoteRoot) ==> remoteFiles.Some?
    {
      var oversizedSet;
      localFiles, oversizedSet := ScanHot(localRoot, false);
      remoteFiles := ScanRemaining(remoteRoot, oversizedSet);
      if remoteFiles.Some? {
        BothShow(cfg, old(W()), W(), localFiles, remoteFiles.value);
      }
    }

    /** The remote scan without the oversized paths. */
    method ScanRemaining(remoteRoot: Option<Node>, oversizedSet: set<Path>)
      returns (remoteFiles: Option<map<Path, Snap>>)
      requires Valid()
      requires remoteRoot.Some? ==> WellFormed(remoteRoot.value) && Represents(remote.files, remoteRoot.value)
      requires forall p :: p in oversizedSet <==> Oversized(cfg, p, Get(local.files, p))
      ensures remoteFiles.Some? ==> forall p :: Get(remoteFiles.value, p) == See(cfg, p, At(W(), p)).remote
      ensures !faulty && Listable(remoteRoot) ==> remoteFiles.Some?
    {
      remoteFiles := None;
      var reached := Attempt();
      if reached {
        var walked := ScanRemote(rules, cfg.patterns, remoteRoot);
        if walked.Some? {
          remoteFiles := Some(walked.value - oversizedSet);
          forall p
            ensures Get(remoteFiles.value, p) == See(cfg, p, At(W(), p)).remote
          {
            assert Get(remote.files, p) == RegularAt(remoteRoot.value, p);
          }
        }
      }
    }

    /** Root-emptied guard: how many base entries the remote scan has lost. */
    method CountMissing(remoteFiles: map<Path, Snap>) returns (count: nat)
      ensures count == |set p | p in last && p !in remoteFiles|
    {
      var todo := last.Keys;
      ghost var gone: set<Path> := {};
      count := 0;
      while todo != {}
        invariant todo <= last.Keys
        invariant forall p :: p in gone <==> p in last && p !in todo && p !in remoteFiles
        invariant count == |gone|
        decreases |todo|
      {
        var rel :| rel in todo;
        todo := todo - {rel};
        if rel !in remoteFiles {
          count := count + 1;
          gone := gone + {rel};
        }
      }
      assert gone == set p | p in last && p !in remoteFiles;
    }

    /** One polling pass. */
    method SyncOnceAdaptive(localRoot: Option<Node>, remoteRoot: Option<Node>)
      returns (r: PassResult, ghost done: set<Path>)
      requires Valid() && Rooted(localRoot, remoteRoot)
      modifies this`last, this`oversized, local, remote
      ensures Outcome(cfg, old(W()), W(), r, done) && oversized == old(oversized)
      ensures !faulty && Listable(remoteRoot) ==>
                if GuardFires(cfg, old(W())) then r.Stopped? && r.err.RootEmptied? else r.Synced?
    {
      ghost var w := W();
      done := {};
      var localFiles, remoteScan := ScanBoth(localRoot, remoteRoot);
      if remoteScan.None? {
        var message: string := *;
        return Stopped(Failed(message)), done;
      }
      var remoteFiles := remoteScan.value;
      GuardMeaning(cfg, w, localFiles, remoteFiles, last);
      if |last| >= 10 {
        var missing := CountMissing(remoteFiles);
        if 5 * missing > 4 * |last| {
          return Stopped(RootEmptied(missing, |last|)), done;
        }
      }
      if |localFiles| == 0 && |remoteFiles| == 0 && |last| == 0 {
        NothingKnown(cfg, w, W(), localFiles, remoteFiles);
        return Synced(false), done;
      }
      var err, changed;
      err, changed, done := Reconcile(localFiles, remoteFiles, w);
      r := if err.Some? then Stopped(err.value) else Synced(changed);
    }

    /** The same pass without the guard and without reporting changes. */
    method SyncOnce(localRoot: Option<Node>, remoteRoot: Option<Node>)
      returns (err: Option<PassError>, ghost done: set<Path>)
      requires Valid() && Rooted(localRoot, remoteRoot)
      modifies this`last, this`oversized, local, remote
      ensures err.None? ==> PassDone(cfg, old(W()), W())
      ensures err.Some? ==> err.value.Failed? && PassStopped(cfg, old(W()), W(), done)
      ensures oversized == old(oversized)
      ensures !faulty && Listable(remoteRoot) ==> err.None?
    {
      ghost var w := W();
      done := {};
      var localFiles, remoteScan := ScanBoth(localRoot, remoteRoot);
      if remoteScan.None? {
        var message: string := *;
        return Some(Failed(message)), done;
      }
      var changed;
      err, changed, done := Reconcile(localFiles, remoteScan.value, w);
    }

    /** Uploads local changes and removes remotely what is gone locally; reads no remote state. */
    method SyncOnceUploadOnly(localRoot: Option<Node>) returns (ok: bool)
      requires Valid() && (localRoot.Some? ==> WellFormed(localRoot.value)) && Lists(local.files, localRoot)
      modifies this`last, this`oversized, remote
      ensures ok ==> forall p :: At(W(), p) == UploadCell(cfg, p, old(At(W(), p)))
      ensures !ok ==> PartlyUploaded(cfg, old(W()), W())
      ensures !faulty ==> ok
    {
      ghost var w := W();
      var localFiles, _ := ScanHot(localRoot, false);
      ok := UploadChanged(localFiles, w);
      if !ok {
        return;
      }
      ghost var done;
      ok, done := RemoveGone(localFiles, w);
      if ok {
        assert forall p :: p !in done ==> UploadCell(cfg, p, At(w, p)) == FilteredCell(cfg, p, At(w, p));
      }
    }

    /** First loop: every scanned file whose state is not the base state is uploaded. */
    method UploadChanged(localFiles: map<Path, Snap>, ghost w: World) returns (ok: bool)
      requires Valid() && Uploaded(cfg, w, W(), {})
      requires forall p :: Get(localFiles, p) == See(cfg, p, At(w, p)).local
      modifies this`last, remote
      ensures ok ==> Uploaded(cfg, w, W(), localFiles.Keys)
      ensures !ok ==> PartlyUploaded(cfg, w, W())
      ensures !faulty ==> ok
    {
      var todo := localFiles.Keys;
      assert localFiles.Keys - todo == {};
      while todo != {}
        invariant todo <= localFiles.Keys
        invariant Uploaded(cfg, w, W(), localFiles.Keys - todo)
        decreases todo
      {
        var rel :| rel in todo;
        OneLess(localFiles.Keys, todo, rel);
        assert Get(localFiles, rel) == See(cfg, rel, At(w, rel)).local;
        ok := UploadNext(rel, localFiles[rel], w, localFiles.Keys - todo);
        if !ok {
          return;
        }
        todo := todo - {rel};
      }
      assert localFiles.Keys - todo == localFiles.Keys;
      ok := true;
    }

    /** Second loop: base entries without a scanned local file are deleted remotely and forgotten. */
    method RemoveGone(localFiles: map<Path, Snap>, ghost w: World) returns (ok: bool, ghost done: set<Path>)
      requires Valid() && Uploaded(cfg, w, W(), localFiles.Keys)
      requires forall p :: Get(localFiles, p) == See(cfg, p, At(w, p)).local
      modifies this`last, remote
      ensures ok ==> Uploaded(cfg, w, W(), done)
      ensures !ok ==> PartlyUploaded(cfg, w, W())
      ensures ok ==> forall p :: p in done <==> p in localFiles || See(cfg, p, At(w, p)).base.Some?
      ensures !faulty ==> ok
    {
      var todo := last.Keys;
      ghost var base := todo;
      done := localFiles.Keys;
      while todo != {}
        invariant todo <= base
        invariant forall p :: p in done <==> p in localFiles || (p in base && p !in todo)
        invariant Uploaded(cfg, w, W(), done)
        decreases |todo|
      {
        var rel :| rel in todo;
        todo := todo - {rel};
        if rel !in localFiles {
          ok := RemoveNext(rel, w, done);
          if !ok {
            return;
          }
          done := done + {rel};
        }
      }
      ok := true;
    }

    method RemoveNext(rel: Path, ghost w: World, ghost done: set<Path>) returns (ok: bool)
      requires Valid() && Uploaded(cfg, w, W(), done) && rel !in done && rel in last
      requires See(cfg, rel, At(w, rel)).local.None?
      modifies this`last, remote
      ensures ok ==> Uploaded(cfg, w, W(), done + {rel}) && last == old(last) - {rel}
      ensures !ok ==> PartlyUploaded(cfg, w, W())
      ensures !faulty ==> ok
    {
      assert At(W(), rel) == FilteredCell(cfg, rel, At(w, rel));
      ghost var before := W();
      ok := Delete(remote, rel);
      if ok {
        last := last - {rel};
        UploadOneMore(cfg, w, before, W(), done, rel);
      } else {
        PartlyOneMore(cfg, w, before, W(), done, rel);
      }
    }

    method UploadNext(rel: Path, state: Snap, ghost w: World, ghost done: set<Path>) returns (ok: bool)
      requires Valid() && Uploaded(cfg, w, W(), done) && rel !in done
      requires See(cfg, rel, At(w, rel)).local == Some(state)
      modifies this`last, remote
      ensures ok ==> Uploaded(cfg, w, W(), done + {rel})
      ensures !ok ==> PartlyUploaded(cfg, w, W())
      ensures !faulty ==> ok
    {
      assert At(W(), rel) == FilteredCell(cfg, rel, At(w, rel));
      ghost var before := W();
      ok := true;
      if !SameSyncState(Some(state), Get(last, rel)) {
        ok := CopyLocalToRemote(rel, state);
        if ok {
          last := last[rel := state];
        }
      }
      if ok {
        UploadOneMore(cfg, w, before, W(), done, rel);
      } else {
        PartlyOneMore(cfg, w, before, W(), done, rel);
      }
    }

    // -------------------------------------------------------------------------
    // The initial pass

    /** removeRemoteTree: a missing root is fine, a directory is listed and emptied first. */
    method RemoveRemoteTree(root: Option<Node>) returns (ok: bool)
      requires Valid() && (root.Some? ==> WellFormed(root.value) && Represents(remote.files, root.value))
      requires root.None? ==> remote.files == map[]
      modifies remote
      ensures ok ==> remote.files == map[]
      ensures forall p :: Get(remote.files, p) in {None, old(Get(remote.files, p))}
      ensures !faulty ==> (ok <==> root.None? || Erasable(root.value))
    {
      ok := true;
      if root.Some? {
        ghost var was := remote.files;
        ok := RemoveNode([], root.value);
        if ok {
          AllRemoved(was, remote.files, root.value);
        }
      }
    }

    method RemoveNode(base: Path, n: Node) returns (ok: bool)
      requires Valid() && WellFormed(n)
      modifies remote
      ensures forall p :: Get(remote.files, p) in {None, old(Get(remote.files, p))}
      ensures ok ==> RegularsGone(remote.files, base, n)
      ensures !faulty ==> (ok <==> Erasable(n))
      decreases n
    {
      if !n.Dir? {
        ok := Delete(remote, base);
        assert forall p :: base <= p && p[|base|..] == [] ==> p == base;
        return;
      }
      var listed := Attempt();
      if !listed || !n.readable {
        return false;
      }
      for i := 0 to |n.entries|
        invariant forall p :: Get(remote.files, p) in {None, old(Get(remote.files, p))}
        invariant AmongGone(remote.files, base, n.entries, i)
        invariant !faulty ==> forall m :: 0 <= m < i ==> Erasable(n.entries[m].node)
      {
        ghost var mid := remote.files;
        ok := RemoveNode(base + [n.entries[i].name], n.entries[i].node);
        if !ok {
          return;
        }
        GoneOneMore(mid, remote.files, base, n.entries, i);
      }
      AllGone(remote.files, base, n);
      ok := Attempt();
    }

    /** Startup: mirror the local side onto an emptied remote, or merge without deleting. */
    method InitialSync(localRoot: Option<Node>, remoteRoot: Option<Node>) returns (ok: bool)
      requires Valid() && Rooted(localRoot, remoteRoot) && last == map[] && oversized == []
      modifies this`last, this`oversized, local, remote
      ensures ok && resetRemote ==> forall p :: At(W(), p) == MirrorCell(cfg, p, old(At(W(), p)))
      ensures ok && !resetRemote ==> PassDone(cfg, old(W()), W())
      ensures !faulty && resetRemote && (remoteRoot.None? || Erasable(remoteRoot.value)) ==> ok
      ensures !faulty && !resetRemote && Listable(remoteRoot) ==> ok
      ensures resetRemote ==> local.files == old(local.files)
      ensures !resetRemote ==> Grown(old(W()), W())
      ensures forall p :: Oversized(cfg, p, old(Get(local.files, p))) ==>
                (p, |old(local.files)[p].content|) in oversized
    {
      ghost var w := W();
      var localFiles, oversizedSet := ScanHot(localRoot, true);
      assert forall p :: p in oversizedSet ==> p in w.local && local.files[p] == w.local[p];
      if resetRemote {
        ok := MirrorLocal(remoteRoot, localFiles, w);
        return;
      }
      var remoteScan := ScanRemaining(remoteRoot, oversizedSet);
      if remoteScan.None? {
        return false;
      }
      BothShow(cfg, w, W(), localFiles, remoteScan.value);
      SameMap(last, map[]);
      ok := MergeBoth(localFiles, remoteScan.value, w);
    }

    /** removeRemoteTree and MkdirAll: what is left is the local side. */
    method ClearRemote(remoteRoot: Option<Node>, ghost w: World) returns (ok: bool)
      requires Valid() && PassStopped(cfg, w, W(), {}) && w.last == map[]
      requires remoteRoot.Some? ==> WellFormed(remoteRoot.value) && Represents(remote.files, remoteRoot.value)
      requires remoteRoot.None? ==> remote.files == map[]
      modifies remote
      ensures ok ==> Mirrored(cfg, w, W(), {})
      ensures !faulty && (remoteRoot.None? || Erasable(remoteRoot.value)) ==> ok
    {
      assert forall p :: At(W(), p) == FilteredCell(cfg, p, At(w, p));
      ok := RemoveRemoteTree(remoteRoot);
      if ok {
        ok := Attempt();
      }
    }

    /** With ResetRemote: empty the remote tree, then upload every hot file. */
    method MirrorLocal(remoteRoot: Option<Node>, localFiles: map<Path, Snap>, ghost w: World) returns (ok: bool)
      requires Valid() && PassStopped(cfg, w, W(), {}) && w.last == map[]
      requires remoteRoot.Some? ==> WellFormed(remoteRoot.value) && Represents(remote.files, remoteRoot.value)
      requires remoteRoot.None? ==> remote.files == map[]
      requires forall p :: Get(localFiles, p) == See(cfg, p, At(w, p)).local
      modifies this`last, remote
      ensures ok ==> forall p :: At(W(), p) == MirrorCell(cfg, p, At(w, p))
      ensures !faulty && (remoteRoot.None? || Erasable(remoteRoot.value)) ==> ok
    {
      ok := ClearRemote(remoteRoot, w);
      if ok {
        ok := UploadAll(localFiles, w);
      }
    }

    method UploadAll(localFiles: map<Path, Snap>, ghost w: World) returns (ok: bool)
      requires Valid() && Mirrored(cfg, w, W(), {})
      requires forall p :: Get(localFiles, p) == See(cfg, p, At(w, p)).local
      modifies this`last, remote
      ensures ok ==> forall p :: At(W(), p) == MirrorCell(cfg, p, At(w, p))
      ensures !faulty ==> ok
    {
      var todo := localFiles.Keys;
      assert localFiles.Keys - todo == {};
      while todo != {}
        invariant todo <= localFiles.Keys
        invariant Mirrored(cfg, w, W(), localFiles.Keys - todo)
        decreases todo
      {
        var rel :| rel in todo;
        OneLess(localFiles.Keys, todo, rel);
        assert Get(localFiles, rel) == See(cfg, rel, At(w, rel)).local;
        ok := MirrorNext(rel, localFiles[rel], w, localFiles.Keys - todo);
        if !ok {
          return;
        }
        todo := todo - {rel};
      }
      assert forall p :: p !in localFiles ==> See(cfg, p, At(w, p)).local.None?;
      assert localFiles.Keys - todo == localFiles.Keys;
      ok := true;
    }

    method MirrorNext(rel: Path, state: Snap, ghost w: World, ghost done: set<Path>) returns (ok: bool)
      requires Valid() && Mirrored(cfg, w, W(), done) && rel !in done
      requires See(cfg, rel, At(w, rel)).local == Some(state)
      modifies this`last, remote
      ensures ok ==> Mirrored(cfg, w, W(), done + {rel})
      ensures !faulty ==> ok
    {
      assert At(W(), rel).local == At(w, rel).local;
      ok := CopyLocalToRemote(rel, state);
      if ok {
        last := last[rel := state];
      }
    }

    /** Without ResetRemote: the newer side of every path seen on either side wins. */
    method MergeBoth(localFiles: map<Path, Snap>, remoteFiles: map<Path, Snap>, ghost w: World) returns (ok: bool)
      requires Valid() && w.last == map[] && PassStopped(cfg, w, W(), {})
      requires Shows(cfg, w, localFiles, remoteFiles, map[])
      modifies this`last, local, remote
      ensures ok ==> PassDone(cfg, w, W())
      ensures !faulty ==> ok
      ensures Grown(old(W()), W())
    {
      StartMerge(cfg, w, W());
      ghost var start, known := W(), localFiles.Keys + remoteFiles.Keys;
      var todo := localFiles.Keys + remoteFiles.Keys;
      assert known - todo == {};
      while todo != {}
        invariant todo <= known
        invariant Merged(cfg, w, W(), known - todo)
        invariant Grown(start, W())
        decreases todo
      {
        var rel :| rel in todo;
        OneLess(known, todo, rel);
        SightAt(cfg, w, localFiles, remoteFiles, map[], rel);
        ok := MergeNext(rel, Get(localFiles, rel), Get(remoteFiles, rel), w, known - todo);
        if !ok {
          return;
        }
        todo := todo - {rel};
      }
      assert known - todo == known;
      MergedAll(cfg, w, W(), localFiles, remoteFiles, known);
      ok := true;
    }

    method MergeNext(rel: Path, localState: Option<Snap>, remoteState: Option<Snap>, ghost w: World,
                     ghost done: set<Path>)
      returns (ok: bool)
      requires Valid() && Merged(cfg, w, W(), done) && rel !in done
      requires See(cfg, rel, At(w, rel)) == Sight(localState, remoteState, None)
      requires localState.Some? || remoteState.Some?
      modifies this`last, local, remote
      ensures ok ==> Merged(cfg, w, W(), done + {rel})
      ensures !faulty ==> ok
      ensures Grown(old(W()), W())
    {
      assert At(W(), rel) == At(w, rel);
      ghost var before := W();
      if ChooseConflictWinner(localState, remoteState).LocalSide? {
        ok := ApplyLocalState(rel, localState);
        if ok && localState.Some? {
          last := last[rel := localState.value];
        }
      } else {
        ok := ApplyRemoteState(rel, remoteState);
        if ok && remoteState.Some? {
          last := last[rel := remoteState.value];
        }
      }
      KeysKept(before, W(), rel);
      if ok {
        assert At(W(), rel) == PassCell(cfg, rel, At(w, rel));
        MergeOne(cfg, w, before, W(), done, rel);
      }
    }

    // -------------------------------------------------------------------------
    // The polling loop

    /** Faster after a change, slower after three idle rounds, always between the two limits. */
    method NextInterval(current: int, hasChanges: bool) returns (next: int)
      requires MIN_INTERVAL <= current <= MAX_INTERVAL
      modifies this`idleStreak
      ensures Paces(current, old(idleStreak), hasChanges, next, idleStreak)
    {
      if hasChanges {
        idleStreak := 0;
        next := current / 2;
        if next < MIN_INTERVAL {
          next := MIN_INTERVAL;
        }
        return;
      }
      idleStreak := idleStreak + 1;
      next := current;
      if idleStreak >= 3 {
        next := current * 3 / 2;
        if next > MAX_INTERVAL {
          next := MAX_INTERVAL;
        }
      }
    }

    /** The pass of a firing, and the halt if its error calls for it. */
    method Poll(localRoot: Option<Node>, remoteRoot: Option<Node>) returns (r: PassResult, ghost done: set<Path>)
      requires Valid() && Rooted(localRoot, remoteRoot) && !halted
      modifies this`last, this`oversized, this`halted, local, remote
      ensures Outcome(cfg, old(W()), W(), r, done)
      ensures halted <==> Halts(r)
      ensures !faulty && Listable(remoteRoot) ==>
                if GuardFires(cfg, old(W())) then r.Stopped? && r.err.RootEmptied? else r.Synced?
    {
      r, done := SyncOnceAdaptive(localRoot, remoteRoot);
      if r.Stopped? {
        PausesIsHalts(r.err);
      }
      if r.Stopped? && Pauses(r.err) {
        halted := true;
      }
    }

    /** One firing of the timer in run(). */
    method Tick(localRoot: Option<Node>, remoteRoot: Option<Node>)
      returns (r: Option<PassResult>, ghost done: set<Path>)
      requires Valid() && Rooted(localRoot, remoteRoot)
      requires MIN_INTERVAL <= interval <= MAX_INTERVAL
      modifies this`last, this`oversized, this`idleStreak, this`halted, this`interval, local, remote
      ensures r.None? <==> old(halted)
      ensures r.None? ==> W() == old(W()) && halted
      ensures r.Some? ==> Outcome(cfg, old(W()), W(), r.value, done)
      ensures r.Some? ==> (halted <==> Halts(r.value))
      ensures r.Some? && r.value.Synced? ==> !halted
      ensures r.Some? && r.value.Stopped? && r.value.err.RootEmptied? ==> halted
      ensures forall message :: r == Some(Stopped(Failed(message))) ==>
                (halted <==> exists i: nat :: PhraseAt(message, i))
      ensures !old(halted) && !faulty && Listable(remoteRoot) ==>
                && (halted <==> GuardFires(cfg, old(W())))
                && (r.value.Synced? <==> !GuardFires(cfg, old(W())))
      ensures r.None? ==> interval == old(interval) && idleStreak == old(idleStreak)
      ensures r.Some? ==>
                Paces(old(interval), old(idleStreak), r.value.Synced? && r.value.changed, interval, idleStreak)
    {
      r, done := None, {};
      if halted {
        return;
      }
      var result;
      result, done := Poll(localRoot, remoteRoot);
      r := Some(result);
      interval := NextInterval(interval, result.Synced? && result.changed);
    }
  }
}
