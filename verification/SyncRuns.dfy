/**
 Whole runs of the polling loop: a run is a list of states and, for every step, a label that says
 whether the user edited or the timer fired, and with which outcome.
 */
module SyncRuns {
  import opened Wrappers
  import opened Paths
  import opened SyncModel
  import opened TreeWalk
  import opened SyncEngine
  import opened SyncProofs

  datatype State = State(w: World, halted: bool)

  /** Fired(None, _) is a firing that found the engine halted. */
  datatype Label = Edited | Fired(r: Option<PassResult>, done: set<Path>)

  /** The user, or anything else outside the sync, rewrites either tree. */
  ghost predicate EditStep(s: State, s': State)
  {
    s'.w.last == s.w.last && s'.halted == s.halted
  }

  ghost predicate FiredStep(cfg: Config, s: State, r: Option<PassResult>, done: set<Path>, s': State)
  {
    if s.halted then
      r.None? && s' == s
    else
      && r.Some?
      && Outcome(cfg, s.w, s'.w, r.value, done)
      && (s'.halted <==> Halts(r.value))
  }

  ghost predicate Step(cfg: Config, s: State, a: Label, s': State)
  {
    match a
    case Edited => EditStep(s, s')
    case Fired(r, done) => FiredStep(cfg, s, r, done, s')
  }

  datatype Run = Run(states: seq<State>, labels: seq<Label>)

  ghost predicate Valid(cfg: Config, t: Run)
  {
    && |t.states| == |t.labels| + 1
    && TrackedBase(cfg, t.states[0].w)
    && forall i :: 0 <= i < |t.labels| ==> Step(cfg, t.states[i], t.labels[i], t.states[i + 1])
  }

  /** The method that run() repeats takes exactly such steps. */
  method TickIsStep(e: HotSyncEngine, localRoot: Option<Node>, remoteRoot: Option<Node>)
    returns (r: Option<PassResult>, ghost done: set<Path>)
    requires e.Valid() && e.Rooted(localRoot, remoteRoot)
    requires MIN_INTERVAL <= e.interval <= MAX_INTERVAL
    modifies e`last, e`oversized, e`idleStreak, e`halted, e`interval, e.local, e.remote
    ensures Step(e.cfg, old(State(e.W(), e.halted)), Fired(r, done), State(e.W(), e.halted))
  {
    r, done := e.Tick(localRoot, remoteRoot);
  }

  lemma StepOf(cfg: Config, t: Run, i: nat)
    requires Valid(cfg, t) && i < |t.labels|
    ensures Step(cfg, t.states[i], t.labels[i], t.states[i + 1])
  {
  }

  // ---------------------------------------------------------------------------
  // Safety

  lemma StepKeepsBase(cfg: Config, s: State, a: Label, s': State, p: Path)
    requires TrackedBase(cfg, s.w) && Step(cfg, s, a, s')
    ensures TrackedBase(cfg, s'.w)
    ensures a.Fired? && !Tracked(cfg.patterns, p) ==> At(s'.w, p) == At(s.w, p)
    ensures a.Fired? && Oversized(cfg, p, At(s.w, p).local) ==> SameFilesAt(p, s, s')
  {
    if a.Fired? && !s.halted {
      ExcludedUntouched(cfg, s.w, s'.w, a.r.value, a.done, p);
    }
  }

  ghost predicate SameFilesAt(p: Path, s: State, s': State)
  {
    At(s.w, p).local == At(s'.w, p).local && At(s.w, p).remote == At(s'.w, p).remote
  }

  lemma {:induction false} BaseStaysTracked(cfg: Config, t: Run, i: nat)
    requires Valid(cfg, t) && i < |t.states|
    ensures TrackedBase(cfg, t.states[i].w)
  {
    if i > 0 {
      BaseStaysTracked(cfg, t, i - 1);
      StepOf(cfg, t, i - 1);
      StepKeepsBase(cfg, t.states[i - 1], t.labels[i - 1], t.states[i], []);
    }
  }

  /** In every run no firing of the timer touches an excluded path and none enters the base; a
      locally oversized file is untouched on both sides by that firing. */
  lemma ExcludedPathsAreSafe(cfg: Config, t: Run, i: nat, p: Path)
    requires Valid(cfg, t) && i < |t.labels|
    ensures !Tracked(cfg.patterns, p) ==> p !in t.states[i].w.last && p !in t.states[i + 1].w.last
    ensures !Tracked(cfg.patterns, p) && t.labels[i].Fired? ==> At(t.states[i + 1].w, p) == At(t.states[i].w, p)
    ensures Oversized(cfg, p, At(t.states[i].w, p).local) && t.labels[i].Fired? ==>
              SameFilesAt(p, t.states[i], t.states[i + 1])
  {
    BaseStaysTracked(cfg, t, i);
    BaseStaysTracked(cfg, t, i + 1);
    StepOf(cfg, t, i);
    StepKeepsBase(cfg, t.states[i], t.labels[i], t.states[i + 1], p);
  }

  /** In every run no firing, whether it succeeds, fails or is guarded, deletes locally more than
      four fifths of a base of ten or more, nor anything outside the missing base entries. */
  lemma DeletionsAreBounded(cfg: Config, t: Run, i: nat)
    requires Valid(cfg, t) && i < |t.labels| && t.labels[i].Fired?
    ensures var before, after := t.states[i].w, t.states[i + 1].w;
            && Deleted(before.local, after.local) <= Missing(cfg, before)
            && (|Bases(cfg, before)| >= 10 ==> 5 * |Deleted(before.local, after.local)| <= 4 * |Bases(cfg, before)|)
            && (GuardFires(cfg, before) ==> after.local == before.local && after.remote == before.remote)
  {
    var before, after := t.states[i].w, t.states[i + 1].w;
    StepOf(cfg, t, i);
    if t.states[i].halted {
      assert Deleted(before.local, after.local) == {};
    } else {
      LocalDeletionIsBounded(cfg, before, after, t.labels[i].r.value, t.labels[i].done);
    }
  }

  /** Once halted, always halted, and no firing of the timer changes anything any more. */
  lemma {:induction false} HaltIsFinal(cfg: Config, t: Run, i: nat, j: nat)
    requires Valid(cfg, t) && i <= j < |t.states| && t.states[i].halted
    ensures t.states[j].halted
    ensures j < |t.labels| && t.labels[j].Fired? ==> t.states[j + 1] == t.states[j]
    decreases j - i
  {
    if i < j {
      HaltIsFinal(cfg, t, i, j - 1);
      StepOf(cfg, t, j - 1);
    }
    if j < |t.labels| {
      StepOf(cfg, t, j);
    }
  }

  /** Step k is a firing that ended with the guard's error, or with a message that holds its phrase. */
  ghost predicate AlarmAt(t: Run, k: nat)
    requires k < |t.labels|
  {
    && t.labels[k].Fired? && t.labels[k].r.Some? && t.labels[k].r.value.Stopped?
    && var err := t.labels[k].r.value.err;
       err.RootEmptied? || exists i: nat :: PhraseAt(err.message, i)
  }

  lemma HaltedStep(cfg: Config, t: Run, i: nat)
    requires Valid(cfg, t) && i < |t.labels|
    ensures t.states[i + 1].halted <==> t.states[i].halted || AlarmAt(t, i)
  {
    StepOf(cfg, t, i);
  }

  /** In every run of an engine that starts running, it is halted exactly once a firing has raised the
      alarm; completed firings and other failures leave it running. */
  lemma {:induction false} HaltedExactly(cfg: Config, t: Run, j: nat)
    requires Valid(cfg, t) && !t.states[0].halted && j < |t.states|
    ensures t.states[j].halted <==> exists k: nat :: k < j && AlarmAt(t, k)
  {
    if j > 0 {
      HaltedExactly(cfg, t, j - 1);
      HaltedStep(cfg, t, j - 1);
    }
  }

  /** The version v is on one of the two sides at p. */
  ghost predicate Holds(w: World, p: Path, v: Version)
  {
    VersionOf(At(w, p).local) == Some(v) || VersionOf(At(w, p).remote) == Some(v)
  }

  /** v was there at the start, or the step to state j is an edit that brought it. */
  ghost predicate BroughtAt(t: Run, j: nat, p: Path, v: Version)
    requires j < |t.states| == |t.labels| + 1
  {
    && Holds(t.states[j].w, p, v)
    && (j > 0 ==> t.labels[j - 1].Edited? && !Holds(t.states[j - 1].w, p, v))
  }

  ghost predicate HoldsThrough(t: Run, j: nat, i: nat, p: Path, v: Version)
    requires j <= i < |t.states|
  {
    forall k :: j <= k <= i ==> Holds(t.states[k].w, p, v)
  }

  lemma HoldsOneMore(t: Run, j: nat, i: nat, p: Path, v: Version)
    requires j < i < |t.states| && HoldsThrough(t, j, i - 1, p, v) && Holds(t.states[i].w, p, v)
    ensures HoldsThrough(t, j, i, p, v)
  {
  }

  lemma FiredBringsNothing(cfg: Config, s: State, a: Label, s': State, p: Path, v: Version)
    requires Step(cfg, s, a, s') && a.Fired? && Holds(s'.w, p, v)
    ensures Holds(s.w, p, v)
  {
    if !s.halted {
      CellOf(cfg, s.w, s'.w, a.r.value, a.done, p);
    }
  }

  lemma NewIsEdited(cfg: Config, t: Run, i: nat, p: Path, v: Version)
    requires Valid(cfg, t) && 0 < i < |t.states| && Holds(t.states[i].w, p, v) && !Holds(t.states[i - 1].w, p, v)
    ensures t.labels[i - 1].Edited?
  {
    StepOf(cfg, t, i - 1);
    if t.labels[i - 1].Fired? {
      FiredBringsNothing(cfg, t.states[i - 1], t.labels[i - 1], t.states[i], p, v);
      assert false;
    }
  }

  /** The sync never makes up a version: whatever a path shows was there at the start or came with
      an edit, never with a firing of the timer, completed or not. */
  lemma {:induction false} NothingInvented(cfg: Config, t: Run, i: nat, p: Path, v: Version) returns (j: nat)
    requires Valid(cfg, t) && i < |t.states| && Holds(t.states[i].w, p, v)
    ensures j <= i && BroughtAt(t, j, p, v)
    ensures HoldsThrough(t, j, i, p, v)
  {
    if i == 0 || !Holds(t.states[i - 1].w, p, v) {
      j := i;
      if i > 0 {
        NewIsEdited(cfg, t, i, p, v);
      }
    } else {
      j := NothingInvented(cfg, t, i - 1, p, v);
      HoldsOneMore(t, j, i, p, v);
    }
  }

  // ---------------------------------------------------------------------------
  // Delivery and stability

  /** Both sides show the same state and the base knows it, or the file is too big to follow. */
  ghost predicate Settled(cfg: Config, p: Path, c: Cell)
  {
    && Tracked(cfg.patterns, p)
    && SnapOf(c.local) == SnapOf(c.remote)
    && (c.base == SnapOf(c.local) || (c.base.None? && Oversized(cfg, p, c.local)))
  }

  /** A firing of the timer, with any outcome, or an edit of other paths. */
  ghost predicate Undisturbed(cfg: Config, s: State, a: Label, s': State, p: Path)
  {
    Step(cfg, s, a, s') && (a.Edited? ==> SameFilesAt(p, s, s'))
  }

  ghost predicate Completed(a: Label)
  {
    a.Fired? && a.r.Some? && a.r.value.Synced?
  }

  /** No step from i to j edits p. */
  ghost predicate NoEditOf(cfg: Config, t: Run, i: nat, j: nat, p: Path)
    requires i <= j < |t.states| == |t.labels| + 1
  {
    forall k :: i <= k < j ==> Undisturbed(cfg, t.states[k], t.labels[k], t.states[k + 1], p)
  }

  lemma SettledStep(cfg: Config, s: State, a: Label, s': State, p: Path)
    requires Settled(cfg, p, At(s.w, p)) && Undisturbed(cfg, s, a, s', p)
    ensures SameFilesAt(p, s, s') && Settled(cfg, p, At(s'.w, p))
  {
    if a.Edited? {
      assert At(s'.w, p) == At(s.w, p);
    } else if !s.halted {
      CellOf(cfg, s.w, s'.w, a.r.value, a.done, p);
      SettledCellStays(cfg, p, At(s.w, p));
    }
  }

  lemma SettledCellStays(cfg: Config, p: Path, c: Cell)
    requires Settled(cfg, p, c)
    ensures var v := See(cfg, p, c).base;
            && PassCell(cfg, p, c) == c.(base := v) == FilteredCell(cfg, p, c)
            && Settled(cfg, p, c.(base := v))
  {
  }

  /** From a settled state on, through firings that succeed, fail, or halt and through edits of
      other paths, the files at p stay exactly as they are on both sides. */
  lemma {:induction false} SettledStays(cfg: Config, t: Run, i: nat, j: nat, p: Path)
    requires Valid(cfg, t) && i <= j < |t.states|
    requires Settled(cfg, p, At(t.states[i].w, p)) && NoEditOf(cfg, t, i, j, p)
    ensures Settled(cfg, p, At(t.states[j].w, p)) && SameFilesAt(p, t.states[i], t.states[j])
    decreases j - i
  {
    if i < j {
      SettledStays(cfg, t, i, j - 1, p);
      SettledStep(cfg, t.states[j - 1], t.labels[j - 1], t.states[j], p);
    }
  }

  /** While no firing has completed, a path stays within the progress of the pass that began at c. */
  lemma ProgressStep(cfg: Config, c: Cell, s: State, a: Label, s': State, p: Path)
    requires InProgress(cfg, p, c, At(s.w, p)) && Undisturbed(cfg, s, a, s', p) && !Completed(a)
    ensures InProgress(cfg, p, c, At(s'.w, p))
  {
    if a.Edited? {
      assert At(s'.w, p) == At(s.w, p);
    } else if !s.halted {
      StopKeepsProgress(cfg, p, c, At(s.w, p));
      assert PassStopped(cfg, s.w, s'.w, a.done);
    }
  }

  /** The first firing that completes settles the path with the versions of a single pass from c. */
  lemma CompletionSettles(cfg: Config, c: Cell, s: State, a: Label, s': State, p: Path)
    requires InProgress(cfg, p, c, At(s.w, p)) && Step(cfg, s, a, s') && Completed(a)
    requires Tracked(cfg.patterns, p) && !Oversized(cfg, p, c.local)
    ensures Settled(cfg, p, At(s'.w, p)) && SameVersions(At(s'.w, p), PassCell(cfg, p, c))
  {
    StopKeepsProgress(cfg, p, c, At(s.w, p));
    CellOf(cfg, s.w, s'.w, a.r.value, a.done, p);
    ProgressSettles(cfg, p, c, At(s.w, p));
  }

  lemma ProgressSettles(cfg: Config, p: Path, c0: Cell, c: Cell)
    requires InProgress(cfg, p, c0, c) && Tracked(cfg.patterns, p) && !Oversized(cfg, p, c0.local)
    ensures Settled(cfg, p, PassCell(cfg, p, c))
  {
  }

  lemma {:induction false} StillInProgress(cfg: Config, t: Run, i: nat, j: nat, p: Path)
    requires Valid(cfg, t) && i <= j < |t.states| && NoEditOf(cfg, t, i, j, p)
    requires forall k :: i <= k < j ==> !Completed(t.labels[k])
    ensures InProgress(cfg, p, At(t.states[i].w, p), At(t.states[j].w, p))
    decreases j - i
  {
    if i < j {
      StillInProgress(cfg, t, i, j - 1, p);
      ProgressStep(cfg, At(t.states[i].w, p), t.states[j - 1], t.labels[j - 1], t.states[j], p);
    }
  }

  lemma {:induction false} FirstCompletion(t: Run, i: nat, m: nat) returns (k: nat)
    requires i <= m < |t.labels| && Completed(t.labels[m])
    ensures i <= k <= m && Completed(t.labels[k])
    ensures forall j :: i <= j < k ==> !Completed(t.labels[j])
    decreases m - i
  {
    if Completed(t.labels[i]) {
      k := i;
    } else {
      k := FirstCompletion(t, i + 1, m);
    }
  }

  /** Main result: whatever stood at p in state i, once a firing has completed both sides have, and
      keep, what a single uninterrupted pass from state i gives, no matter how many firings failed
      in between and what happened to other paths. */
  lemma MergeArrivesAndStays(cfg: Config, t: Run, i: nat, m: nat, j: nat, p: Path)
    requires Valid(cfg, t) && i <= m < j < |t.states| && Completed(t.labels[m]) && NoEditOf(cfg, t, i, j, p)
    requires Tracked(cfg.patterns, p) && !Oversized(cfg, p, At(t.states[i].w, p).local)
    ensures SameVersions(At(t.states[j].w, p), PassCell(cfg, p, At(t.states[i].w, p)))
    ensures Settled(cfg, p, At(t.states[j].w, p))
  {
    var k := FirstCompletion(t, i, m);
    StillInProgress(cfg, t, i, k, p);
    StepOf(cfg, t, k);
    CompletionSettles(cfg, At(t.states[i].w, p), t.states[k], t.labels[k], t.states[k + 1], p);
    SettledStays(cfg, t, k + 1, j, p);
  }

  /** One side was edited since the last sync, the other was not. */
  predicate OneSided(c: Cell)
  {
    (SnapOf(c.local) == c.base) != (SnapOf(c.remote) == c.base)
  }

  /** The side that was edited; None if the edit was a deletion. */
  function EditedVersion(c: Cell): Option<Version>
  {
    if SnapOf(c.local) == c.base then VersionOf(c.remote) else VersionOf(c.local)
  }

  /** An edit or a deletion on either side alone reaches both sides with the next firing that
      completes and stays there, whatever failed before and whatever happens to other paths. */
  lemma EditArrivesAndStays(cfg: Config, t: Run, i: nat, m: nat, j: nat, p: Path)
    requires Valid(cfg, t) && i <= m < j < |t.states| && Completed(t.labels[m]) && NoEditOf(cfg, t, i, j, p)
    requires Tracked(cfg.patterns, p) && !Oversized(cfg, p, At(t.states[i].w, p).local)
    requires OneSided(At(t.states[i].w, p))
    ensures VersionOf(At(t.states[j].w, p).local) == VersionOf(At(t.states[j].w, p).remote) ==
              EditedVersion(At(t.states[i].w, p))
  {
    MergeArrivesAndStays(cfg, t, i, m, j, p);
  }

  // ---------------------------------------------------------------------------
  // Two limits, by example

  function NumberedPath(n: nat): Path
  {
    [seq(n + 1, _ => 'f')]
  }

  lemma NumberedPathsDiffer(n: nat, m: nat)
    ensures NumberedPath(n) == NumberedPath(m) ==> n == m
  {
    assert |NumberedPath(n)[0]| == n + 1 && |NumberedPath(m)[0]| == m + 1;
  }

  ghost function Numbered(n: nat): set<Path>
  {
    set i: nat | i < n :: NumberedPath(i)
  }

  lemma {:induction false} NumberedSize(n: nat)
    ensures |Numbered(n)| == n
  {
    if n > 0 {
      NumberedSize(n - 1);
      forall i: nat | i < n - 1
        ensures NumberedPath(i) != NumberedPath(n - 1)
      {
        NumberedPathsDiffer(i, n - 1);
      }
      assert Numbered(n) == Numbered(n - 1) + {NumberedPath(n - 1)};
    }
  }

  const EMPTY := File([], 0)

  ghost function TenFiles(all: set<Path>): World
  {
    World(map[NumberedPath(9) := EMPTY], map p | p in all :: EMPTY, map p | p in all :: Snap(0, 0))
  }

  /** A top-level file that the user deleted locally, and one that is in step. */
  lemma DeletedCell(cfg: Config, p: Path, f: File, s: Snap)
    requires cfg == Config([], 0) && f == File([], 0) && s == Snap(0, 0)
    ensures |p| == 1 ==> Tracked(cfg.patterns, p)
    ensures |p| == 1 ==> PassCell(cfg, p, Cell(None, Some(f), Some(s))) == Cell(None, None, None)
    ensures |p| == 1 ==> PassCell(cfg, p, Cell(Some(f), Some(f), Some(s))) == Cell(Some(f), Some(f), Some(s))
    ensures forall c :: See(cfg, p, c).base == c.base
    ensures forall c :: See(cfg, p, c).remote == if Tracked(cfg.patterns, p) then SnapOf(c.remote) else None
  {
  }

  lemma TenFilesCell(cfg: Config, all: set<Path>, done: set<Path>, p: Path)
    requires cfg == Config([], 0)
    requires forall q :: q in done <==> q in all && q != NumberedPath(9)
    requires forall q :: q in all ==> |q| == 1
    requires NumberedPath(9) in all
    ensures var c := At(TenFiles(all), p);
            && c == Cell(if p == NumberedPath(9) then Some(EMPTY) else None, if p in all then Some(EMPTY) else None,
                         if p in all then Some(Snap(0, 0)) else None)
            && See(cfg, p, c) == Sight(SnapOf(c.local), SnapOf(c.remote), c.base)
            && PassCell(cfg, p, c).remote == (if p == NumberedPath(9) then Some(EMPTY) else None)
            && PassCell(cfg, p, c).local == c.local
    ensures p in all ==> Tracked(cfg.patterns, p)
  {
    if p in all {
      DeletedCell(cfg, p, EMPTY, Snap(0, 0));
    }
  }

  lemma NineOfTen()
    ensures forall p :: p in Numbered(9) <==> p in Numbered(10) && p != NumberedPath(9)
    ensures forall p :: p in Numbered(10) ==> |p| == 1
    ensures NumberedPath(9) in Numbered(10)
  {
    assert NumberedPath(9) in Numbered(10);
    forall i: nat | i < 9
      ensures NumberedPath(i) != NumberedPath(9)
    {
      NumberedPathsDiffer(i, 9);
    }
  }

  ghost function AfterCut(all: set<Path>): World
  {
    TenFiles(all).(remote := map[NumberedPath(9) := EMPTY])
  }

  /** The world of ten files and what the pass that was cut short leaves of it. */
  lemma TenFilesCut(cfg: Config, all: set<Path>, done: set<Path>)
    requires cfg == Config([], 0)
    requires forall q :: q in done <==> q in all && q != NumberedPath(9)
    requires forall q :: q in all ==> |q| == 1
    requires NumberedPath(9) in all
    ensures PassStopped(cfg, TenFiles(all), AfterCut(all), done)
    ensures Bases(cfg, TenFiles(all)) == Bases(cfg, AfterCut(all)) == all
    ensures Missing(cfg, TenFiles(all)) == {} && Missing(cfg, AfterCut(all)) == done
  {
    var w, w1 := TenFiles(all), AfterCut(all);
    forall p
      ensures At(w1, p) == StoppedCell(cfg, w, done, p)
      ensures p in Bases(cfg, w) <==> p in all
      ensures p in Bases(cfg, w1) <==> p in all
      ensures p !in Missing(cfg, w)
      ensures p in Missing(cfg, w1) <==> p in done
    {
      TenFilesCell(cfg, all, done, p);
    }
  }

  /** Ten files in step; the user deletes nine of them locally; the pass removes the nine remote
      copies and is then cut short. Nothing emptied the remote root, yet the guard halts the
      retry: it counts the deletions of the stopped pass itself. */
  lemma RetryCanTripTheGuard() returns (cfg: Config, w: World, w1: World, done: set<Path>)
    ensures !GuardFires(cfg, w) && Missing(cfg, w) == {}
    ensures Outcome(cfg, w, w1, Stopped(Failed("connection lost")), done) && GuardFires(cfg, w1)
  {
    var all := Numbered(10);
    cfg, w, w1, done := Config([], 0), TenFiles(all), AfterCut(all), Numbered(9);
    NumberedSize(10);
    NumberedSize(9);
    NineOfTen();
    TenFilesCut(cfg, all, done);
  }

  /** An ordinary failure halts the engine for good when its message contains the guard's phrase, here
      through the name of a file. */
  lemma HaltByWording() returns (cfg: Config, s: State, r: PassResult, s': State)
    ensures r == Stopped(Failed("open /work/" + "热同步已暂停" + ".txt: permission denied"))
    ensures !s.halted && !GuardFires(cfg, s.w) && Step(cfg, s, Fired(Some(r), {}), s') && s'.halted
  {
    cfg, s, s' := Config([], 0), State(World(map[], map[], map[]), false), State(World(map[], map[], map[]), true);
    var message := "open /work/" + "热同步已暂停" + ".txt: permission denied";
    r := Stopped(Failed(message));
    assert PhraseAt(message, 11);
    assert Bases(cfg, s.w) == {};
  }

  /** By DeletionArrivesExactly the deletion of a big file that was downloaded is undone, once a pass
      has dropped its base: the pass after the deletion downloads it again. */
  lemma DeletedBigDownloadReturns(cfg: Config, p: Path, f: File)
    requires Tracked(cfg.patterns, p) && 0 < cfg.maxFileBytes <= |f.content|
    ensures var downloaded := PassCell(cfg, p, Cell(None, Some(f), None));
            var later := PassCell(cfg, p, downloaded);
            && VersionOf(later.local) == VersionOf(Some(f)) == VersionOf(later.remote)
            && VersionOf(PassCell(cfg, p, later.(local := None)).local) == VersionOf(Some(f))
  {
  }
}
