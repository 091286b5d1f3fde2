/**
 What one pass guarantees, for every world: agreement, a no-op second pass, repeated
 failure and retry, the three-way merge it implements, and its limits on deletion.
 */
module SyncProofs {
  import opened Wrappers
  import opened Paths
  import opened SyncModel
  import opened TreeWalk
  import opened SyncEngine

  // ---------------------------------------------------------------------------
  // Agreement

  /** Both sides and the base show the same state. */
  ghost predicate Agrees(c: Cell)
  {
    SnapOf(c.local) == SnapOf(c.remote) == c.base
  }

  /** After a completed pass the two sides and the base agree on every tracked path
      outside the pass's oversized set. */
  lemma PassAgrees(cfg: Config, w: World, w': World)
    requires PassDone(cfg, w, w')
    ensures forall p :: Tracked(cfg.patterns, p) && !Oversized(cfg, p, At(w, p).local) ==> Agrees(At(w', p))
    ensures TrackedBase(cfg, w')
  {
    forall p
      ensures Tracked(cfg.patterns, p) && !Oversized(cfg, p, At(w, p).local) ==> Agrees(At(w', p))
      ensures p in w'.last ==> Tracked(cfg.patterns, p)
    {
      assert At(w', p) == PassCell(cfg, p, At(w, p));
    }
  }

  /** A corollary of the path-by-path form: SyncOnce and SyncOnceAdaptive, which both promise
      PassDone, cannot end differently. */
  lemma PassIsDeterministic(cfg: Config, w: World, w1: World, w2: World)
    requires PassDone(cfg, w, w1) && PassDone(cfg, w, w2)
    ensures w1 == w2
  {
    forall p
      ensures At(w1, p) == At(w2, p)
    {
      assert At(w1, p) == PassCell(cfg, p, At(w, p));
    }
    SameCells(w1, w2);
  }

  /** Nothing is left to do: every path is kept, and the remote side has every base entry. */
  ghost predicate Quiet(cfg: Config, w: World)
  {
    forall p :: QuietCell(cfg, p, At(w, p))
  }

  ghost predicate QuietCell(cfg: Config, p: Path, c: Cell)
  {
    var v := See(cfg, p, c);
    && Decide(v).Keep?
    && v.base == (if Oversized(cfg, p, c.local) then None else c.base)
    && (v.base.Some? ==> v.remote.Some?)
  }

  /** A pass over a quiet world is not stopped by the guard, reports no change and moves no file;
      it only forgets the base of files that became oversized by a download. */
  lemma QuietPassIsIdle(cfg: Config, w: World, w': World)
    requires Quiet(cfg, w) && PassDone(cfg, w, w')
    ensures !GuardFires(cfg, w)
    ensures !exists p :: Changes(cfg, w, p)
    ensures w'.local == w.local && w'.remote == w.remote
    ensures forall p :: Get(w'.last, p) == if Oversized(cfg, p, At(w, p).local) then None else Get(w.last, p)
  {
    forall p
      ensures !Changes(cfg, w, p)
      ensures p in Bases(cfg, w) ==> See(cfg, p, At(w, p)).remote.Some?
      ensures At(w', p) == if Oversized(cfg, p, At(w, p).local) then At(w, p).(base := None) else At(w, p)
    {
      assert QuietCell(cfg, p, At(w, p)) && At(w', p) == PassCell(cfg, p, At(w, p));
    }
    assert Missing(cfg, w) == {};
    SameFilesByCell(w, w');
  }

  /** A further pass without edits has nothing to do. */
  lemma SecondPassIsIdle(cfg: Config, w: World, w1: World, w2: World)
    requires PassDone(cfg, w, w1) && PassDone(cfg, w1, w2)
    ensures !GuardFires(cfg, w1)
    ensures !exists p :: Changes(cfg, w1, p)
    ensures w2.local == w1.local && w2.remote == w1.remote
    ensures forall p :: Get(w2.last, p) == if Oversized(cfg, p, At(w1, p).local) then None else Get(w1.last, p)
  {
    forall p
      ensures QuietCell(cfg, p, At(w1, p))
    {
      SettledCell(cfg, p, At(w, p));
      assert At(w1, p) == PassCell(cfg, p, At(w, p));
    }
    QuietPassIsIdle(cfg, w1, w2);
  }

  lemma SettledCell(cfg: Config, p: Path, c: Cell)
    ensures QuietCell(cfg, p, PassCell(cfg, p, c))
  {
  }

  lemma SameFilesByCell(w1: World, w2: World)
    requires forall p :: At(w2, p).local == At(w1, p).local && At(w2, p).remote == At(w1, p).remote
    ensures w2.local == w1.local && w2.remote == w1.remote
  {
    forall p
      ensures Get(w2.local, p) == Get(w1.local, p) && Get(w2.remote, p) == Get(w1.remote, p)
    {
      assert At(w2, p).local == At(w1, p).local && At(w2, p).remote == At(w1, p).remote;
    }
    SameMap(w1.local, w2.local);
    SameMap(w1.remote, w2.remote);
  }

  // ---------------------------------------------------------------------------
  // Failure and retry

  predicate SameVersions(c: Cell, d: Cell)
  {
    VersionOf(c.local) == VersionOf(d.local) && VersionOf(c.remote) == VersionOf(d.remote)
  }

  /** Where a path can stand after any number of stopped passes that began at c0: untouched, or
      settled on disk while the base is still the old one (or dropped, for a big download). */
  ghost predicate InProgress(cfg: Config, p: Path, c0: Cell, c: Cell)
  {
    || (c.local == c0.local && c.remote == c0.remote && c.base in {c0.base, See(cfg, p, c0).base})
    || (&& SameVersions(c, PassCell(cfg, p, c0))
        && (c.base == See(cfg, p, c0).base || (c.base.None? && Oversized(cfg, p, c.local))))
  }

  lemma StopKeepsProgress(cfg: Config, p: Path, c0: Cell, c: Cell)
    requires InProgress(cfg, p, c0, c)
    ensures InProgress(cfg, p, c0, FilteredCell(cfg, p, c))
    ensures InProgress(cfg, p, c0, PassCell(cfg, p, c).(base := See(cfg, p, c).base))
    ensures SameVersions(PassCell(cfg, p, c), PassCell(cfg, p, c0))
  {
  }

  /** The same base, except that a file which a stopped pass downloaded may already have been
      dropped from it for its size. */
  ghost predicate BaseConverges(cfg: Config, p: Path, c0: Cell, end: Cell, direct: Cell)
  {
    end.base == direct.base || (end.base.None? && Oversized(cfg, p, end.local) && !Oversized(cfg, p, c0.local))
  }

  lemma ProgressConverges(cfg: Config, p: Path, c0: Cell, c: Cell)
    requires InProgress(cfg, p, c0, c)
    ensures SameVersions(PassCell(cfg, p, c), PassCell(cfg, p, c0))
    ensures BaseConverges(cfg, p, c0, PassCell(cfg, p, c), PassCell(cfg, p, c0))
  {
  }

  lemma {:induction false} ProgressThrough(cfg: Config, ws: seq<World>, done: seq<set<Path>>, p: Path)
    requires |ws| > 0 && |done| == |ws| - 1
    requires forall i :: 0 <= i < |done| ==> PassStopped(cfg, ws[i], ws[i + 1], done[i])
    ensures InProgress(cfg, p, At(ws[0], p), At(ws[|ws| - 1], p))
    decreases |ws|
  {
    if |ws| > 1 {
      var n := |ws| - 1;
      ProgressThrough(cfg, ws[..n], done[..n - 1], p);
      StopKeepsProgress(cfg, p, At(ws[0], p), At(ws[n - 1], p));
      assert PassStopped(cfg, ws[n - 1], ws[n - 1 + 1], done[n - 1]);
    }
  }

  /** Any number of passes stopped at arbitrary points, followed by a completed one, leave the
      same versions on both sides as one completed pass would have. */
  lemma {:induction false} RetriesConverge(cfg: Config, ws: seq<World>, done: seq<set<Path>>, end: World, direct: World)
    requires |ws| > 0 && |done| == |ws| - 1
    requires forall i :: 0 <= i < |done| ==> PassStopped(cfg, ws[i], ws[i + 1], done[i])
    requires PassDone(cfg, ws[|ws| - 1], end) && PassDone(cfg, ws[0], direct)
    ensures forall p :: SameVersions(At(end, p), At(direct, p))
              && BaseConverges(cfg, p, At(ws[0], p), At(end, p), At(direct, p))
  {
    forall p
      ensures SameVersions(At(end, p), At(direct, p)) && BaseConverges(cfg, p, At(ws[0], p), At(end, p), At(direct, p))
    {
      ProgressThrough(cfg, ws, done, p);
      ProgressConverges(cfg, p, At(ws[0], p), At(ws[|ws| - 1], p));
      assert At(end, p) == PassCell(cfg, p, At(ws[|ws| - 1], p)) && At(direct, p) == PassCell(cfg, p, At(ws[0], p));
    }
  }

  ghost predicate GoneAfter(cfg: Config, w: World, done: set<Path>, p: Path)
  {
    if p in done then PassCell(cfg, p, At(w, p)).remote.None? || !Tracked(cfg.patterns, p) else p in Missing(cfg, w)
  }

  /** The guard counts, on a retry, exactly the base entries still missing plus those whose
      remote copy the stopped pass itself removed. */
  lemma GuardOnRetry(cfg: Config, w: World, w1: World, done: set<Path>)
    requires PassStopped(cfg, w, w1, done)
    ensures Bases(cfg, w1) == set p | p in Bases(cfg, w)
              && !(p in done && Oversized(cfg, p, PassCell(cfg, p, At(w, p)).local))
    ensures Missing(cfg, w1) == set p | p in Bases(cfg, w1) && GoneAfter(cfg, w, done, p)
  {
    forall p
      ensures p in Bases(cfg, w1) <==>
                p in Bases(cfg, w) && !(p in done && Oversized(cfg, p, PassCell(cfg, p, At(w, p)).local))
      ensures p in Missing(cfg, w1) <==> p in Bases(cfg, w1) && GoneAfter(cfg, w, done, p)
    {
      assert At(w1, p) == StoppedCell(cfg, w, done, p);
    }
  }

  // ---------------------------------------------------------------------------
  // When is a retry safe?

  /** The base entries whose remote copies are gone, or go with the pass. */
  ghost function Doomed(cfg: Config, w: World): set<Path>
  {
    set p | p in Bases(cfg, w) && (p in Missing(cfg, w) || PassCell(cfg, p, At(w, p)).remote.None?)
  }

  /** The base entries that the pass itself removes remotely. */
  ghost function Removals(cfg: Config, w: World): set<Path>
  {
    set p | p in Bases(cfg, w) && PassCell(cfg, p, At(w, p)).remote.None?
  }

  /** The base entries that a download makes too big to follow. */
  ghost function BigDownloads(cfg: Config, w: World): set<Path>
  {
    set p | p in Bases(cfg, w) && Oversized(cfg, p, PassCell(cfg, p, At(w, p)).local)
  }

  /** A pass can stop behind any set of paths. */
  ghost function StoppedWorld(cfg: Config, w: World, done: set<Path>): World
  {
    var seen := w.local.Keys + w.remote.Keys;
    World(map p | p in seen && StoppedCell(cfg, w, done, p).local.Some? :: StoppedCell(cfg, w, done, p).local.value,
          map p | p in seen && StoppedCell(cfg, w, done, p).remote.Some? :: StoppedCell(cfg, w, done, p).remote.value,
          map p | p in w.last && StoppedCell(cfg, w, done, p).base.Some? :: StoppedCell(cfg, w, done, p).base.value)
  }

  lemma NothingFromNothing(cfg: Config, w: World, done: set<Path>, p: Path)
    ensures var c := StoppedCell(cfg, w, done, p);
            && (p !in w.local && p !in w.remote ==> c.local.None? && c.remote.None?)
            && (p !in w.last ==> c.base.None?)
  {
  }

  lemma StoppedWorldIsStopped(cfg: Config, w: World, done: set<Path>)
    ensures PassStopped(cfg, w, StoppedWorld(cfg, w, done), done)
  {
    forall p
      ensures At(StoppedWorld(cfg, w, done), p) == StoppedCell(cfg, w, done, p)
    {
      NothingFromNothing(cfg, w, done, p);
    }
  }

  lemma BigIsNotDoomed(cfg: Config, w: World, p: Path)
    requires p in BigDownloads(cfg, w)
    ensures p !in Doomed(cfg, w)
  {
  }

  /** No stop of a pass from w can make the guard fire on the retry. */
  ghost predicate RetrySafe(cfg: Config, w: World)
  {
    forall w1, message, done :: Outcome(cfg, w, w1, Stopped(Failed(message)), done) ==> !GuardFires(cfg, w1)
  }

  /** What a stop can do to the guard's two numbers. */
  lemma RetryBounds(cfg: Config, w: World, w1: World, done: set<Path>)
    requires PassStopped(cfg, w, w1, done)
    ensures Missing(cfg, w1) <= Doomed(cfg, w)
    ensures |Bases(cfg, w1)| >= |Bases(cfg, w)| - |BigDownloads(cfg, w)|
    ensures |Bases(cfg, w1)| <= |Bases(cfg, w)|
  {
    GuardOnRetry(cfg, w, w1, done);
    var big := BigDownloads(cfg, w);
    assert Bases(cfg, w) - big <= Bases(cfg, w1);
    SubsetSize(Bases(cfg, w) - big, Bases(cfg, w1));
    SubsetSize(Bases(cfg, w1), Bases(cfg, w));
    assert |Bases(cfg, w) - big| == |Bases(cfg, w)| - |big| by {
      assert big <= Bases(cfg, w);
      SizeOfDifference(Bases(cfg, w), big);
    }
  }

  /** The pass that stops behind its removals and some of its big downloads. */
  lemma WorstStop(cfg: Config, w: World, w1: World, dropped: set<Path>)
    requires dropped <= BigDownloads(cfg, w) && PassStopped(cfg, w, w1, Removals(cfg, w) + dropped)
    ensures Bases(cfg, w1) == Bases(cfg, w) - dropped && Missing(cfg, w1) == Doomed(cfg, w)
  {
    var done := Removals(cfg, w) + dropped;
    GuardOnRetry(cfg, w, w1, done);
    forall p
      ensures p in Bases(cfg, w1) <==> p in Bases(cfg, w) && p !in dropped
      ensures p in Missing(cfg, w1) <==> p in Doomed(cfg, w)
    {
      if p in Bases(cfg, w) {
        WorstCell(cfg, w, dropped, p);
      }
    }
  }

  lemma WorstCell(cfg: Config, w: World, dropped: set<Path>, p: Path)
    requires dropped <= BigDownloads(cfg, w) && p in Bases(cfg, w)
    ensures var done := Removals(cfg, w) + dropped;
            && (p in done && Oversized(cfg, p, PassCell(cfg, p, At(w, p)).local) <==> p in dropped)
            && (p !in dropped && GoneAfter(cfg, w, done, p) <==> p in Doomed(cfg, w))
  {
  }

  /** While the guard's condition holds, a failed scan leaves it so. */
  lemma GuardedStop(cfg: Config, w: World) returns (w1: World)
    requires GuardFires(cfg, w)
    ensures PassStopped(cfg, w, w1, {}) && GuardFires(cfg, w1)
  {
    w1 := StoppedWorld(cfg, w, {});
    StoppedWorldIsStopped(cfg, w, {});
    GuardOnRetry(cfg, w, w1, {});
    assert Bases(cfg, w1) == Bases(cfg, w);
    assert Missing(cfg, w1) == Missing(cfg, w);
  }

  lemma UnguardedStop(cfg: Config, w: World) returns (w1: World, done: set<Path>)
    requires |Bases(cfg, w)| >= 10
    requires 5 * |Doomed(cfg, w)| > 4 * Max(10, |Bases(cfg, w)| - |BigDownloads(cfg, w)|)
    ensures PassStopped(cfg, w, w1, done) && GuardFires(cfg, w1)
  {
    var dropped := SubsetOfSize(BigDownloads(cfg, w), Min(|BigDownloads(cfg, w)|, |Bases(cfg, w)| - 10));
    done := Removals(cfg, w) + dropped;
    w1 := StoppedWorld(cfg, w, done);
    StoppedWorldIsStopped(cfg, w, done);
    WorstStop(cfg, w, w1, dropped);
    SizeOfDifference(Bases(cfg, w), dropped);
  }

  /** Main result: a retry is safe exactly when the entries that are missing or go with the pass stay
      within four fifths of the base, less what the pass can drop from it for size. */
  lemma RetryIsSafeExactly(cfg: Config, w: World)
    ensures RetrySafe(cfg, w) <==>
            |Bases(cfg, w)| < 10 ||
            5 * |Doomed(cfg, w)| <= 4 * Max(10, |Bases(cfg, w)| - |BigDownloads(cfg, w)|)
  {
    if |Bases(cfg, w)| < 10 || 5 * |Doomed(cfg, w)| <= 4 * Max(10, |Bases(cfg, w)| - |BigDownloads(cfg, w)|) {
      forall w1, message, done | Outcome(cfg, w, w1, Stopped(Failed(message)), done)
        ensures !GuardFires(cfg, w1)
      {
        RetryBounds(cfg, w, w1, done);
        SubsetSize(Missing(cfg, w1), Doomed(cfg, w));
      }
    } else {
      if GuardFires(cfg, w) {
        var w1 := GuardedStop(cfg, w);
        assert Outcome(cfg, w, w1, Stopped(Failed("")), {});
      } else {
        var w1, done := UnguardedStop(cfg, w);
        assert Outcome(cfg, w, w1, Stopped(Failed("")), done);
      }
    }
  }

  // ---------------------------------------------------------------------------
  // The merge

  /** Textbook three-way merge of a common ancestor and two descendants; on a conflict the later
      second wins, then the larger file, then the local side, and a file beats a deletion. */
  function IdealMerge(ancestor: Option<Version>, local: Option<Version>, remote: Option<Version>): Option<Version>
  {
    if local == remote then local
    else if local == ancestor then remote
    else if remote == ancestor then local
    else if local.None? then remote
    else if remote.None? then local
    else if Outranks(remote.value, local.value) then remote
    else local
  }

  predicate Outranks(a: Version, b: Version)
  {
    a.seconds > b.seconds || (a.seconds == b.seconds && |a.content| > |b.content|)
  }

  /** Equal size and second mean equal bytes. */
  predicate Telling(a: Option<Version>, b: Option<Version>)
  {
    SnapOfVersion(a) == SnapOfVersion(b) ==> a == b
  }

  /** A completed pass replaces both sides by the three-way merge of their versions, provided
      the states tell the three versions apart. */
  lemma PassMerges(cfg: Config, p: Path, c: Cell, ancestor: Option<Version>)
    requires Tracked(cfg.patterns, p) && !Oversized(cfg, p, c.local)
    requires c.base == SnapOfVersion(ancestor)
    requires Telling(VersionOf(c.local), VersionOf(c.remote))
    requires Telling(VersionOf(c.local), ancestor) && Telling(VersionOf(c.remote), ancestor)
    ensures var merged := IdealMerge(ancestor, VersionOf(c.local), VersionOf(c.remote));
            var c' := PassCell(cfg, p, c);
            VersionOf(c'.local) == VersionOf(c'.remote) == merged && c'.base == SnapOfVersion(merged)
  {
    SnapOfVersions(c.local);
    SnapOfVersions(c.remote);
  }

  lemma SnapOfVersions(f: Option<File>)
    ensures SnapOfVersion(VersionOf(f)) == SnapOf(f)
  {
  }

  /** The file was last changed in the given whole second. */
  predicate During(f: File, second: int)
  {
    second * 1_000_000_000 <= f.mtime < (second + 1) * 1_000_000_000
  }

  /** Files of the base's size that were changed within the base's second are left alone, whatever
      their times within it. */
  lemma SameSecondIsKept(cfg: Config, w: World, w': World, p: Path, l: File, r: File)
    requires PassDone(cfg, w, w') && p in w.last && At(w, p).local == Some(l) && At(w, p).remote == Some(r)
    requires Tracked(cfg.patterns, p) && |l.content| == |r.content| == w.last[p].size
    requires During(l, w.last[p].seconds) && During(r, w.last[p].seconds)
    ensures At(w', p).local == Some(l) && At(w', p).remote == Some(r)
    ensures At(w', p).base == if Oversized(cfg, p, Some(l)) then None else At(w, p).base
  {
    assert At(w', p) == PassCell(cfg, p, At(w, p));
    assert Seconds(l) == Seconds(r) == w.last[p].seconds;
  }

  /** A conflict is decided by the whole second, then by the size, then for the local side; the winner
      stays as it is, and the loser gets its bytes and its whole second. */
  lemma ConflictByWholeSecond(cfg: Config, w: World, w': World, p: Path, l: File, r: File, s: int, t: int)
    requires PassDone(cfg, w, w') && At(w, p).local == Some(l) && At(w, p).remote == Some(r)
    requires Tracked(cfg.patterns, p) && !Oversized(cfg, p, Some(l))
    requires During(l, s) && At(w, p).base != Some(Snap(|l.content|, s))
    requires During(r, t) && At(w, p).base != Some(Snap(|r.content|, t))
    ensures At(w', p) ==
            if s > t || (s == t && |l.content| >= |r.content|) then
              Cell(Some(l), Some(File(l.content, s * 1_000_000_000)), Some(Snap(|l.content|, s)))
            else
              Cell(Some(File(r.content, t * 1_000_000_000)), Some(r), Some(Snap(|r.content|, t)))
  {
    assert At(w', p) == PassCell(cfg, p, At(w, p));
    assert Seconds(l) == s && Seconds(r) == t;
  }

  /** A change on one side alone, in size or in whole second, goes to the other side. */
  lemma ChangeIsCopied(cfg: Config, w: World, w': World, p: Path, l: File, r: File, s: int, t: int)
    requires PassDone(cfg, w, w') && At(w, p).local == Some(l) && At(w, p).remote == Some(r)
    requires Tracked(cfg.patterns, p) && !Oversized(cfg, p, Some(l)) && During(l, s) && During(r, t)
    ensures At(w, p).base == Some(Snap(|r.content|, t)) && (|l.content| != |r.content| || s != t) ==>
              At(w', p) == Cell(Some(l), Some(File(l.content, s * 1_000_000_000)), Some(Snap(|l.content|, s)))
    ensures At(w, p).base == Some(Snap(|l.content|, s)) && (|l.content| != |r.content| || s != t) ==>
              At(w', p) == Cell(Some(File(r.content, t * 1_000_000_000)), Some(r), Some(Snap(|r.content|, t)))
  {
    assert At(w', p) == PassCell(cfg, p, At(w, p));
    assert Seconds(l) == s && Seconds(r) == t;
  }

  /** Without that assumption: the bytes agree after the pass exactly when it was not faced with
      two different contents that both show the base's size and second. */
  lemma BytesAgreeExactly(cfg: Config, p: Path, c: Cell)
    requires Tracked(cfg.patterns, p) && !Oversized(cfg, p, c.local)
    ensures var c' := PassCell(cfg, p, c);
            VersionOf(c'.local) == VersionOf(c'.remote) <==>
            !(SnapOf(c.local) == SnapOf(c.remote) == c.base && VersionOf(c.local) != VersionOf(c.remote))
  {
  }

  /** Is a side's version lost to the other side? It was unchanged and the other changed, or both had
      changed and it lost the conflict. */
  predicate Loses(mine: Option<File>, other: Option<File>, base: Option<Snap>, wins: bool)
  {
    SnapOf(other) != base && (SnapOf(mine) == base || !wins)
  }

  /** Does the local side win a conflict? */
  predicate LocalWins(local: Option<File>, remote: Option<File>)
  {
    remote.None? || (local.Some? && !Outranks(VersionOf(remote).value, VersionOf(local).value))
  }

  /** A version disappears from both sides exactly as the old base version, when only the other side
      was changed, or as the loser of a conflict, when both were; excluded files never do. */
  lemma OnlyLosersDisappear(cfg: Config, p: Path, c: Cell)
    ensures var c' := PassCell(cfg, p, c);
            && (!Tracked(cfg.patterns, p) || Oversized(cfg, p, c.local) ==> c'.local == c.local)
            && (Oversized(cfg, p, c.local) ==> c'.remote == c.remote)
    ensures Tracked(cfg.patterns, p) && !Oversized(cfg, p, c.local) ==>
              var c', wins := PassCell(cfg, p, c), LocalWins(c.local, c.remote);
              && (c.local.Some? ==> (VersionOf(c.local) !in {VersionOf(c'.local), VersionOf(c'.remote)} <==>
                                     Loses(c.local, c.remote, c.base, wins)))
              && (c.remote.Some? ==> (VersionOf(c.remote) !in {VersionOf(c'.local), VersionOf(c'.remote)} <==>
                                      && Loses(c.remote, c.local, c.base, !wins)
                                      && VersionOf(c.local) != VersionOf(c.remote)))
  {
  }

  // ---------------------------------------------------------------------------
  // Limits

  /** A pass touches neither an untracked path nor a locally oversized file, on either side;
      the latter drops out of the base. */
  lemma ExcludedUntouched(cfg: Config, w: World, w': World, r: PassResult, done: set<Path>, p: Path)
    requires TrackedBase(cfg, w) && Outcome(cfg, w, w', r, done)
    ensures !Tracked(cfg.patterns, p) ==> At(w', p) == At(w, p) && p !in w'.last
    ensures Oversized(cfg, p, At(w, p).local) ==> At(w', p) == At(w, p).(base := None)
    ensures TrackedBase(cfg, w')
  {
    forall q
      ensures !Tracked(cfg.patterns, q) ==> At(w', q) == At(w, q) && q !in w'.last
    {
      CellOf(cfg, w, w', r, done, q);
    }
    CellOf(cfg, w, w', r, done, p);
  }

  lemma CellOf(cfg: Config, w: World, w': World, r: PassResult, done: set<Path>, p: Path)
    requires Outcome(cfg, w, w', r, done)
    ensures At(w', p) in {PassCell(cfg, p, At(w, p)), FilteredCell(cfg, p, At(w, p)),
                          PassCell(cfg, p, At(w, p)).(base := See(cfg, p, At(w, p)).base)}
    ensures r.Synced? ==> At(w', p) == PassCell(cfg, p, At(w, p))
  {
  }

  ghost function Deleted(before: map<Path, File>, after: map<Path, File>): set<Path>
  {
    set p | p in before && p !in after
  }

  /** Local deletions lie among the base entries that the remote scan has lost, and no pass, however
      it ends, deletes more than four fifths of a base of ten or more. While the guard's condition
      holds no pass changes a file. */
  lemma LocalDeletionIsBounded(cfg: Config, w: World, w': World, r: PassResult, done: set<Path>)
    requires Outcome(cfg, w, w', r, done)
    ensures Deleted(w.local, w'.local) <= Missing(cfg, w)
    ensures |Bases(cfg, w)| >= 10 ==> 5 * |Deleted(w.local, w'.local)| <= 4 * |Bases(cfg, w)|
    ensures GuardFires(cfg, w) ==> w'.local == w.local && w'.remote == w.remote
  {
    forall p | p in Deleted(w.local, w'.local)
      ensures p in Missing(cfg, w)
    {
      CellOf(cfg, w, w', r, done, p);
      assert At(w, p).local.Some? && At(w', p).local.None?;
    }
    SubsetSize(Deleted(w.local, w'.local), Missing(cfg, w));
    if GuardFires(cfg, w) {
      forall p
        ensures At(w', p).local == At(w, p).local && At(w', p).remote == At(w, p).remote
      {
        assert At(w', p) == FilteredCell(cfg, p, At(w, p));
      }
      SameFilesByCell(w, w');
      assert Deleted(w.local, w'.local) == {};
    }
  }

  // ---------------------------------------------------------------------------
  // The other passes

  /** Uploading only gives exactly the world of a two-way pass whenever the remote scan still
      equals the base. */
  lemma UploadRefinesSync(cfg: Config, w: World, uploaded: World, synced: World)
    requires forall p :: See(cfg, p, At(w, p)).remote == See(cfg, p, At(w, p)).base
    requires forall p :: At(uploaded, p) == UploadCell(cfg, p, At(w, p))
    requires PassDone(cfg, w, synced)
    ensures uploaded == synced
  {
    forall p
      ensures At(uploaded, p) == At(synced, p)
    {
      assert At(synced, p) == PassCell(cfg, p, At(w, p));
      assert At(uploaded, p) == UploadCell(cfg, p, At(w, p));
      assert See(cfg, p, At(w, p)).remote == See(cfg, p, At(w, p)).base;
    }
    SameCells(uploaded, synced);
  }

  /** In general it publishes the local side: the base then records it, and every file that had
      left the base state, or is gone, is the same on the remote side. */
  lemma UploadPublishes(cfg: Config, p: Path, c: Cell)
    requires Tracked(cfg.patterns, p) && !Oversized(cfg, p, c.local)
    ensures var c' := UploadCell(cfg, p, c);
            && c'.local == c.local && c'.base == SnapOf(c.local)
            && (c.base != SnapOf(c.local) ==> VersionOf(c'.remote) == VersionOf(c.local))
            && (c.base == SnapOf(c.local) ==> c'.remote == c.remote)
  {
  }

  lemma MirrorCellAgrees(cfg: Config, p: Path, c: Cell)
    ensures var c' := MirrorCell(cfg, p, c);
            var hot := c.local.Some? && Tracked(cfg.patterns, p) && !Oversized(cfg, p, c.local);
            && c'.local == c.local && c'.remote.Some? == c'.base.Some? == hot
            && (hot ==> Agrees(c') && c'.remote.value.content == c.local.value.content)
  {
  }

  /** After a resetting startup the remote tree is exactly the hot local files, and the base
      records them. */
  lemma MirrorAgrees(cfg: Config, w: World, w': World)
    requires forall p :: At(w', p) == MirrorCell(cfg, p, At(w, p))
    ensures w'.local == w.local && w'.remote.Keys == w'.last.Keys
    ensures forall p :: p in w'.remote <==>
              p in w.local && Tracked(cfg.patterns, p) && !Oversized(cfg, p, At(w, p).local)
    ensures forall p :: p in w'.remote ==> Agrees(At(w', p)) && w'.remote[p].content == w.local[p].content
    ensures TrackedBase(cfg, w')
  {
    forall p
      ensures Get(w'.local, p) == Get(w.local, p)
      ensures p in w'.remote <==> p in w'.last
      ensures p in w'.remote <==> p in w.local && Tracked(cfg.patterns, p) && !Oversized(cfg, p, At(w, p).local)
      ensures p in w'.remote ==> Agrees(At(w', p)) && w'.remote[p].content == w.local[p].content
    {
      assert At(w', p) == MirrorCell(cfg, p, At(w, p));
      MirrorCellAgrees(cfg, p, At(w, p));
    }
    SameMap(w'.local, w.local);
  }

  /** The first polling pass after a resetting startup has nothing to do. */
  lemma FirstPassAfterMirrorIsIdle(cfg: Config, w: World, w1: World, w2: World)
    requires forall p :: At(w1, p) == MirrorCell(cfg, p, At(w, p))
    requires PassDone(cfg, w1, w2)
    ensures !GuardFires(cfg, w1)
    ensures !exists p :: Changes(cfg, w1, p)
    ensures w2 == w1
  {
    forall p
      ensures QuietCell(cfg, p, At(w1, p))
      ensures Oversized(cfg, p, At(w1, p).local) ==> Get(w1.last, p).None?
    {
      assert At(w1, p) == MirrorCell(cfg, p, At(w, p));
    }
    QuietPassIsIdle(cfg, w1, w2);
    SameMap(w2.last, w1.last);
  }

  /** An upload that was stopped and is then repeated ends exactly as one that was not. */
  lemma UploadRetryConverges(cfg: Config, w: World, stopped: World, end: World, direct: World)
    requires PartlyUploaded(cfg, w, stopped)
    requires forall p :: At(end, p) == UploadCell(cfg, p, At(stopped, p))
    requires forall p :: At(direct, p) == UploadCell(cfg, p, At(w, p))
    ensures end == direct
  {
    forall p
      ensures At(end, p) == At(direct, p)
    {
      var c := At(w, p);
      assert At(stopped, p) in {FilteredCell(cfg, p, c), UploadCell(cfg, p, c),
               UploadCell(cfg, p, c).(base := See(cfg, p, c).base)};
      UploadIsIdempotent(cfg, p, c);
      assert At(end, p) == UploadCell(cfg, p, At(stopped, p)) && At(direct, p) == UploadCell(cfg, p, c);
    }
    SameCells(end, direct);
  }

  lemma UploadIsIdempotent(cfg: Config, p: Path, c: Cell)
    ensures UploadCell(cfg, p, FilteredCell(cfg, p, c)) == UploadCell(cfg, p, c)
    ensures UploadCell(cfg, p, UploadCell(cfg, p, c)) == UploadCell(cfg, p, c)
    ensures UploadCell(cfg, p, UploadCell(cfg, p, c).(base := See(cfg, p, c).base)) == UploadCell(cfg, p, c)
  {
  }

  // ---------------------------------------------------------------------------
  // What the local walk cannot see

  /** A file deleted on the local side only: the deletion reaches the remote side exactly when the
      remote file still shows the base state; otherwise the file comes back locally. */
  lemma DeletionArrivesExactly(cfg: Config, p: Path, c: Cell)
    requires Tracked(cfg.patterns, p) && c.local.None? && c.remote.Some?
    ensures PassCell(cfg, p, c).remote.None? <==> c.base == SnapOf(c.remote)
    ensures c.base != SnapOf(c.remote) ==> VersionOf(PassCell(cfg, p, c).local) == VersionOf(c.remote)
  {
  }

  /** A tracked file that the local walk cannot reach, because the root is missing or a directory
      above the file is unreadable, is taken for deleted: its remote copy goes exactly when that
      copy still shows the base state. Otherwise the pass downloads the remote file; the flat map
      then has it, although the walk would not show it. */
  lemma UnseenIsTakenForDeleted(cfg: Config, w: World, w': World, localRoot: Option<Node>, p: Path)
    requires Lists(w.local, localRoot) && PassDone(cfg, w, w')
    requires localRoot.Some? ==> !Readable(localRoot.value, p)
    requires Tracked(cfg.patterns, p) && p in w.remote
    ensures p !in w'.remote <==> Get(w.last, p) == SnapOf(Get(w.remote, p))
    ensures p in w'.remote ==> VersionOf(Get(w'.local, p)) == VersionOf(Get(w.remote, p))
  {
    assert Get(w.local, p) == match localRoot
                              case None => None
                              case Some(n) => if Readable(n, p) then RegularAt(n, p) else None;
    assert At(w', p) == PassCell(cfg, p, At(w, p));
    DeletionArrivesExactly(cfg, p, At(w, p));
  }

  /** With the local root gone, a pass empties a remote side that is in step with the base, and the
      guard, which watches the remote side only, does not fire. */
  lemma MissingLocalRootEmptiesRemote(cfg: Config, w: World, w': World)
    requires Lists(w.local, None) && PassDone(cfg, w, w') && TrackedBase(cfg, w)
    requires forall p :: Tracked(cfg.patterns, p) ==> Get(w.last, p) == SnapOf(Get(w.remote, p))
    ensures !GuardFires(cfg, w)
    ensures forall p :: Tracked(cfg.patterns, p) ==> p !in w'.remote
  {
    forall p
      ensures p !in Missing(cfg, w)
      ensures Tracked(cfg.patterns, p) ==> p !in w'.remote
    {
      assert Get(w.local, p) == None;
      if Tracked(cfg.patterns, p) {
        assert At(w', p) == PassCell(cfg, p, At(w, p));
        AloneInStep(cfg, p, At(w, p));
      }
    }
    assert Missing(cfg, w) == {};
  }

  lemma AloneInStep(cfg: Config, p: Path, c: Cell)
    requires Tracked(cfg.patterns, p) && c.local.None? && c.base == SnapOf(c.remote)
    ensures See(cfg, p, c).remote == c.base && PassCell(cfg, p, c).remote.None?
  {
  }
}
