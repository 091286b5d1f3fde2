/**
 The two tree walks of internal/cloudclaude/hot_sync.go: `filepath.WalkDir` with a
 callback that prunes by SkipDir and shrugs off unreadable directories, and the recursive
 remote walk, which fails on them.
 */
module TreeWalk {
  import opened Wrappers
  import opened Paths
  import opened Ignore
  import opened IgnoreMatcher
  import opened SyncModel

  /** `Other` stands for symbolic links and special files. */
  datatype Node = Dir(readable: bool, entries: seq<Entry>) | Regular(file: File) | Other

  datatype Entry = Entry(name: string, node: Node)

  predicate WellFormed(n: Node)
  {
    n.Dir? ==>
      && (forall i :: 0 <= i < |n.entries| ==> GoodName(n.entries[i].name) && WellFormed(n.entries[i].node))
      && (forall i, j :: 0 <= i < j < |n.entries| ==> n.entries[i].name != n.entries[j].name)
  }

  /** The node reached by a path, if any. */
  function Lookup(n: Node, p: Path): Option<Node>
  {
    if p == [] then
      Some(n)
    else if n.Dir? && exists i :: 0 <= i < |n.entries| && n.entries[i].name == p[0] then
      var i := Position(n.entries, p[0]);
      Lookup(n.entries[i].node, p[1..])
    else
      None
  }

  function Position(es: seq<Entry>, name: string): (i: nat)
    requires exists i :: 0 <= i < |es| && es[i].name == name
    ensures i < |es| && es[i].name == name
  {
    if es[0].name == name then 0 else 1 + Position(es[1..], name)
  }

  /** Every directory on the way down q can be listed. */
  predicate Readable(n: Node, q: Path)
    decreases q
  {
    n.Dir? ==>
      && n.readable
      && (q != [] && (exists i :: 0 <= i < |n.entries| && n.entries[i].name == q[0]) ==>
            Readable(n.entries[Position(n.entries, q[0])].node, q[1..]))
  }

  function RegularAt(n: Node, p: Path): Option<File>
  {
    match Lookup(n, p)
    case Some(Regular(f)) => Some(f)
    case _ => None
  }

  /** `files` lists exactly the regular files of the tree. */
  ghost predicate Represents(files: map<Path, File>, root: Node)
  {
    forall p :: Get(files, p) == RegularAt(root, p)
  }

  /** The same for a root that may be missing, counting only what lies below readable directories. */
  ghost predicate Lists(files: map<Path, File>, root: Option<Node>)
  {
    forall p :: Get(files, p) == match root
                                 case None => None
                                 case Some(n) => if Readable(n, p) then RegularAt(n, p) else None
  }

  /** The tracked files of a flat listing, as the sync records them. */
  ghost function Scan(pats: seq<Pattern>, files: map<Path, File>): map<Path, Snap>
  {
    map p | p in files && Tracked(pats, p) :: SnapOf(Some(files[p])).value
  }

  /** The file reached from this node by q is seen by the local walk: below `base`, through
      directories that are neither pruned nor unreadable, and not ignored. */
  ghost predicate Sees(pats: seq<Pattern>, n: Node, base: Path, q: Path)
    decreases q
  {
    match n
    case Other => false
    case Regular(_) => q == [] && base != [] && !Ignored(pats, Join(base), false)
    case Dir(readable, es) =>
      && readable
      && (base != [] ==> !Pruned(pats, base))
      && q != []
      && exists i :: 0 <= i < |es| && es[i].name == q[0] && Sees(pats, es[i].node, base + [q[0]], q[1..])
  }

  /** What the sync records for the regular file reached by q. */
  function SnapAt(n: Node, q: Path): Option<Snap>
  {
    SnapOf(RegularAt(n, q))
  }

  /** `Sees` through one of the first m entries of a directory at `base`. */
  ghost predicate SeesAmong(pats: seq<Pattern>, es: seq<Entry>, m: nat, base: Path, q: Path)
    requires m <= |es|
  {
    q != [] && exists i :: 0 <= i < m && es[i].name == q[0] && Sees(pats, es[i].node, base + [q[0]], q[1..])
  }

  lemma AmongOneMore(pats: seq<Pattern>, es: seq<Entry>, m: nat, base: Path, q: Path)
    requires m < |es|
    ensures SeesAmong(pats, es, m + 1, base, q) <==>
            SeesAmong(pats, es, m, base, q)
              || (q != [] && es[m].name == q[0] && Sees(pats, es[m].node, base + [q[0]], q[1..]))
  {
  }

  lemma LookupEntry(n: Node, i: nat, q: Path)
    requires WellFormed(n) && n.Dir? && i < |n.entries|
    requires q != [] && q[0] == n.entries[i].name
    ensures Lookup(n, q) == Lookup(n.entries[i].node, q[1..])
  {
    assert Position(n.entries, q[0]) == i;
  }

  // ---------------------------------------------------------------------------
  // Removing a tree

  /** Every directory of the tree can be listed, so the tree can be removed. */
  predicate Erasable(n: Node)
  {
    n.Dir? ==> n.readable && forall i :: 0 <= i < |n.entries| ==> Erasable(n.entries[i].node)
  }

  /** None of the regular files of the subtree at `base` is left. */
  ghost predicate RegularsGone(files: map<Path, File>, base: Path, n: Node)
  {
    forall p :: base <= p && RegularAt(n, p[|base|..]).Some? ==> p !in files
  }

  /** None of those below the first m entries of a directory at `base` is left. */
  ghost predicate AmongGone(files: map<Path, File>, base: Path, es: seq<Entry>, m: nat)
    requires m <= |es|
  {
    forall i :: 0 <= i < m ==> RegularsGone(files, base + [es[i].name], es[i].node)
  }

  lemma GoneOneMore(before: map<Path, File>, after: map<Path, File>, base: Path, es: seq<Entry>, m: nat)
    requires m < |es| && AmongGone(before, base, es, m)
    requires forall p :: Get(after, p) in {None, Get(before, p)}
    requires RegularsGone(after, base + [es[m].name], es[m].node)
    ensures AmongGone(after, base, es, m + 1)
  {
    forall i, p | 0 <= i < m && base + [es[i].name] <= p && RegularAt(es[i].node, p[|base + [es[i].name]|..]).Some?
      ensures p !in after
    {
      assert RegularsGone(before, base + [es[i].name], es[i].node);
      assert Get(after, p) in {None, Get(before, p)};
    }
  }

  lemma AllGone(files: map<Path, File>, base: Path, n: Node)
    requires WellFormed(n) && n.Dir? && AmongGone(files, base, n.entries, |n.entries|)
    ensures RegularsGone(files, base, n)
  {
    forall p | base <= p && RegularAt(n, p[|base|..]).Some?
      ensures p !in files
    {
      var q := p[|base|..];
      var i := Position(n.entries, q[0]);
      var inner := base + [q[0]];
      LookupEntry(n, i, q);
      assert inner <= p && p[|inner|..] == q[1..];
      assert RegularsGone(files, base + [n.entries[i].name], n.entries[i].node);
    }
  }

  lemma AllRemoved(was: map<Path, File>, now: map<Path, File>, root: Node)
    requires Represents(was, root) && RegularsGone(now, [], root)
    requires forall p :: Get(now, p) in {None, Get(was, p)}
    ensures now == map[]
  {
    forall p
      ensures p !in now
    {
      assert Get(now, p) in {None, Get(was, p)} && Get(was, p) == RegularAt(root, p);
      assert [] <= p && p[0..] == p;
    }
    SameMap(now, map[]);
  }

  // ---------------------------------------------------------------------------
  // The walks

  /** Some directory that the remote walk enters below `base` cannot be listed. */
  ghost predicate Blocked(pats: seq<Pattern>, n: Node, base: Path)
    decreases n, 1
  {
    n.Dir? && (!n.readable || exists i :: 0 <= i < |n.entries| && BlockedEntry(pats, n.entries[i], base))
  }

  ghost predicate BlockedEntry(pats: seq<Pattern>, e: Entry, base: Path)
    decreases e.node, 2
  {
    e.node.Dir? && !Pruned(pats, base + [e.name]) && Blocked(pats, e.node, base + [e.name])
  }

  class Walker {
    const rules: seq<Rule>
    ghost const pats: seq<Pattern>
    var files: map<Path, Snap>

    ghost predicate Valid()
    {
      AllSound(pats) && rules == RulesOf(pats)
    }

    constructor (rules: seq<Rule>, ghost pats: seq<Pattern>)
      requires AllSound(pats)
      requires rules == RulesOf(pats)
      ensures Valid() && this.pats == pats && files == map[]
    {
      this.rules, this.pats := rules, pats;
      files := map[];
    }

    /** The files of the subtree at `base` that a walk has added. */
    ghost predicate Added(was: map<Path, Snap>, now: map<Path, Snap>, n: Node, base: Path)
    {
      forall p :: Get(now, p) == if base <= p && Sees(pats, n, base, p[|base|..])
                                 then SnapAt(n, p[|base|..]) else Get(was, p)
    }

    ghost predicate AddedAmong(was: map<Path, Snap>, now: map<Path, Snap>, n: Node, m: nat, base: Path)
      requires n.Dir? && m <= |n.entries|
    {
      forall p :: Get(now, p) == if base <= p && SeesAmong(pats, n.entries, m, base, p[|base|..])
                                 then SnapAt(n, p[|base|..]) else Get(was, p)
    }

    lemma AddedOneMore(was: map<Path, Snap>, mid: map<Path, Snap>, now: map<Path, Snap>, n: Node, m: nat, base: Path)
      requires WellFormed(n) && n.Dir? && m < |n.entries|
      requires AddedAmong(was, mid, n, m, base)
      requires Added(mid, now, n.entries[m].node, base + [n.entries[m].name])
      ensures AddedAmong(was, now, n, m + 1, base)
    {
      forall p
        ensures Get(now, p) == if base <= p && SeesAmong(pats, n.entries, m + 1, base, p[|base|..])
                               then SnapAt(n, p[|base|..]) else Get(was, p)
      {
        AddedOneMoreAt(was, mid, now, n, m, base, p);
      }
    }

    lemma AddedOneMoreAt(was: map<Path, Snap>, mid: map<Path, Snap>, now: map<Path, Snap>, n: Node, m: nat,
                         base: Path, p: Path)
      requires WellFormed(n) && n.Dir? && m < |n.entries|
      requires AddedAmong(was, mid, n, m, base)
      requires Added(mid, now, n.entries[m].node, base + [n.entries[m].name])
      ensures Get(now, p) == if base <= p && SeesAmong(pats, n.entries, m + 1, base, p[|base|..])
                             then SnapAt(n, p[|base|..]) else Get(was, p)
    {
      var e := n.entries[m];
      var inner := base + [e.name];
      if base <= p && |p| > |base| && p[|base|] == e.name {
        var q := p[|base|..];
        assert inner <= p && q[1..] == p[|inner|..] && base + [q[0]] == inner;
        LookupEntry(n, m, q);
        AmongOneMore(pats, n.entries, m, base, q);
      } else {
        assert inner[|base|] == e.name;
        assert !(inner <= p);
        if base <= p {
          AmongOneMore(pats, n.entries, m, base, p[|base|..]);
        }
      }
    }

    /** The callback of the local walk: record a file, or ask to skip a directory. */
    method Visit(rel: Path, node: Node) returns (skipDir: bool)
      requires Valid()
      modifies this
      ensures skipDir <==> node.Dir? && rel != [] && Pruned(pats, rel)
      ensures node.Dir? ==> files == old(files)
      ensures !node.Dir? ==> Added(old(files), files, node, rel)
    {
      skipDir := false;
      if rel == [] {
        return;
      }
      if node.Dir? {
        var ignored := IsIgnoredRel(rules, pats, Join(rel), true);
        return HardSkipped(rel[|rel| - 1]) || ignored;
      }
      if node.Other? {
        return;
      }
      var ignored := IsIgnoredRel(rules, pats, Join(rel), false);
      if !ignored {
        files := files[rel := Snap(|node.file.content|, Seconds(node.file))];
      }
      assert forall p :: rel <= p && p[|rel|..] == [] ==> p == rel;
    }

    /** filepath.WalkDir: an unreadable directory is reported to the callback, which ignores it. */
    method WalkDir(rel: Path, node: Node)
      requires Valid() && WellFormed(node)
      modifies this
      ensures Added(old(files), files, node, rel)
      decreases node
    {
      var skipDir := Visit(rel, node);
      if skipDir || !node.Dir? || !node.readable {
        return;
      }
      for i := 0 to |node.entries|
        invariant AddedAmong(old(files), files, node, i, rel)
      {
        ghost var mid := files;
        WalkDir(rel + [node.entries[i].name], node.entries[i].node);
        AddedOneMore(old(files), mid, files, node, i, rel);
      }
    }

    /** A regular file of the remote walk. */
    method RecordRemote(rel: Path, node: Node)
      requires Valid() && node.Regular? && rel != []
      modifies this
      ensures Added(old(files), files, node, rel)
    {
      var ignored := IsIgnoredRel(rules, pats, Join(rel), false);
      if !ignored {
        files := files[rel := Snap(|node.file.content|, Seconds(node.file))];
      }
      assert forall p :: rel <= p && p[|rel|..] == [] ==> p == rel;
    }

    /** The recursive function of the remote walk; false stands for a ReadDir error. */
    method WalkRemote(relBase: Path, dir: Node) returns (ok: bool)
      requires Valid() && WellFormed(dir) && dir.Dir?
      requires relBase != [] ==> !Pruned(pats, relBase)
      modifies this
      ensures ok <==> !Blocked(pats, dir, relBase)
      ensures ok ==> Added(old(files), files, dir, relBase)
      decreases dir
    {
      if !dir.readable {
        return false;
      }
      for i := 0 to |dir.entries|
        invariant AddedAmong(old(files), files, dir, i, relBase)
        invariant forall m :: 0 <= m < i ==> !BlockedEntry(pats, dir.entries[m], relBase)
      {
        var entry := dir.entries[i];
        var rel := relBase + [entry.name];
        ghost var mid := files;
        if entry.node.Dir? {
          var ignored := IsIgnoredRel(rules, pats, Join(rel), true);
          if !HardSkipped(entry.name) && !ignored {
            var inner := WalkRemote(rel, entry.node);
            if !inner {
              assert BlockedEntry(pats, dir.entries[i], relBase);
              return false;
            }
          }
        } else if entry.node.Regular? {
          RecordRemote(rel, entry.node);
        }
        AddedOneMore(old(files), mid, files, dir, i, relBase);
      }
      return true;
    }
  }

  // ---------------------------------------------------------------------------
  // What the walks compute

  /** `Tracked` for the path base + q, leaving out the directories above `base`. */
  ghost predicate TrackedBelow(pats: seq<Pattern>, base: Path, q: Path)
  {
    && base + q != []
    && !Ignored(pats, Join(base + q), false)
    && forall k :: 0 < k && |base| <= k < |base + q| ==> !Pruned(pats, (base + q)[..k])
  }

  predicate HasEntry(n: Node, name: string)
  {
    n.Dir? && exists i :: 0 <= i < |n.entries| && n.entries[i].name == name
  }

  /** What one more directory adds to the condition on the path. */
  lemma TrackedStep(pats: seq<Pattern>, base: Path, q: Path)
    requires q != []
    ensures TrackedBelow(pats, base, q) <==>
              (base != [] ==> !Pruned(pats, base)) && TrackedBelow(pats, base + [q[0]], q[1..])
  {
    var inner := base + [q[0]];
    assert inner + q[1..] == base + q;
    assert base != [] ==> (base + q)[..|base|] == base;
  }

  lemma SeesStep(pats: seq<Pattern>, n: Node, base: Path, q: Path)
    requires WellFormed(n) && q != [] && HasEntry(n, q[0])
    ensures var e := n.entries[Position(n.entries, q[0])].node;
            Sees(pats, n, base, q) <==>
              n.readable && (base != [] ==> !Pruned(pats, base)) && Sees(pats, e, base + [q[0]], q[1..])
  {
    var k := Position(n.entries, q[0]);
    forall i | 0 <= i < |n.entries| && n.entries[i].name == q[0]
      ensures i == k
    {
    }
  }

  lemma SeesEnd(pats: seq<Pattern>, n: Node, base: Path, q: Path)
    requires q == [] || !HasEntry(n, q[0])
    ensures Sees(pats, n, base, q) <==> SnapAt(n, q).Some? && TrackedBelow(pats, base, q)
    ensures SnapAt(n, q).Some? ==> Readable(n, q)
  {
    assert base + [] == base;
  }

  /** The walk's step-by-step pruning is the declarative condition on the whole path. */
  lemma {:induction false} SeesIsTracked(pats: seq<Pattern>, n: Node, base: Path, q: Path)
    requires WellFormed(n)
    ensures Sees(pats, n, base, q) <==> SnapAt(n, q).Some? && Readable(n, q) && TrackedBelow(pats, base, q)
    decreases q
  {
    if q != [] && HasEntry(n, q[0]) {
      var i := Position(n.entries, q[0]);
      LookupEntry(n, i, q);
      SeesIsTracked(pats, n.entries[i].node, base + [q[0]], q[1..]);
      SeesStep(pats, n, base, q);
      TrackedStep(pats, base, q);
    } else {
      SeesEnd(pats, n, base, q);
    }
  }

  // ---------------------------------------------------------------------------
  // The scans

  /** A name that both walks enter as a directory when no pattern excludes it. */
  predicate Entered(name: string)
  {
    && name != "node_modules" && name != "target" && name != "dist" && name != ".venv" && name != "__pycache__"
    && name != ".next" && name != "build" && name != ".cache" && name != ".git"
  }

  /** The path lies below none of the nine directories. */
  predicate OutsideSkipped(p: Path)
  {
    forall k :: 0 <= k < |p| - 1 ==> Entered(p[k])
  }

  /** A tracked path lies below none of the nine directories, and without patterns nothing else is
      excluded. */
  lemma TrackedIsOutside(pats: seq<Pattern>, p: Path)
    ensures Tracked(pats, p) ==> p != [] && OutsideSkipped(p)
    ensures pats == [] && p != [] && OutsideSkipped(p) ==> Tracked(pats, p)
  {
    if Tracked(pats, p) {
      forall k | 0 <= k < |p| - 1
        ensures Entered(p[k])
      {
        assert !Pruned(pats, p[..k + 1]);
      }
    }
    if pats == [] && p != [] && OutsideSkipped(p) {
      forall k | 0 < k < |p|
        ensures !Pruned(pats, p[..k])
      {
        assert Entered(p[k - 1]);
      }
    }
  }

  /** s is the size of a regular file of the tree and the whole second of its last change. */
  ghost predicate SnapOfFile(root: Node, p: Path, s: Snap)
  {
    && RegularAt(root, p).Some?
    && var f := RegularAt(root, p).value;
       s.size == |f.content| && s.seconds * 1_000_000_000 <= f.mtime < (s.seconds + 1) * 1_000_000_000
  }

  /** What every scan shows, whatever the patterns. */
  ghost predicate ShowsRegulars(root: Node, files: map<Path, Snap>)
  {
    forall p :: p in files ==> OutsideSkipped(p) && SnapOfFile(root, p, files[p])
  }

  /** Without patterns: every such file, and no other. */
  ghost predicate ShowsAll(root: Node, files: map<Path, Snap>)
  {
    forall p :: p in files <==> p != [] && OutsideSkipped(p) && RegularAt(root, p).Some? && Readable(root, p)
  }

  lemma ScanMeaning(pats: seq<Pattern>, root: Node, files: map<Path, Snap>)
    requires forall p :: Get(files, p) ==
                         if Tracked(pats, p) && Readable(root, p) then SnapAt(root, p) else None
    ensures ShowsRegulars(root, files) && (pats == [] ==> ShowsAll(root, files))
  {
    forall p
      ensures p in files ==> OutsideSkipped(p) && SnapOfFile(root, p, files[p])
      ensures pats == [] ==>
                (p in files <==> p != [] && OutsideSkipped(p) && RegularAt(root, p).Some? && Readable(root, p))
    {
      assert Get(files, p) == if Tracked(pats, p) && Readable(root, p) then SnapAt(root, p) else None;
      TrackedIsOutside(pats, p);
    }
  }

  /** The local walk returns the tracked files that lie below readable directories only. */
  method ScanLocal(rules: seq<Rule>, ghost pats: seq<Pattern>, root: Option<Node>) returns (files: map<Path, Snap>)
    requires AllSound(pats)
    requires rules == RulesOf(pats)
    requires root.Some? ==> WellFormed(root.value)
    ensures root.None? ==> files == map[]
    ensures root.Some? ==>
              forall p :: Get(files, p) ==
                (if Tracked(pats, p) && Readable(root.value, p) then SnapAt(root.value, p) else None)
    ensures root.Some? ==> ShowsRegulars(root.value, files) && (pats == [] ==> ShowsAll(root.value, files))
  {
    if root.None? {
      return map[];
    }
    var w := new Walker(rules, pats);
    w.WalkDir([], root.value);
    files := w.files;
    forall p
      ensures Get(files, p) == if Tracked(pats, p) && Readable(root.value, p) then SnapAt(root.value, p) else None
    {
      assert [] <= p && p[0..] == p && [] + p == p;
      SeesIsTracked(pats, root.value, [], p);
    }
    ScanMeaning(pats, root.value, files);
  }

  /** The remote walk returns every tracked file, or fails on a directory it cannot list. */
  method ScanRemote(rules: seq<Rule>, ghost pats: seq<Pattern>, root: Option<Node>) returns (r: Option<map<Path, Snap>>)
    requires AllSound(pats)
    requires rules == RulesOf(pats)
    requires root.Some? ==> WellFormed(root.value)
    ensures r.Some? <==> root.Some? && root.value.Dir? && !Blocked(pats, root.value, [])
    ensures r.Some? ==> forall p :: Get(r.value, p) == if Tracked(pats, p) then SnapAt(root.value, p) else None
    ensures r.Some? ==> ShowsRegulars(root.value, r.value) && (pats == [] ==> ShowsAll(root.value, r.value))
  {
    if root.None? || !root.value.Dir? {
      return None;
    }
    var w := new Walker(rules, pats);
    var ok := w.WalkRemote([], root.value);
    if !ok {
      return None;
    }
    r := Some(w.files);
    forall p
      ensures Get(r.value, p) == if Tracked(pats, p) then SnapAt(root.value, p) else None
      ensures Get(r.value, p) == if Tracked(pats, p) && Readable(root.value, p) then SnapAt(root.value, p) else None
    {
      assert [] <= p && p[0..] == p && [] + p == p;
      SeesIsTracked(pats, root.value, [], p);
      if Tracked(pats, p) && SnapAt(root.value, p).Some? {
        UnblockedIsReadable(pats, root.value, [], p);
      }
    }
    ScanMeaning(pats, root.value, r.value);
  }

  lemma {:induction false} UnblockedIsReadable(pats: seq<Pattern>, n: Node, base: Path, q: Path)
    requires WellFormed(n) && !Blocked(pats, n, base)
    requires TrackedBelow(pats, base, q) && SnapAt(n, q).Some?
    ensures Readable(n, q)
    decreases q
  {
    if n.Dir? && q != [] {
      var i := Position(n.entries, q[0]);
      var inner := base + [q[0]];
      assert inner + q[1..] == base + q;
      assert !BlockedEntry(pats, n.entries[i], base);
      LookupEntry(n, i, q);
      if n.entries[i].node.Dir? {
        assert q[1..] != [];
        assert (base + q)[..|inner|] == inner;
        UnblockedIsReadable(pats, n.entries[i].node, inner, q[1..]);
      }
    }
  }

  /** On trees with the same regular files the local walk agrees with the remote walk
      (which fails or returns `Scan`) exactly when no tracked local file is hidden
      below an unreadable directory. */
  lemma WalksAgree(pats: seq<Pattern>, files: map<Path, File>, localRoot: Node, remoteRoot: Node,
                   localFiles: map<Path, Snap>, remoteFiles: map<Path, Snap>)
    requires Represents(files, localRoot) && Represents(files, remoteRoot)
    requires forall p :: Get(localFiles, p) ==
                         if Tracked(pats, p) && Readable(localRoot, p) then SnapAt(localRoot, p) else None
    requires forall p :: Get(remoteFiles, p) == if Tracked(pats, p) then SnapAt(remoteRoot, p) else None
    ensures remoteFiles == Scan(pats, files)
    ensures localFiles == remoteFiles <==> forall p :: p in files && Tracked(pats, p) ==> Readable(localRoot, p)
  {
    forall p
      ensures SnapAt(localRoot, p) == SnapAt(remoteRoot, p) == SnapOf(Get(files, p))
      ensures Get(remoteFiles, p) == Get(Scan(pats, files), p)
      ensures p in files && Tracked(pats, p) ==> (Get(localFiles, p) == Get(remoteFiles, p) <==> Readable(localRoot, p))
      ensures !(p in files && Tracked(pats, p)) ==> Get(localFiles, p) == Get(remoteFiles, p) == None
    {
      assert Get(files, p) == RegularAt(localRoot, p) == RegularAt(remoteRoot, p);
    }
    SameMap(remoteFiles, Scan(pats, files));
    if forall p :: p in files && Tracked(pats, p) ==> Readable(localRoot, p) {
      forall p
        ensures Get(localFiles, p) == Get(remoteFiles, p)
      {
      }
      SameMap(localFiles, remoteFiles);
    }
  }
}
