/**
 Cursor paging of the audit log in internal/controlplane/http/admin_bypass_audit_log.go: the
 rows arrive newest first, the cursor filter reuses the slice it reads from, and a client
 follows next_before until it is empty.
 */
module AuditPaging {
  import opened Wrappers

  /** createdAt counts from Go's zero time, so 0 is the value that IsZero() accepts. */
  datatype Row = Row(id: string, createdAt: int)

  /** The cursor filter; the zero cursor filters nothing. */
  function Older(rows: seq<Row>, before: int): (r: seq<Row>)
    ensures |r| <= |rows|
  {
    if before == 0 then rows else Kept(rows, before)
  }

  function Kept(rows: seq<Row>, before: int): (r: seq<Row>)
    ensures |r| <= |rows|
  {
    if rows == [] then
      []
    else
      Kept(rows[..|rows| - 1], before) + if rows[|rows| - 1].createdAt < before then [rows[|rows| - 1]] else []
  }

  function PageOf(rows: seq<Row>, before: int, limit: nat): (seq<Row>, Option<int>)
    requires limit > 0
  {
    var filtered := Older(rows, before);
    var page := if |filtered| > limit then filtered[..limit] else filtered;
    (page, if |page| == limit then Some(page[limit - 1].createdAt) else None)
  }

  // ---------------------------------------------------------------------------
  // One request

  /** `filtered := rows[:0]` and the appending loop, in place: the write position never passes
      the read position, so every row is read before it can be overwritten. */
  method FilterInPlace(rows: array<Row>, before: int) returns (kept: nat)
    modifies rows
    ensures kept <= rows.Length
    ensures rows[..kept] == Kept(old(rows[..]), before)
  {
    kept := 0;
    ghost var was := rows[..];
    for i := 0 to rows.Length
      invariant kept <= i
      invariant forall m :: i <= m < rows.Length ==> rows[m] == was[m]
      invariant rows[..kept] == Kept(was[..i], before)
    {
      var it := rows[i];
      assert was[..i + 1][..i] == was[..i];
      if it.createdAt < before {
        rows[kept] := it;
        kept := kept + 1;
        assert rows[..kept] == rows[..kept - 1] + [it];
      }
    }
    assert was[..rows.Length] == was;
  }

  /** The body of ListByHost after the rows are loaded. */
  method ListPage(rows: array<Row>, before: int, limit: nat) returns (page: seq<Row>, nextBefore: Option<int>)
    requires limit > 0
    modifies rows
    ensures (page, nextBefore) == PageOf(old(rows[..]), before, limit)
  {
    var n := rows.Length;
    if before != 0 {
      n := FilterInPlace(rows, before);
    }
    ghost var filtered := rows[..n];
    assert filtered == Older(old(rows[..]), before);
    if n > limit {
      n := limit;
    }
    nextBefore := None;
    if n == limit {
      nextBefore := Some(rows[n - 1].createdAt);
    }
    page := rows[..n];
    assert page == filtered[..n];
  }

  // ---------------------------------------------------------------------------
  // Following the cursor

  predicate Dated(rows: seq<Row>)
  {
    forall i :: 0 <= i < |rows| ==> rows[i].createdAt != 0
  }

  predicate NewestFirst(rows: seq<Row>)
  {
    forall i, j :: 0 <= i < j < |rows| ==> rows[i].createdAt >= rows[j].createdAt
  }

  /** The pages a client sees that starts at `before` and follows next_before to the end. */
  function Follow(rows: seq<Row>, before: int, limit: nat): (pages: seq<seq<Row>>)
    requires limit > 0 && Dated(rows)
    ensures pages != []
    decreases |Older(rows, before)|
  {
    var (page, next) := PageOf(rows, before, limit);
    if next.None? then
      [page]
    else
      CursorAdvances(rows, before, limit);
      [page] + Follow(rows, next.value, limit)
  }

  function Concat(pages: seq<seq<Row>>): seq<Row>
  {
    if pages == [] then [] else pages[0] + Concat(pages[1..])
  }

  lemma {:induction false} KeptMembers(rows: seq<Row>, before: int)
    ensures forall x :: x in Kept(rows, before) ==> x in rows && x.createdAt < before
  {
    if rows != [] {
      KeptMembers(rows[..|rows| - 1], before);
    }
  }

  /** Fewer rows lie before an earlier cursor. */
  lemma {:induction false} KeptShrinks(rows: seq<Row>, early: int, late: int)
    requires early <= late
    ensures |Kept(rows, early)| <= |Kept(rows, late)|
    ensures (exists x :: x in rows && early <= x.createdAt < late) ==> |Kept(rows, early)| < |Kept(rows, late)|
  {
    if rows != [] {
      KeptShrinks(rows[..|rows| - 1], early, late);
      assert forall x :: x in rows ==> x in rows[..|rows| - 1] || x == rows[|rows| - 1];
    }
  }

  lemma {:induction false} KeptLosesOne(rows: seq<Row>, before: int)
    ensures (exists x :: x in rows && x.createdAt >= before) ==> |Kept(rows, before)| < |rows|
  {
    if rows != [] {
      KeptLosesOne(rows[..|rows| - 1], before);
      assert forall x :: x in rows ==> x in rows[..|rows| - 1] || x == rows[|rows| - 1];
    }
  }

  lemma CursorAdvances(rows: seq<Row>, before: int, limit: nat)
    requires limit > 0 && Dated(rows) && PageOf(rows, before, limit).1.Some?
    ensures var next := PageOf(rows, before, limit).1.value;
            next != 0 && |Older(rows, next)| < |Older(rows, before)|
  {
    var last := PageOf(rows, before, limit).0[limit - 1];
    KeptMembers(rows, before);
    assert last in Older(rows, before) && last in rows;
    if before == 0 {
      KeptLosesOne(rows, last.createdAt);
    } else {
      KeptShrinks(rows, last.createdAt, before);
    }
  }

  /** All rows that the pages show. */
  function Shown(rows: seq<Row>, before: int, limit: nat): seq<Row>
    requires limit > 0 && Dated(rows)
    decreases |Older(rows, before)|
  {
    var (page, next) := PageOf(rows, before, limit);
    if next.None? then
      page
    else
      CursorAdvances(rows, before, limit);
      page + Shown(rows, next.value, limit)
  }

  lemma {:induction false} ShownIsConcat(rows: seq<Row>, before: int, limit: nat)
    requires limit > 0 && Dated(rows)
    ensures Concat(Follow(rows, before, limit)) == Shown(rows, before, limit)
    decreases |Older(rows, before)|
  {
    var (page, next) := PageOf(rows, before, limit);
    if next.None? {
      assert Concat([page]) == page + Concat([]);
    } else {
      CursorAdvances(rows, before, limit);
      ShownIsConcat(rows, next.value, limit);
      var rest := Follow(rows, next.value, limit);
      assert ([page] + rest)[1..] == rest;
    }
  }

  // ---------------------------------------------------------------------------
  // Completeness

  /** No page of full length ends between two rows of the same time. */
  predicate NoTieAtCut(rows: seq<Row>, limit: nat)
    requires limit > 0
  {
    forall c :: 0 < c < |rows| && c % limit == 0 ==> rows[c - 1].createdAt > rows[c].createdAt
  }

  /** Where the rows before the cursor start on a sorted log. */
  function FirstOlder(rows: seq<Row>, before: int): (k: nat)
    ensures k <= |rows|
  {
    if rows == [] then 0
    else if rows[|rows| - 1].createdAt >= before then |rows|
    else FirstOlder(rows[..|rows| - 1], before)
  }

  lemma {:induction false} FirstOlderSplits(rows: seq<Row>, before: int)
    requires NewestFirst(rows)
    ensures forall i :: 0 <= i < |rows| ==> (rows[i].createdAt < before <==> i >= FirstOlder(rows, before))
  {
    if rows != [] {
      FirstOlderSplits(rows[..|rows| - 1], before);
      assert forall i :: 0 <= i < |rows| - 1 ==> rows[..|rows| - 1][i] == rows[i];
    }
  }

  lemma {:induction false} KeptNone(rows: seq<Row>, before: int)
    requires forall i :: 0 <= i < |rows| ==> rows[i].createdAt >= before
    ensures Kept(rows, before) == []
  {
    if rows != [] {
      KeptNone(rows[..|rows| - 1], before);
    }
  }

  lemma TailSnoc(rows: seq<Row>, k: nat)
    requires k < |rows|
    ensures rows[k..] == rows[..|rows| - 1][k..] + [rows[|rows| - 1]]
  {
  }

  /** On a sorted log the filter keeps a tail. */
  lemma {:induction false} KeptIsTail(rows: seq<Row>, before: int)
    requires NewestFirst(rows)
    ensures Kept(rows, before) == rows[FirstOlder(rows, before)..]
  {
    if rows != [] {
      var n := |rows| - 1;
      if rows[n].createdAt >= before {
        KeptNone(rows, before);
      } else {
        KeptIsTail(rows[..n], before);
        TailSnoc(rows, FirstOlder(rows[..n], before));
      }
    }
  }

  /** A multiple of the page length. */
  predicate IsCut(c: nat, limit: nat)
    requires limit > 0
  {
    c == 0 || (c >= limit && IsCut(c - limit, limit))
  }

  /** The same for the cuts behind row k. */
  predicate CleanBehind(rows: seq<Row>, limit: nat, k: nat)
    requires limit > 0
  {
    forall c :: k < c < |rows| && IsCut(c, limit) ==> rows[c - 1].createdAt > rows[c].createdAt
  }

  /** Pages needed for n rows, the last one not full. */
  function Requests(n: nat, limit: nat): nat
    requires limit > 0
  {
    if n < limit then 1 else 1 + Requests(n - limit, limit)
  }

  lemma OneMoreRequest(pages: nat, rest: nat, n: nat, limit: nat)
    requires limit > 0
    requires if n < limit then pages == 1 else pages == 1 + rest && rest == Requests(n - limit, limit)
    ensures pages == Requests(n, limit)
  {
  }

  lemma {:induction false} RequestsIsQuotient(n: nat, limit: nat)
    requires limit > 0
    ensures Requests(n, limit) == n / limit + 1
  {
    if n >= limit {
      RequestsIsQuotient(n - limit, limit);
      CountStep(n, limit);
    }
  }

  lemma {:induction false} NoCutBetween(k: nat, c: nat, limit: nat)
    requires limit > 0 && IsCut(k, limit) && IsCut(c, limit) && k < c
    ensures c >= k + limit
  {
    if k > 0 {
      NoCutBetween(k - limit, c - limit, limit);
    }
  }

  lemma NoCutNear(rows: seq<Row>, limit: nat, k: nat)
    requires limit > 0 && IsCut(k, limit) && k <= |rows| < k + limit
    ensures CleanBehind(rows, limit, k)
  {
    forall c: nat | k < c < |rows| && IsCut(c, limit)
      ensures c >= k + limit
    {
      NoCutBetween(k, c, limit);
    }
  }

  /** The cuts behind k are k + limit and the cuts behind that one. */
  lemma NextCut(rows: seq<Row>, limit: nat, k: nat)
    requires limit > 0 && IsCut(k, limit) && k + limit <= |rows|
    ensures IsCut(k + limit, limit)
    ensures CleanBehind(rows, limit, k) <==>
            && (k + limit < |rows| ==> rows[k + limit - 1].createdAt > rows[k + limit].createdAt)
            && CleanBehind(rows, limit, k + limit)
  {
    forall c: nat | k < c < |rows| && IsCut(c, limit)
      ensures c >= k + limit
    {
      NoCutBetween(k, c, limit);
    }
  }

  /** The first page from row k on, and what is followed after it. */
  lemma PageAt(rows: seq<Row>, before: int, limit: nat, k: nat)
    requires limit > 0 && Dated(rows) && k <= |rows| && Older(rows, before) == rows[k..]
    ensures k + limit > |rows| ==> |Follow(rows, before, limit)| == 1 && Shown(rows, before, limit) == rows[k..]
    ensures k + limit <= |rows| ==>
              var next := rows[k + limit - 1].createdAt;
              && |Follow(rows, before, limit)| == 1 + |Follow(rows, next, limit)|
              && Shown(rows, before, limit) == rows[k..k + limit] + Shown(rows, next, limit)
  {
    var (page, next) := PageOf(rows, before, limit);
    assert page == if next.None? then rows[k..] else rows[k..k + limit];
  }

  /** One full page in front: complete only if the next page starts right behind it. */
  lemma FollowStep(rows: seq<Row>, limit: nat, k: nat, k': nat, tail: seq<Row>)
    requires 0 < limit && k + limit <= k' <= |rows| && |tail| <= |rows| - k'
    ensures rows[k..k + limit] + tail == rows[k..] <==> k' == k + limit && tail == rows[k'..]
  {
    var page := rows[k..k + limit];
    assert rows[k..] == page + rows[k + limit..];
    if page + tail == rows[k..] {
      assert tail == (page + tail)[limit..] == rows[k + limit..];
    }
  }

  lemma TailOf(rows: seq<Row>, before: int) returns (k: nat)
    requires NewestFirst(rows)
    ensures k <= |rows| && Older(rows, before) == rows[k..]
  {
    if before == 0 {
      k := 0;
    } else {
      k := FirstOlder(rows, before);
      KeptIsTail(rows, before);
    }
  }

  /** A full page from row k on is followed by a tail that starts no earlier than its end. */
  lemma NextTail(rows: seq<Row>, before: int, limit: nat, k: nat) returns (k': nat)
    requires limit > 0 && Dated(rows) && NewestFirst(rows) && k + limit <= |rows|
    ensures k + limit <= k' <= |rows|
    ensures Older(rows, rows[k + limit - 1].createdAt) == rows[k'..]
    ensures k' == k + limit <==> (k + limit < |rows| ==> rows[k + limit].createdAt < rows[k + limit - 1].createdAt)
  {
    var next := rows[k + limit - 1].createdAt;
    k' := FirstOlder(rows, next);
    KeptIsTail(rows, next);
    FirstOlderSplits(rows, next);
  }

  /** The pages never hold more rows than lie before the cursor. */
  lemma {:induction false} FollowIsBounded(rows: seq<Row>, before: int, limit: nat)
    requires limit > 0 && Dated(rows) && NewestFirst(rows)
    ensures |Shown(rows, before, limit)| <= |Older(rows, before)|
    decreases |Older(rows, before)|
  {
    var k := TailOf(rows, before);
    PageAt(rows, before, limit, k);
    if k + limit <= |rows| {
      var _ := NextTail(rows, before, limit, k);
      FollowIsBounded(rows, rows[k + limit - 1].createdAt, limit);
    }
  }

  /** The last page, which is not full. */
  lemma LastPage(rows: seq<Row>, before: int, limit: nat, k: nat)
    requires limit > 0 && Dated(rows) && IsCut(k, limit) && k <= |rows| < k + limit && Older(rows, before) == rows[k..]
    ensures Shown(rows, before, limit) == rows[k..] && CleanBehind(rows, limit, k)
  {
    PageAt(rows, before, limit, k);
    NoCutNear(rows, limit, k);
  }

  /** A full page from row k on: with the pages behind it, it is the rest of the log exactly if those
      are complete and it ends in no tie. */
  lemma FullPage(rows: seq<Row>, before: int, limit: nat, k: nat, k': nat)
    requires limit > 0 && Dated(rows) && IsCut(k, limit) && k + limit <= k' <= |rows|
               && Older(rows, before) == rows[k..]
    requires k' == k + limit <==> (k + limit < |rows| ==> rows[k + limit].createdAt < rows[k + limit - 1].createdAt)
    requires var tail := Shown(rows, rows[k + limit - 1].createdAt, limit);
             |tail| <= |rows| - k' && (k' == k + limit ==> (tail == rows[k'..] <==> CleanBehind(rows, limit, k')))
    ensures Shown(rows, before, limit) == rows[k..] <==> CleanBehind(rows, limit, k)
  {
    PageAt(rows, before, limit, k);
    NextCut(rows, limit, k);
    FollowStep(rows, limit, k, k', Shown(rows, rows[k + limit - 1].createdAt, limit));
  }

  /** The pages from the cut k on: they are the whole rest of the log exactly when no later cut
      falls into a tie. */
  lemma {:induction false} FollowFrom(rows: seq<Row>, before: int, limit: nat, k: nat)
    requires limit > 0 && Dated(rows) && NewestFirst(rows)
    requires k <= |rows| && IsCut(k, limit) && Older(rows, before) == rows[k..]
    ensures Shown(rows, before, limit) == rows[k..] <==> CleanBehind(rows, limit, k)
    decreases |rows| - k
  {
    if k + limit > |rows| {
      LastPage(rows, before, limit, k);
    } else {
      var next := rows[k + limit - 1].createdAt;
      var k' := NextTail(rows, before, limit, k);
      FollowIsBounded(rows, next, limit);
      if k' == k + limit {
        FollowFrom(rows, next, limit, k');
      }
      FullPage(rows, before, limit, k, k');
    }
  }

  /** Where the page after a full page from row k starts, if there is no tie at its end. */
  lemma CleanTail(rows: seq<Row>, before: int, limit: nat, k: nat)
    requires limit > 0 && Dated(rows) && NewestFirst(rows) && k + limit <= |rows|
    requires IsCut(k, limit) && CleanBehind(rows, limit, k)
    ensures Older(rows, rows[k + limit - 1].createdAt) == rows[k + limit..]
    ensures IsCut(k + limit, limit) && CleanBehind(rows, limit, k + limit)
  {
    var k' := NextTail(rows, before, limit, k);
    NextCut(rows, limit, k);
  }

  lemma CountFrom(rows: seq<Row>, before: int, limit: nat, k: nat)
    requires limit > 0 && Dated(rows) && k <= |rows| && Older(rows, before) == rows[k..]
    requires k + limit <= |rows| ==>
               |Follow(rows, rows[k + limit - 1].createdAt, limit)| == Requests(|rows| - k - limit, limit)
    ensures |Follow(rows, before, limit)| == Requests(|rows| - k, limit)
  {
    PageAt(rows, before, limit, k);
    OneMoreRequest(|Follow(rows, before, limit)|, |Follow(rows, before, limit)| - 1, |rows| - k, limit);
  }

  /** Without such a tie every page but the last one is full. */
  lemma {:induction false} FollowCount(rows: seq<Row>, before: int, limit: nat, k: nat)
    requires limit > 0 && Dated(rows) && NewestFirst(rows)
    requires k <= |rows| && IsCut(k, limit) && Older(rows, before) == rows[k..] && CleanBehind(rows, limit, k)
    ensures |Follow(rows, before, limit)| == Requests(|rows| - k, limit)
    decreases |rows| - k
  {
    if k + limit <= |rows| {
      CleanTail(rows, before, limit, k);
      FollowCount(rows, rows[k + limit - 1].createdAt, limit, k + limit);
    }
    CountFrom(rows, before, limit, k);
  }

  lemma {:induction false} CutsAreMultiples(c: nat, limit: nat)
    requires limit > 0
    ensures IsCut(c, limit) <==> c % limit == 0
  {
    if c >= limit {
      CutsAreMultiples(c - limit, limit);
      CountStep(c, limit);
    }
  }

  lemma OnlyZero(a: int, limit: nat)
    requires 0 <= a * limit < limit
    ensures a == 0
  {
    if a >= 1 {
      TimesGrows(a, limit);
    } else if a <= -1 {
      TimesGrows(-a, limit);
    }
  }

  lemma TimesGrows(a: int, limit: nat)
    requires a >= 1
    ensures a * limit >= limit
  {
    assert a * limit == limit + (a - 1) * limit;
  }

  lemma CountStep(n: nat, limit: nat)
    requires limit > 0 && n >= limit
    ensures n / limit == (n - limit) / limit + 1 && n % limit == (n - limit) % limit
  {
    var q, q' := n / limit, (n - limit) / limit;
    var r, r' := n % limit, (n - limit) % limit;
    assert n == q * limit + r && n - limit == q' * limit + r';
    assert (q - q' - 1) * limit == r' - r;
    if r' >= r {
      OnlyZero(q - q' - 1, limit);
    } else {
      assert (q' + 1 - q) * limit == r - r';
      OnlyZero(q' + 1 - q, limit);
    }
  }

  /** Main result: on a log sorted newest first, following next_before from the empty cursor
      returns every row exactly once and in order exactly when no full page ends inside a tie;
      it then takes floor(n/limit) + 1 requests. */
  lemma PagingIsCompleteExactly(rows: seq<Row>, limit: nat)
    requires limit > 0 && Dated(rows) && NewestFirst(rows)
    ensures Concat(Follow(rows, 0, limit)) == rows <==> NoTieAtCut(rows, limit)
    ensures NoTieAtCut(rows, limit) ==> |Follow(rows, 0, limit)| == |rows| / limit + 1
  {
    assert rows[0..] == rows;
    FollowFrom(rows, 0, limit, 0);
    ShownIsConcat(rows, 0, limit);
    if CleanBehind(rows, limit, 0) {
      FollowCount(rows, 0, limit, 0);
    }
    RequestsIsQuotient(|rows|, limit);
    forall c: nat
      ensures IsCut(c, limit) <==> c % limit == 0
    {
      CutsAreMultiples(c, limit);
    }
  }

  /** Two rows of the same time and pages of one row: the second row is never shown. */
  lemma TiedRowIsLost()
    ensures var rows := [Row("a", 5), Row("b", 5)];
            Dated(rows) && NewestFirst(rows) && Concat(Follow(rows, 0, 1)) == [rows[0]]
  {
    var rows := [Row("a", 5), Row("b", 5)];
    assert rows[0..] == rows;
    PageAt(rows, 0, 1, 0);
    KeptNone(rows, 5);
    assert Older(rows, 5) == [] == rows[2..];
    PageAt(rows, 5, 1, 2);
    assert rows[0..1] + [] == [rows[0]];
    ShownIsConcat(rows, 0, 1);
  }
}
