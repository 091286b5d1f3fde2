/**
 voteEgressIP of internal/network/verify.go: the majority vote over the answers of several
 IP-echo services, whose loop visits a Go map in unspecified order.
 */
module EgressVote {
  import opened Text

  /** The non-blank answers, trimmed, with multiplicity. */
  function Ballots(results: seq<string>): multiset<string>
  {
    if results == [] then
      multiset{}
    else
      Ballots(results[..|results| - 1]) + Ballot(results[|results| - 1])
  }

  function Ballot(result: string): multiset<string>
  {
    var r := TrimSpace(result);
    if r == "" then multiset{} else multiset{r}
  }

  /** w is the only most frequent ballot, cast at least twice or as the only answer at all. */
  ghost predicate Wins(w: string, ballots: multiset<string>, answers: nat)
  {
    && w in ballots
    && (forall v :: v in ballots && v != w ==> ballots[v] < ballots[w])
    && (ballots[w] >= 2 || answers == 1)
  }

  /** What the vote says: the winner, or nobody wins. */
  ghost predicate Elects(results: seq<string>, winner: string, ok: bool)
  {
    if ok then Wins(winner, Ballots(results), |results|)
    else winner == "" && forall w :: !Wins(w, Ballots(results), |results|)
  }

  /** The vote: `ok` and the winner are decided by the ballots and the number of answers alone,
      whatever the order in which the counts are visited. */
  method VoteEgressIP(results: seq<string>) returns (winner: string, ok: bool)
    ensures Elects(results, winner, ok)
  {
    var counts := CountBallots(results);
    var best, top, tied := TopCount(counts);
    OnlyAnswer(results);
    TopIsWinner(counts, Ballots(results), |results|, best, top, tied);
    if (top >= 2 && tied == 1) || (top == 1 && tied == 1 && |results| == 1) {
      return best, true;
    }
    return "", false;
  }

  /** The loop over the counts: the largest count, how many reach it, and one that does. */
  method TopCount(counts: map<string, nat>) returns (best: string, top: nat, tied: nat)
    requires forall v :: v in counts ==> counts[v] > 0
    ensures forall v :: v in counts ==> counts[v] <= top
    ensures tied == |Reaching(counts, top)|
    ensures if counts == map[] then top == 0 else best in Reaching(counts, top)
  {
    best, top, tied := "", 0, 0;
    var todo := counts.Keys;
    ghost var tops: set<string> := {};
    while todo != {}
      invariant todo <= counts.Keys
      invariant forall v :: v in counts && v !in todo ==> counts[v] <= top
      invariant forall v :: v in tops <==> v in counts && v !in todo && counts[v] == top
      invariant tied == |tops|
      invariant if todo == counts.Keys then top == 0 else best in tops
      decreases |todo|
    {
      var ip :| ip in todo;
      todo := todo - {ip};
      var c := counts[ip];
      if c > top {
        best, top, tied := ip, c, 1;
        tops := {ip};
      } else if c == top {
        tied := tied + 1;
        tops := tops + {ip};
      }
    }
    assert tops == Reaching(counts, top);
    assert counts == map[] <==> counts.Keys == {};
  }

  ghost function Reaching(counts: map<string, nat>, top: nat): set<string>
  {
    set v | v in counts && counts[v] == top
  }

  lemma TopIsWinner(counts: map<string, nat>, ballots: multiset<string>, answers: nat, best: string, top: nat,
                    tied: nat)
    requires forall v :: v in counts <==> v in ballots
    requires forall v :: v in counts ==> counts[v] == ballots[v] > 0
    requires forall v :: v in counts ==> counts[v] <= top
    requires tied == |Reaching(counts, top)| && |ballots| <= answers
    requires if counts == map[] then top == 0 else best in Reaching(counts, top)
    ensures (top >= 2 && tied == 1) || (top == 1 && tied == 1 && answers == 1) ==> Wins(best, ballots, answers)
    ensures !((top >= 2 && tied == 1) || (top == 1 && tied == 1 && answers == 1)) ==>
              forall w :: !Wins(w, ballots, answers)
  {
    if tied == 1 {
      OnlyOne(Reaching(counts, top), best);
      assert forall v :: v in ballots && v != best ==> v !in Reaching(counts, top);
    }
    forall w | Wins(w, ballots, answers)
      ensures (top >= 2 && tied == 1) || (top == 1 && tied == 1 && answers == 1)
    {
      assert w in counts && best in counts;
      assert Reaching(counts, top) == {w};
    }
  }

  lemma OnlyOne<T>(s: set<T>, x: T)
    requires |s| == 1 && x in s
    ensures s == {x}
  {
    assert |s - {x}| == 0;
  }

  /** The counting loop: a map from each non-blank trimmed answer to how often it came. */
  method CountBallots(results: seq<string>) returns (counts: map<string, nat>)
    ensures forall v :: v in counts <==> v in Ballots(results)
    ensures forall v :: v in counts ==> counts[v] == Ballots(results)[v] > 0
  {
    counts := map[];
    for i := 0 to |results|
      invariant Counts(counts, Ballots(results[..i]))
    {
      var r := TrimSpace(results[i]);
      assert results[..i + 1][..i] == results[..i];
      if r == "" {
        continue;
      }
      CountOne(counts, Ballots(results[..i]), r);
      counts := counts[r := (if r in counts then counts[r] else 0) + 1];
    }
    assert results[..|results|] == results;
  }

  ghost predicate Counts(counts: map<string, nat>, ballots: multiset<string>)
  {
    && (forall v :: v in counts <==> v in ballots)
    && (forall v :: v in counts ==> counts[v] == ballots[v])
  }

  lemma CountOne(counts: map<string, nat>, ballots: multiset<string>, r: string)
    requires Counts(counts, ballots)
    ensures Counts(counts[r := (if r in counts then counts[r] else 0) + 1], ballots + multiset{r})
  {
  }

  lemma {:induction false} OnlyAnswer(results: seq<string>)
    ensures |Ballots(results)| <= |results|
  {
    if results != [] {
      OnlyAnswer(results[..|results| - 1]);
    }
  }

  lemma {:induction false} BallotsConcat(a: seq<string>, b: seq<string>)
    ensures Ballots(a + b) == Ballots(a) + Ballots(b)
    decreases |b|
  {
    if b == [] {
      assert a + b == a;
    } else {
      assert (a + b)[..|a + b| - 1] == a + b[..|b| - 1];
      BallotsConcat(a, b[..|b| - 1]);
    }
  }

  lemma {:induction false} SameBallots(a: seq<string>, b: seq<string>)
    requires multiset(a) == multiset(b)
    ensures Ballots(a) == Ballots(b) && |a| == |b|
    decreases |a|
  {
    assert |a| == |multiset(a)| && |b| == |multiset(b)|;
    if a != [] {
      var x, init := a[|a| - 1], a[..|a| - 1];
      assert a == init + [x];
      assert x in multiset(b);
      var i :| 0 <= i < |b| && b[i] == x;
      var rest := b[..i] + b[i + 1..];
      Removed(b, i);
      assert multiset(init) == multiset(a) - multiset{x};
      SameBallots(init, rest);
    }
  }

  lemma Removed(b: seq<string>, i: nat)
    requires i < |b|
    ensures multiset(b[..i] + b[i + 1..]) == multiset(b) - multiset{b[i]}
    ensures Ballots(b) == Ballots(b[..i] + b[i + 1..]) + Ballot(b[i])
  {
    SplitAt(b, i);
    RemovedBetween(b[..i], b[i], b[i + 1..]);
  }

  lemma SplitAt<T>(b: seq<T>, i: nat)
    requires i < |b|
    ensures b == (b[..i] + [b[i]]) + b[i + 1..]
  {
  }

  lemma RemovedBetween(left: seq<string>, x: string, right: seq<string>)
    ensures multiset(left + right) == multiset((left + [x]) + right) - multiset{x}
    ensures Ballots((left + [x]) + right) == Ballots(left + right) + Ballot(x)
  {
    assert (left + [x])[..|left|] == left;
    BallotsConcat(left + [x], right);
    BallotsConcat(left, right);
  }

  /** Main result: two votes on the same answers, in any order of the answers and of the counts,
      have the same outcome. */
  lemma OrderDoesNotMatter(a: seq<string>, b: seq<string>, winner: string, ok: bool, winner': string, ok': bool)
    requires multiset(a) == multiset(b)
    requires Elects(a, winner, ok) && Elects(b, winner', ok')
    ensures winner == winner' && ok == ok'
  {
    SameBallots(a, b);
  }
}
