/** The ingredient ranking: `sort_values("similarity", ascending=False).head(10)`.
    The TF-IDF similarity is left abstract: any integer-valued score per row. */
module Ranking {
  import opened Seqs

  /** The number of rows the ranking keeps. */
  const TopCount: nat := 10

  /** Scores never increase along `s`. */
  predicate NonIncreasing<T>(s: seq<T>, score: T -> int) {
    forall i, j :: 0 <= i < j < |s| ==> score(s[i]) >= score(s[j])
  }

  /** A bound on the scores of `s` and of `x` bounds every row of a
      rearrangement of `s` plus `x`. */
  lemma MembersBounded<T>(t: seq<T>, s: seq<T>, x: T, score: T -> int, bound: int)
    requires multiset(t) == multiset(s) + multiset{x}
    requires score(x) <= bound
    requires forall k :: 0 <= k < |s| ==> score(s[k]) <= bound
    ensures forall j :: 0 <= j < |t| ==> score(t[j]) <= bound
  {
    forall j | 0 <= j < |t| ensures score(t[j]) <= bound {
      assert t[j] in multiset(t);
      if t[j] != x {
        assert t[j] in multiset(s);
        var k :| 0 <= k < |s| && s[k] == t[j];
      }
    }
  }

  /** Puts `x` in front of the first row that does not score higher. */
  function Insert<T>(x: T, s: seq<T>, score: T -> int): (r: seq<T>)
    requires NonIncreasing(s, score)
    ensures NonIncreasing(r, score)
    ensures multiset(r) == multiset(s) + multiset{x}
  {
    if |s| == 0 || score(s[0]) <= score(x) then
      [x] + s
    else
      var t := Insert(x, s[1..], score);
      assert s == [s[0]] + s[1..];
      MembersBounded(t, s[1..], x, score, score(s[0]));
      [s[0]] + t
  }

  /** A descending sort by score. Which of several equally scored rows comes
      first is not part of any claim made about it. */
  function SortByScore<T>(s: seq<T>, score: T -> int): (r: seq<T>)
    ensures NonIncreasing(r, score)
    ensures multiset(r) == multiset(s)
  {
    if |s| == 0 then []
    else
      assert s == [s[0]] + s[1..];
      Insert(s[0], SortByScore(s[1..], score), score)
  }

  /** The best `TopCount` rows by score, best first. */
  function RankTop<T>(rows: seq<T>, score: T -> int): seq<T> {
    Take(SortByScore(rows, score), TopCount)
  }

  /** In a ranked list, every row of a prefix scores at least as high as
      every row after it. */
  lemma PrefixBeatsRest<T>(s: seq<T>, score: T -> int, k: nat)
    requires NonIncreasing(s, score) && k <= |s|
    ensures forall x, y :: x in s[..k] && y in s[k..] ==> score(y) <= score(x)
  {
    forall x, y | x in s[..k] && y in s[k..] ensures score(y) <= score(x) {
      var i :| 0 <= i < k && s[..k][i] == x;
      var j :| 0 <= j < |s| - k && s[k..][j] == y;
      assert s[i] == x && s[k + j] == y;
    }
  }

  /** The ranking keeps `min(10, |rows|)` rows taken from `rows` (no row more
      often than it occurs there), best first, and every row it drops scores
      no higher than every row it keeps. */
  lemma RankTopSpec<T>(rows: seq<T>, score: T -> int)
    ensures |RankTop(rows, score)| == if |rows| < TopCount then |rows| else TopCount
    ensures multiset(RankTop(rows, score)) <= multiset(rows)
    ensures NonIncreasing(RankTop(rows, score), score)
    ensures forall x, y ::
              x in RankTop(rows, score) && y in multiset(rows) - multiset(RankTop(rows, score))
              ==> score(y) <= score(x)
  {
    var sorted := SortByScore(rows, score);
    var r := RankTop(rows, score);
    var k := |r|;
    assert r == sorted[..k];
    PrefixRest(sorted, k);
    PrefixBeatsRest(sorted, score, k);
  }

  /** Dropping rows from a ranking leaves it ranked. */
  lemma {:induction false} SubseqNonIncreasing<T>(a: seq<T>, b: seq<T>, score: T -> int)
    requires IsSubseq(a, b) && NonIncreasing(b, score)
    ensures NonIncreasing(a, score)
    decreases |b|
  {
    if |a| > 0 {
      if a[0] == b[0] {
        SubseqNonIncreasing(a[1..], b[1..], score);
        SubseqMembers(a[1..], b[1..]);
        forall j | 0 < j < |a| ensures score(a[0]) >= score(a[j]) {
          assert a[j] in a[1..];
          var k :| 0 <= k < |b[1..]| && b[1..][k] == a[j];
          assert b[k + 1] == a[j];
        }
      } else {
        SubseqNonIncreasing(a, b[1..], score);
      }
    }
  }
}
