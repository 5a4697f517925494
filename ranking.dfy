/**
 * The ranking step of the screening run in app.py:
 * `ranked_candidates.sort(key=lambda x: x["score"], reverse=True)`.
 *
 * Python's sort is stable, also with `reverse=True`: candidates with equal
 * scores keep their upload order. The library sort is modelled by an
 * insertion sort on values, specified by what it promises: the result is
 * ordered by descending score, is a permutation of the input, and keeps the
 * order among equal scores. Any list with those three properties is this one.
 */
module Ranking {

  /** A candidate record: file name, score, explanation and stored path. */
  datatype Candidate = Candidate(filename: string, score: real, explanation: string, filePath: string)

  /** Scores never increase along the list. */
  predicate SortedByScoreDesc(s: seq<Candidate>) {
    forall i, j :: 0 <= i < j < |s| ==> s[i].score >= s[j].score
  }

  /** The candidates with score `v`, in list order. */
  function WithScore(s: seq<Candidate>, v: real): (r: seq<Candidate>)
    ensures |r| <= |s|
  {
    if s == [] then []
    else (if s[0].score == v then [s[0]] else []) + WithScore(s[1..], v)
  }

  /** `x` placed before the first candidate whose score is not greater than its own. */
  function InsertByScore(x: Candidate, s: seq<Candidate>): (r: seq<Candidate>)
    ensures |r| == |s| + 1
  {
    if s == [] || s[0].score <= x.score then [x] + s
    else [s[0]] + InsertByScore(x, s[1..])
  }

  /** The list as `sort(key=score, reverse=True)` leaves it. */
  function SortByScoreDesc(s: seq<Candidate>): (r: seq<Candidate>)
    ensures |r| == |s|
  {
    if s == [] then [] else InsertByScore(s[0], SortByScoreDesc(s[1..]))
  }

  // ---------------------------------------------------------------------------
  // Insertion

  lemma {:induction false} InsertKeepsMultiset(x: Candidate, s: seq<Candidate>)
    ensures multiset(InsertByScore(x, s)) == multiset(s) + multiset{x}
  {
    if s != [] && s[0].score > x.score {
      InsertKeepsMultiset(x, s[1..]);
      assert s == [s[0]] + s[1..];
    }
  }

  lemma {:induction false} InsertKeepsSorted(x: Candidate, s: seq<Candidate>)
    requires SortedByScoreDesc(s)
    ensures SortedByScoreDesc(InsertByScore(x, s))
  {
    if s != [] && s[0].score > x.score {
      InsertKeepsSorted(x, s[1..]);
      InsertKeepsMultiset(x, s[1..]);
      var r := InsertByScore(x, s[1..]);
      forall j | 0 <= j < |r|
        ensures s[0].score >= r[j].score
      {
        assert r[j] in multiset(r);
        if r[j] != x {
          assert r[j] in multiset(s[1..]);
          var k :| 0 <= k < |s[1..]| && s[1..][k] == r[j];
          assert s[k + 1] == r[j];
        }
      }
    }
  }

  /** Inserting `x` puts it in front of every earlier candidate with its score. */
  lemma {:induction false} InsertWithScore(x: Candidate, s: seq<Candidate>, v: real)
    ensures WithScore(InsertByScore(x, s), v) == (if x.score == v then [x] else []) + WithScore(s, v)
  {
    var xs := if x.score == v then [x] else [];
    if s == [] || s[0].score <= x.score {
      assert InsertByScore(x, s) == [x] + s;
      assert ([x] + s)[1..] == s;
      assert WithScore([x] + s, v) == xs + WithScore(s, v);
    } else {
      InsertWithScore(x, s[1..], v);
      var r := InsertByScore(x, s[1..]);
      var hs := if s[0].score == v then [s[0]] else [];
      assert InsertByScore(x, s) == [s[0]] + r;
      assert ([s[0]] + r)[1..] == r;
      assert WithScore([s[0]] + r, v) == hs + (xs + WithScore(s[1..], v));
      assert WithScore(s, v) == hs + WithScore(s[1..], v);
      assert xs == [] || hs == [];
    }
  }

  // ---------------------------------------------------------------------------
  // The sort

  /** The sorted list holds exactly the same candidates. */
  lemma {:induction false} SortIsPermutation(s: seq<Candidate>)
    ensures multiset(SortByScoreDesc(s)) == multiset(s)
  {
    if s != [] {
      SortIsPermutation(s[1..]);
      InsertKeepsMultiset(s[0], SortByScoreDesc(s[1..]));
      assert s == [s[0]] + s[1..];
    }
  }

  /** Scores never increase along the sorted list. */
  lemma {:induction false} SortIsSorted(s: seq<Candidate>)
    ensures SortedByScoreDesc(SortByScoreDesc(s))
  {
    if s != [] {
      SortIsSorted(s[1..]);
      InsertKeepsSorted(s[0], SortByScoreDesc(s[1..]));
    }
  }

  /** Candidates with equal scores keep their relative order. */
  lemma {:induction false} SortIsStable(s: seq<Candidate>, v: real)
    ensures WithScore(SortByScoreDesc(s), v) == WithScore(s, v)
  {
    if s != [] {
      SortIsStable(s[1..], v);
      InsertWithScore(s[0], SortByScoreDesc(s[1..]), v);
    }
  }

  // ---------------------------------------------------------------------------
  // Uniqueness: ordered and stable determine the result

  lemma {:induction false} WithScoreMembers(s: seq<Candidate>, v: real, c: Candidate)
    ensures c in WithScore(s, v) <==> c in s && c.score == v
  {
    if s != [] {
      WithScoreMembers(s[1..], v, c);
      assert s == [s[0]] + s[1..];
    }
  }

  lemma SomeScorePresent(s: seq<Candidate>)
    requires s != []
    ensures exists v :: WithScore(s, v) != []
  {
    assert WithScore(s, s[0].score) != [];
  }

  /** Two lists ordered by descending score with the same candidates, in the same order, at every score are equal. */
  lemma {:induction false} OrderedAndStableDetermine(a: seq<Candidate>, b: seq<Candidate>)
    requires SortedByScoreDesc(a) && SortedByScoreDesc(b)
    requires forall v :: WithScore(a, v) == WithScore(b, v)
    ensures a == b
    decreases |a|
  {
    if a == [] && b != [] {
      SomeScorePresent(b);
      assert false;
    } else if a != [] && b == [] {
      SomeScorePresent(a);
      assert false;
    } else if a != [] && b != [] {
      var va, vb := a[0].score, b[0].score;
      WithScoreMembers(a, va, a[0]);
      assert a[0] in WithScore(b, va);
      WithScoreMembers(b, va, a[0]);
      WithScoreMembers(b, vb, b[0]);
      assert b[0] in WithScore(a, vb);
      WithScoreMembers(a, vb, b[0]);
      assert va >= vb && vb >= va;
      assert a[0] == b[0] by {
        assert WithScore(a, va)[0] == a[0];
        assert WithScore(b, va)[0] == b[0];
      }
      forall v
        ensures WithScore(a[1..], v) == WithScore(b[1..], v)
      {
        var p := if va == v then [a[0]] else [];
        assert WithScore(a, v) == p + WithScore(a[1..], v);
        assert WithScore(b, v) == p + WithScore(b[1..], v);
        assert (p + WithScore(a[1..], v))[|p|..] == WithScore(a[1..], v);
        assert (p + WithScore(b[1..], v))[|p|..] == WithScore(b[1..], v);
      }
      OrderedAndStableDetermine(a[1..], b[1..]);
      assert a == [a[0]] + a[1..] && b == [b[0]] + b[1..];
    }
  }

  /** Any list ordered by descending score that keeps the order among equal scores is the sorted list. */
  lemma SortIsUnique(s: seq<Candidate>, r: seq<Candidate>)
    requires SortedByScoreDesc(r)
    requires forall v :: WithScore(r, v) == WithScore(s, v)
    ensures r == SortByScoreDesc(s)
  {
    SortIsSorted(s);
    forall v
      ensures WithScore(r, v) == WithScore(SortByScoreDesc(s), v)
    {
      SortIsStable(s, v);
    }
    OrderedAndStableDetermine(r, SortByScoreDesc(s));
  }

  /** Three uploads scored 0.3, 0.9 and 0.6 are listed 0.9, 0.6, 0.3. */
  lemma ThreeCandidates(a: Candidate, b: Candidate, c: Candidate)
    requires a.score == 0.3 && b.score == 0.9 && c.score == 0.6
    ensures SortByScoreDesc([a, b, c]) == [b, c, a]
  {
    assert [a, b, c][1..] == [b, c];
    assert [b, c][1..] == [c];
    assert [c][1..] == [];
    assert SortByScoreDesc([c]) == [c];
    assert SortByScoreDesc([b, c]) == [b, c];
    assert InsertByScore(a, [c]) == [c, a];
    assert InsertByScore(a, [b, c]) == [b] + InsertByScore(a, [c]);
  }

  /** Two uploads with the same score keep their upload order. */
  lemma TieKeepsUploadOrder(a: Candidate, b: Candidate)
    requires a.score == b.score
    ensures SortByScoreDesc([a, b]) == [a, b]
  {
    assert [a, b][1..] == [b];
    assert [b][1..] == [];
  }
}
