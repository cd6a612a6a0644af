/**
 * The ordering behind the high-score table: Python's
 * `sorted(..., key=score, reverse=True)`, which puts the highest score first
 * and keeps equal scores in their original order.
 */
module Ranking {

  /** Every name in `ks` has a score. */
  predicate Scored<K>(ks: seq<K>, scores: map<K, int>)
  {
    forall i :: 0 <= i < |ks| ==> ks[i] in scores
  }

  /** Highest score first. */
  predicate Descending<K>(ks: seq<K>, scores: map<K, int>)
    requires Scored(ks, scores)
  {
    forall i, j :: 0 <= i < j < |ks| ==> scores[ks[i]] >= scores[ks[j]]
  }

  /** The names with score `v`, in the order they appear. */
  function WithScore<K>(ks: seq<K>, scores: map<K, int>, v: int): seq<K>
    requires Scored(ks, scores)
  {
    if ks == [] then []
    else (if scores[ks[0]] == v then [ks[0]] else []) + WithScore(ks[1..], scores, v)
  }

  /** Places `x` ahead of the first name that does not score more than it. */
  function Insert<K>(x: K, ranked: seq<K>, scores: map<K, int>): (r: seq<K>)
    requires x in scores && Scored(ranked, scores)
    ensures Scored(r, scores) && |r| == |ranked| + 1
  {
    if ranked == [] || scores[ranked[0]] <= scores[x] then [x] + ranked
    else [ranked[0]] + Insert(x, ranked[1..], scores)
  }

  /** `sorted(ks, key=lambda k: scores[k], reverse=True)`. */
  function RankByScore<K>(ks: seq<K>, scores: map<K, int>): (r: seq<K>)
    requires Scored(ks, scores)
    ensures Scored(r, scores) && |r| == |ks|
  {
    if ks == [] then [] else Insert(ks[0], RankByScore(ks[1..], scores), scores)
  }

  lemma {:induction false} InsertDescending<K>(x: K, ranked: seq<K>, scores: map<K, int>)
    requires x in scores && Scored(ranked, scores) && Descending(ranked, scores)
    ensures Descending(Insert(x, ranked, scores), scores)
    ensures |ranked| > 0 ==> Insert(x, ranked, scores)[0] in {x, ranked[0]}
  {
    if ranked != [] && scores[ranked[0]] > scores[x] {
      InsertDescending(x, ranked[1..], scores);
    }
  }

  /** The ranking puts higher scores first. */
  lemma {:induction false} RankDescending<K>(ks: seq<K>, scores: map<K, int>)
    requires Scored(ks, scores)
    ensures Descending(RankByScore(ks, scores), scores)
  {
    if ks != [] {
      RankDescending(ks[1..], scores);
      InsertDescending(ks[0], RankByScore(ks[1..], scores), scores);
    }
  }

  lemma {:induction false} InsertPermutation<K>(x: K, ranked: seq<K>, scores: map<K, int>)
    requires x in scores && Scored(ranked, scores)
    ensures multiset(Insert(x, ranked, scores)) == multiset(ranked) + multiset{x}
  {
    if ranked != [] && scores[ranked[0]] > scores[x] {
      InsertPermutation(x, ranked[1..], scores);
      assert ranked == [ranked[0]] + ranked[1..];
    }
  }

  /** The ranking lists every name exactly as often as the input does. */
  lemma {:induction false} RankPermutation<K>(ks: seq<K>, scores: map<K, int>)
    requires Scored(ks, scores)
    ensures multiset(RankByScore(ks, scores)) == multiset(ks)
  {
    if ks != [] {
      RankPermutation(ks[1..], scores);
      InsertPermutation(ks[0], RankByScore(ks[1..], scores), scores);
      assert ks == [ks[0]] + ks[1..];
    }
  }

  /** The first `n` names of the ranking (all of them when there are fewer). */
  function Top<K>(ks: seq<K>, scores: map<K, int>, n: nat): (r: seq<K>)
    requires Scored(ks, scores)
    ensures Scored(r, scores) && |r| == if |ks| < n then |ks| else n
  {
    var ranked := RankByScore(ks, scores);
    ranked[..if |ranked| < n then |ranked| else n]
  }

  /** The top names are best first, and no name left out scores more than one of them. */
  lemma TopIsBest<K>(ks: seq<K>, scores: map<K, int>, n: nat)
    requires Scored(ks, scores)
    ensures Descending(Top(ks, scores, n), scores)
    ensures forall i, x :: 0 <= i < |Top(ks, scores, n)| && x in ks && x !in Top(ks, scores, n) ==>
      scores[Top(ks, scores, n)[i]] >= scores[x]
  {
    var ranked := RankByScore(ks, scores);
    var top := Top(ks, scores, n);
    assert top == ranked[..|top|];
    RankDescending(ks, scores);
    RankPermutation(ks, scores);
    forall i, x | 0 <= i < |top| && x in ks && x !in top
      ensures scores[top[i]] >= scores[x]
    {
      assert x in multiset(ranked);
      var j :| 0 <= j < |ranked| && ranked[j] == x;
      assert j >= |top|;
      assert top[i] == ranked[i];
    }
  }

  lemma {:induction false} InsertStable<K>(x: K, ranked: seq<K>, scores: map<K, int>, v: int)
    requires x in scores && Scored(ranked, scores)
    ensures WithScore(Insert(x, ranked, scores), scores, v)
         == (if scores[x] == v then [x] else []) + WithScore(ranked, scores, v)
  {
    if ranked == [] || scores[ranked[0]] <= scores[x] {
      assert ([x] + ranked)[1..] == ranked;
    } else {
      InsertStable(x, ranked[1..], scores, v);
      var r := Insert(x, ranked, scores);
      assert r[0] == ranked[0] && r[1..] == Insert(x, ranked[1..], scores);
      // `ranked[0]` scores more than `x`, so at most one of them has score `v`.
      var first := if scores[ranked[0]] == v then [ranked[0]] else [];
      var here := if scores[x] == v then [x] else [];
      assert first == [] || here == [];
      assert WithScore(r, scores, v) == first + (here + WithScore(ranked[1..], scores, v));
    }
  }

  /** Names with equal scores keep their original relative order. */
  lemma {:induction false} RankStable<K>(ks: seq<K>, scores: map<K, int>, v: int)
    requires Scored(ks, scores)
    ensures WithScore(RankByScore(ks, scores), scores, v) == WithScore(ks, scores, v)
  {
    if ks != [] {
      RankStable(ks[1..], scores, v);
      InsertStable(ks[0], RankByScore(ks[1..], scores), scores, v);
    }
  }
}
