/** Scores are compared by category first, tiebreak second; the search keeps the first maximum. */
module Scores {
  datatype Score = Score(rank: int, tiebreak: int)

  predicate Beats(a: Score, b: Score) {
    a.rank > b.rank || (a.rank == b.rank && a.tiebreak > b.tiebreak)
  }

  /** The maximum of the scores, or (0, 0) when there are none. */
  function MaxScore(scores: seq<Score>): Score {
    if scores == [] then Score(0, 0)
    else
      var best, last := MaxScore(scores[..|scores| - 1]), scores[|scores| - 1];
      if Beats(last, best) then last else best
  }

  ghost predicate AllPositive(scores: seq<Score>) {
    forall i :: 0 <= i < |scores| ==> Beats(scores[i], Score(0, 0))
  }

  lemma {:induction false} MaxIsMaximal(scores: seq<Score>, i: nat)
    requires i < |scores|
    ensures !Beats(scores[i], MaxScore(scores))
  {
    var n := |scores| - 1;
    if i < n {
      MaxIsMaximal(scores[..n], i);
    }
  }

  lemma {:induction false} MaxIsReached(scores: seq<Score>) returns (i: nat)
    requires scores != [] && AllPositive(scores)
    ensures i < |scores| && scores[i] == MaxScore(scores)
  {
    var n := |scores| - 1;
    if Beats(scores[n], MaxScore(scores[..n])) {
      i := n;
    } else {
      i := MaxIsReached(scores[..n]);
    }
  }

  ghost predicate IsFirstBest(scores: seq<Score>, f: nat) {
    && f < |scores|
    && scores[f] == MaxScore(scores)
    && forall g :: 0 <= g < f ==> Beats(scores[f], scores[g])
  }

  lemma MaxOfOne(x: Score)
    requires Beats(x, Score(0, 0))
    ensures MaxScore([x]) == x && IsFirstBest([x], 0)
  {
    assert [x][..0] == [];
  }

  /** One iteration of the search. */
  lemma FirstBestNext(scores: seq<Score>, m: nat, f: nat)
    requires m < |scores| && AllPositive(scores)
    requires m > 0 ==> IsFirstBest(scores[..m], f)
    ensures var best := MaxScore(scores[..m]);
            && MaxScore(scores[..m + 1]) == (if Beats(scores[m], best) then scores[m] else best)
            && IsFirstBest(scores[..m + 1], if Beats(scores[m], best) then m else f)
  {
    assert scores[..m + 1][..m] == scores[..m];
    if Beats(scores[m], MaxScore(scores[..m])) {
      forall g | 0 <= g < m ensures Beats(scores[m], scores[g]) {
        MaxIsMaximal(scores[..m], g);
      }
    }
  }
}
