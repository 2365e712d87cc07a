/** The counting loops inside Evaluate: how often each rank occurs, and how many ranks occur two,
    three and four times. */
module RankCounts {
  import opened Common

  ghost function Counted(counts: map<int, nat>, done: set<int>, c: nat): set<int> {
    set r | r in done && r in counts && counts[r] == c
  }

  method CountRanks(ranks: seq<int>) returns (counts: map<int, nat>)
    ensures forall r :: r in counts <==> r in ranks
    ensures forall r :: r in counts ==> counts[r] == multiset(ranks)[r]
  {
    counts := map[];
    for i := 0 to |ranks|
      invariant forall r :: r in counts <==> r in ranks[..i]
      invariant forall r :: r in counts ==> counts[r] == multiset(ranks[..i])[r]
    {
      assert ranks[..i + 1] == ranks[..i] + [ranks[i]];
      assert ranks[i] !in ranks[..i] ==> multiset(ranks[..i])[ranks[i]] == 0;
      counts := counts[ranks[i] := (if ranks[i] in counts then counts[ranks[i]] else 0) + 1];
    }
    assert ranks[..|ranks|] == ranks;
  }

  lemma CountedNext(counts: map<int, nat>, done: set<int>, r: int, c: nat)
    requires r in counts && r !in done
    ensures Counted(counts, done + {r}, c) == Counted(counts, done, c) + (if counts[r] == c then {r} else {})
    ensures |Counted(counts, done + {r}, c)| == |Counted(counts, done, c)| + (if counts[r] == c then 1 else 0)
  {
    assert Counted(counts, done + {r}, c) == Counted(counts, done, c) + (if counts[r] == c then {r} else {});
  }

  /** What the counters say about the ranks in `done`. */
  ghost predicate Tallied(counts: map<int, nat>, done: set<int>, pairs: nat, trips: nat, quads: nat, pairHigh: int) {
    && quads == |Counted(counts, done, 4)|
    && trips == |Counted(counts, done, 3)|
    && pairs == |Counted(counts, done, 2)|
    && (pairHigh == 0 || pairHigh in Counted(counts, done, 2))
    && (forall r :: r in Counted(counts, done, 2) ==> r <= pairHigh)
  }

  lemma TallyNext(counts: map<int, nat>, done: set<int>, pairs: nat, trips: nat, quads: nat, pairHigh: int, r: int)
    requires Tallied(counts, done, pairs, trips, quads, pairHigh) && r in counts && r !in done && r > 0
    ensures var c := counts[r];
            Tallied(counts, done + {r}, if c == 2 then pairs + 1 else pairs, if c == 3 then trips + 1 else trips,
                    if c == 4 then quads + 1 else quads, if c == 2 && r > pairHigh then r else pairHigh)
  {
    CountedNext(counts, done, r, 2);
    CountedNext(counts, done, r, 3);
    CountedNext(counts, done, r, 4);
  }

  /** The loop over the counts, whose order Go leaves open. */
  method TallyGroups(counts: map<int, nat>) returns (pairs: nat, trips: nat, quads: nat, pairHigh: int)
    requires forall r :: r in counts ==> r > 0
    ensures Tallied(counts, counts.Keys, pairs, trips, quads, pairHigh)
  {
    pairs, trips, quads, pairHigh := 0, 0, 0, 0;
    var todo := counts.Keys;
    ghost var done: set<int> := {};
    while todo != {}
      invariant done + todo == counts.Keys && done !! todo
      invariant Tallied(counts, done, pairs, trips, quads, pairHigh)
      decreases todo
    {
      ghost var witnessed := Member(todo);
      var r :| r in todo;
      TallyNext(counts, done, pairs, trips, quads, pairHigh, r);
      match counts[r] {
        case 4 => quads := quads + 1;
        case 3 => trips := trips + 1;
        case 2 =>
          pairs := pairs + 1;
          if r > pairHigh {
            pairHigh := r;
          }
        case _ =>
      }
      todo, done := todo - {r}, done + {r};
    }
    assert done == counts.Keys;
  }
}
