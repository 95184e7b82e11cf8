/**
 * The paper-wide distribution of dominant levels:
 * `question_df["Dominant Cognitive Level"].value_counts(normalize=True) * 100`,
 * the share of the questions whose dominant level is each level. A paper
 * without questions has no such column, and the lookup fails.
 */
module Aggregate {
  import opened Wrappers
  import opened Taxonomy
  import opened Scorer
  import opened Analyzer

  /** How many of the questions have `l` as their dominant level. */
  function CountOf(doms: seq<Level>, l: Level): nat
    decreases |doms|
  {
    if doms == [] then 0
    else CountOf(doms[..|doms| - 1], l) + if doms[|doms| - 1] == l then 1 else 0
  }

  lemma {:induction false} CountOfPresent(doms: seq<Level>, l: Level)
    ensures CountOf(doms, l) > 0 <==> l in doms
    ensures CountOf(doms, l) <= |doms|
    decreases |doms|
  {
    if doms != [] {
      var init := doms[..|doms| - 1];
      CountOfPresent(init, l);
      assert doms == init + [doms[|doms| - 1]];
    }
  }

  /** The number of questions per level. */
  function Tally(doms: seq<Level>): (counts: map<Level, nat>)
    ensures Populated(counts)
  {
    LevelsComplete();
    map l | l in Levels :: CountOf(doms, l)
  }

  /** Counting one more question adds one to its level. */
  lemma TallyLast(doms: seq<Level>)
    requires doms != []
    ensures var last := doms[|doms| - 1];
      Tally(doms)[last] == Tally(doms[..|doms| - 1])[last] + 1
      && forall l :: l != last ==> Tally(doms)[l] == Tally(doms[..|doms| - 1])[l]
  {
    LevelsComplete();
  }

  /** Every question is counted once: the counts add up to the number of questions. */
  lemma {:induction false} TallyTotal(doms: seq<Level>)
    ensures Total(Tally(doms)) == |doms|
    decreases |doms|
  {
    if doms == [] {
      SumFromZero(Tally(doms), 0);
    } else {
      TallyTotal(doms[..|doms| - 1]);
      TallyLast(doms);
      SumFromIncrement(Tally(doms[..|doms| - 1]), Tally(doms), doms[|doms| - 1], 0);
    }
  }

  lemma {:induction false} SumFromZero(counts: map<Level, nat>, i: nat)
    requires Populated(counts) && i <= |Levels|
    requires forall l :: counts[l] == 0
    ensures SumFrom(counts, i) == 0
    decreases |Levels| - i
  {
    if i < |Levels| {
      SumFromZero(counts, i + 1);
    }
  }

  /** `value_counts(normalize=True) * 100`: the levels that occur, each with
      its share of the questions in percent; no result for no questions. */
  function ShareOfQuestions(doms: seq<Level>): (r: Option<map<Level, real>>)
    ensures r.None? <==> doms == []
    ensures r.Some? ==> forall l :: l in r.value <==> l in doms
  {
    if doms == [] then None
    else Some(map l | l in doms :: Percent(CountOf(doms, l), |doms|))
  }

  /** Percentages of the same whole add up like their parts. */
  lemma PercentAdd(a: nat, b: nat, n: nat)
    ensures Percent(a, n) + Percent(b, n) == Percent(a + b, n)
  {
    if n > 0 {
      var m := n as real;
      assert a as real / m + b as real / m == (a + b) as real / m;
    }
  }

  /** The whole is 100 percent of itself. */
  lemma PercentWhole(n: nat)
    requires n > 0
    ensures Percent(n, n) == 100.0
  {
  }

  /** Each level that occurs has a positive share of at most 100 percent:
      the percentage its questions are of all questions. */
  lemma ShareOfLevel(doms: seq<Level>, l: Level)
    requires l in doms
    ensures var share := ShareOfQuestions(doms).value[l];
      share == Percent(CountOf(doms, l), |doms|) && 0.0 < share <= 100.0
  {
    CountOfPresent(doms, l);
    PercentRange(CountOf(doms, l), |doms|);
  }

  /** The sum of the shares of the levels from position `i` on; a level
      that does not occur contributes nothing. */
  function ShareSum(shares: map<Level, real>, i: nat): real
    requires i <= |Levels|
    decreases |Levels| - i
  {
    if i == |Levels| then 0.0
    else (if Levels[i] in shares then shares[Levels[i]] else 0.0) + ShareSum(shares, i + 1)
  }

  /** The share sum from position `i` on is the share of the questions whose
      level comes at or after position `i`. */
  lemma {:induction false} ShareSumFrom(doms: seq<Level>, i: nat)
    requires doms != [] && i <= |Levels|
    ensures ShareSum(ShareOfQuestions(doms).value, i) == Percent(SumFrom(Tally(doms), i), |doms|)
    decreases |Levels| - i
  {
    if i < |Levels| {
      ShareSumFrom(doms, i + 1);
      ShareAt(doms, Levels[i]);
      ShareSumStep(ShareOfQuestions(doms).value, Tally(doms), |doms|, i);
    }
  }

  /** Adding one level's share to the sum of the later ones. */
  lemma ShareSumStep(shares: map<Level, real>, counts: map<Level, nat>, n: nat, i: nat)
    requires Populated(counts) && i < |Levels|
    requires ShareSum(shares, i + 1) == Percent(SumFrom(counts, i + 1), n)
    requires (if Levels[i] in shares then shares[Levels[i]] else 0.0) == Percent(counts[Levels[i]], n)
    ensures ShareSum(shares, i) == Percent(SumFrom(counts, i), n)
  {
    PercentAdd(counts[Levels[i]], SumFrom(counts, i + 1), n);
  }

  /** The share of a level, zero for a level that does not occur, is the
      percentage of its questions. */
  lemma ShareAt(doms: seq<Level>, l: Level)
    requires doms != []
    ensures var shares := ShareOfQuestions(doms).value;
      (if l in shares then shares[l] else 0.0) == Percent(Tally(doms)[l], |doms|)
  {
    CountOfPresent(doms, l);
  }

  /** The shares of a paper with questions add up to 100 percent. */
  lemma SharesSumTo100(doms: seq<Level>)
    requires doms != []
    ensures ShareSum(ShareOfQuestions(doms).value, 0) == 100.0
  {
    ShareSumFrom(doms, 0);
    TallyTotal(doms);
    PercentWhole(|doms|);
  }
}
