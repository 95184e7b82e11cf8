/**
 * The tail of `analyze_cognitive_levels`: from the score vector to the
 * dominant level, its actual and ideal share, the deviation between the two
 * and the suggested keywords. Percentages are exact reals; the final
 * `round(…, 2)` is not modelled.
 */
module Analyzer {
  import opened Text
  import opened Taxonomy
  import opened Scorer

  // ---------------------------------------------------------------------------
  // max(keyword_counts, key=keyword_counts.get)

  /** Python's `max` over the keys in dictionary order: it keeps the best key
      seen so far and replaces it only by a strictly greater one. */
  function MaxFrom(counts: map<Level, nat>, best: Level, i: nat): Level
    requires Populated(counts) && i <= |Levels|
    decreases |Levels| - i
  {
    if i == |Levels| then best
    else MaxFrom(counts, if counts[Levels[i]] > counts[best] then Levels[i] else best, i + 1)
  }

  /** `dominant_level`: the keys are the levels in vocabulary order. */
  function Dominant(counts: map<Level, nat>): Level
    requires Populated(counts)
  {
    MaxFrom(counts, Levels[0], 1)
  }

  /** `d` has the greatest count and no earlier level has as great a count. */
  predicate FirstMaximal(counts: map<Level, nat>, d: Level)
    requires Populated(counts)
  {
    (forall l :: counts[l] <= counts[d]) && (forall l :: Index(l) < Index(d) ==> counts[l] < counts[d])
  }

  /** `best` is the first maximum among the first `i` levels. */
  predicate FirstMaximalBefore(counts: map<Level, nat>, best: Level, i: nat)
    requires Populated(counts)
  {
    Index(best) < i
    && (forall k :: 0 <= k < i && k < |Levels| ==> counts[Levels[k]] <= counts[best])
    && (forall k :: 0 <= k < Index(best) ==> counts[Levels[k]] < counts[best])
  }

  lemma {:induction false} MaxFromFirstMaximal(counts: map<Level, nat>, best: Level, i: nat)
    requires Populated(counts) && 0 < i <= |Levels|
    requires FirstMaximalBefore(counts, best, i)
    ensures FirstMaximalBefore(counts, MaxFrom(counts, best, i), |Levels|)
    decreases |Levels| - i
  {
    if i < |Levels| {
      var next := if counts[Levels[i]] > counts[best] then Levels[i] else best;
      LevelsListed(i);
      MaxFromFirstMaximal(counts, next, i + 1);
    }
  }

  /** The dominant level has the greatest count, and among levels with equal
      counts it is the earliest one, and it is the only level with both
      properties. */
  lemma DominantIsFirstMaximal(counts: map<Level, nat>, d: Level)
    requires Populated(counts)
    ensures d == Dominant(counts) <==> FirstMaximal(counts, d)
  {
    MaxFromFirstMaximal(counts, Levels[0], 1);
    var dom := Dominant(counts);
    forall l
      ensures counts[l] <= counts[dom]
    {
      assert Levels[Index(l)] == l;
    }
    forall l | Index(l) < Index(dom)
      ensures counts[l] < counts[dom]
    {
      assert Levels[Index(l)] == l;
    }
  }

  /** A vector without a single match falls to the first level. */
  lemma AllZeroIsRemember(counts: map<Level, nat>)
    requires Populated(counts) && forall l :: counts[l] == 0
    ensures Dominant(counts) == Remember
  {
    DominantIsFirstMaximal(counts, Remember);
  }

  // ---------------------------------------------------------------------------
  // sum(keyword_counts.values())

  /** The sum of the counts of the levels from position `i` on. */
  function SumFrom(counts: map<Level, nat>, i: nat): nat
    requires Populated(counts) && i <= |Levels|
    decreases |Levels| - i
  {
    if i == |Levels| then 0 else counts[Levels[i]] + SumFrom(counts, i + 1)
  }

  function Total(counts: map<Level, nat>): nat
    requires Populated(counts)
  {
    SumFrom(counts, 0)
  }

  lemma {:induction false} SumFromBounds(counts: map<Level, nat>, i: nat, k: nat)
    requires Populated(counts) && i <= k < |Levels|
    ensures counts[Levels[k]] <= SumFrom(counts, i)
    ensures SumFrom(counts, i) == 0 ==> counts[Levels[k]] == 0
    decreases |Levels| - i
  {
    if i < k {
      SumFromBounds(counts, i + 1, k);
    }
  }

  /** Every count is part of the total, and the total is zero exactly when
      every count is. */
  lemma TotalBounds(counts: map<Level, nat>)
    requires Populated(counts)
    ensures forall l :: counts[l] <= Total(counts)
    ensures Total(counts) == 0 <==> forall l :: counts[l] == 0
  {
    forall l
      ensures counts[l] <= Total(counts)
      ensures Total(counts) == 0 ==> counts[l] == 0
    {
      SumFromBounds(counts, 0, Index(l));
    }
  }

  /** Raising one count by one raises the total by one. */
  lemma {:induction false} SumFromIncrement(before: map<Level, nat>, after: map<Level, nat>, l: Level, i: nat)
    requires Populated(before) && Populated(after) && i <= |Levels|
    requires after[l] == before[l] + 1 && forall k :: k != l ==> after[k] == before[k]
    ensures SumFrom(after, i) == SumFrom(before, i) + if Index(l) >= i then 1 else 0
    decreases |Levels| - i
  {
    if i < |Levels| {
      LevelsListed(i);
      SumFromIncrement(before, after, l, i + 1);
    }
  }

  /** The dominant level holds at least a sixth of all matches. */
  lemma DominantShare(counts: map<Level, nat>)
    requires Populated(counts)
    ensures Total(counts) <= |Levels| * counts[Dominant(counts)]
  {
    var d := Dominant(counts);
    DominantIsFirstMaximal(counts, d);
    assert counts[Levels[0]] <= counts[d] && counts[Levels[1]] <= counts[d] && counts[Levels[2]] <= counts[d];
    assert counts[Levels[3]] <= counts[d] && counts[Levels[4]] <= counts[d] && counts[Levels[5]] <= counts[d];
  }

  // ---------------------------------------------------------------------------
  // Percentages

  /** `c / t * 100`, or 0 when `t` is 0. */
  function Percent(c: nat, t: nat): real {
    if t > 0 then (c as real / t as real) * 100.0 else 0.0
  }

  /** `c / t * 100` is the percentage that `c` is of `t`. */
  lemma PercentTimesTotal(c: nat, t: nat)
    requires 0 < t
    ensures Percent(c, t) * t as real == 100.0 * c as real
  {
    var q := c as real / t as real;
    assert q * t as real == c as real;
    assert Percent(c, t) * t as real == 100.0 * (q * t as real);
  }

  /** Multiplying by a positive number keeps a strict order. */
  lemma MulStrict(a: real, b: real, t: real)
    requires a < b && 0.0 < t
    ensures a * t < b * t
  {
  }

  /** A percentage of a part lies in [0, 100]. */
  lemma PercentageBounds(c: nat, t: nat, p: real)
    requires 0 < t && c <= t && p * t as real == 100.0 * c as real
    ensures 0.0 <= p <= 100.0
  {
    if p > 100.0 {
      MulStrict(100.0, p, t as real);
    }
  }

  /** A part of at least a sixth is at least 100/6 percent. */
  lemma PercentageSixth(c: nat, t: nat, p: real)
    requires 0 < t && t <= 6 * c && p * t as real == 100.0 * c as real
    ensures 100.0 <= 6.0 * p
  {
    if 6.0 * p < 100.0 {
      MulStrict(6.0 * p, 100.0, t as real);
    }
  }

  /** The percentage of a part: 0 for an empty whole, otherwise the number
      whose `t`-fold is `100 * c`. */
  lemma PercentSpec(c: nat, t: nat)
    ensures t == 0 ==> Percent(c, t) == 0.0
    ensures t > 0 ==> Percent(c, t) * t as real == 100.0 * c as real
  {
    if t > 0 {
      PercentTimesTotal(c, t);
    }
  }

  /** The percentage of a part lies in [0, 100], it is positive for a
      non-empty part, and it is at least 100/6 for a part of at least a sixth. */
  lemma PercentRange(c: nat, t: nat)
    requires c <= t
    ensures 0.0 <= Percent(c, t) <= 100.0
    ensures 0 < c ==> 0.0 < Percent(c, t)
    ensures 0 < t <= 6 * c ==> 100.0 <= 6.0 * Percent(c, t)
  {
    if t > 0 {
      PercentTimesTotal(c, t);
      PercentageBounds(c, t, Percent(c, t));
      if t <= 6 * c {
        PercentageSixth(c, t, Percent(c, t));
      }
    }
  }

  /** `actual_percentage`: the share of the dominant level's matches in all
      matches, or 0 when nothing matched. */
  function ActualPercent(counts: map<Level, nat>): real
    requires Populated(counts)
  {
    Percent(counts[Dominant(counts)], Total(counts))
  }

  /** The actual share lies in [0, 100]; when anything matched it is at least
      a sixth of the whole, and when nothing matched it is zero. */
  lemma ActualPercentRange(counts: map<Level, nat>)
    requires Populated(counts)
    ensures 0.0 <= ActualPercent(counts) <= 100.0
    ensures Total(counts) > 0 ==> 6.0 * ActualPercent(counts) >= 100.0
    ensures Total(counts) == 0 ==> ActualPercent(counts) == 0.0
  {
    var d := Dominant(counts);
    SumFromBounds(counts, 0, Index(d));
    DominantShare(counts);
    PercentRange(counts[d], Total(counts));
  }

  /** `deviation`: actual minus ideal, in percentage points. */
  function Deviation(counts: map<Level, nat>): real
    requires Populated(counts)
  {
    ActualPercent(counts) - IdealPercent(Dominant(counts)) as real
  }

  /** The deviation lies between minus the ideal share and its complement, and
      when anything matched it is at least 100/6 − 20 percentage points. */
  lemma DeviationBounds(counts: map<Level, nat>)
    requires Populated(counts)
    ensures var ideal := IdealPercent(Dominant(counts)) as real;
      -ideal <= Deviation(counts) <= 100.0 - ideal
    ensures Total(counts) > 0 ==> 3.0 * Deviation(counts) >= -10.0
    ensures Total(counts) == 0 ==> Deviation(counts) == -10.0
  {
    ActualPercentRange(counts);
    if Total(counts) == 0 {
      TotalBounds(counts);
      AllZeroIsRemember(counts);
    }
  }

  // ---------------------------------------------------------------------------
  // The suggestion

  const SuggestionPrefix: string := "Consider adding '"
  const SuggestionSuffix: string := "' for better alignment."

  /** `", ".join(keywords[:3])`-style list with the quoting of the message. */
  function SuggestionFor(ks: seq<string>): (msg: string)
    requires |ks| >= 3
  {
    SuggestionPrefix + JoinOn(ks[..3], ", ") + SuggestionSuffix
  }

  /** `suggested_keywords` in its message for the dominant level. */
  function Suggestion(l: Level): string {
    SuggestionFor(Keywords(l))
  }

  /** Joining with a comma and a space is joining with a comma after putting
      the space in front of every part but the first. */
  lemma JoinThree(a: string, b: string, c: string)
    ensures JoinOn([a, b, c], ", ") == JoinOn([a, " " + b, " " + c], [','])
  {
    var ps := [a, b, c];
    var qs := [a, " " + b, " " + c];
    assert ps[1..] == [b, c] && ps[1..][1..] == [c];
    assert qs[1..] == [" " + b, " " + c] && qs[1..][1..] == [" " + c];
    assert JoinOn([b, c], ", ") == b + ", " + c;
    assert JoinOn([" " + b, " " + c], [',']) == " " + b + [','] + " " + c;
  }

  /** The list in the message can be read back: splitting it at its commas
      gives the first three keywords, each after the first with its space. */
  lemma {:induction false} SuggestionForNamesKeywords(ks: seq<string>)
    requires |ks| >= 3 && forall i :: 0 <= i < 3 ==> ',' !in ks[i]
    ensures var msg := SuggestionFor(ks);
      |SuggestionPrefix| + |SuggestionSuffix| <= |msg|
      && msg[..|SuggestionPrefix|] == SuggestionPrefix
      && msg[|msg| - |SuggestionSuffix|..] == SuggestionSuffix
      && SplitOn(msg[|SuggestionPrefix|..|msg| - |SuggestionSuffix|], ',') == [ks[0], " " + ks[1], " " + ks[2]]
  {
    var msg := SuggestionFor(ks);
    var list := JoinOn(ks[..3], ", ");
    assert ks[..3] == [ks[0], ks[1], ks[2]];
    JoinThree(ks[0], ks[1], ks[2]);
    var parts := [ks[0], " " + ks[1], " " + ks[2]];
    assert forall i :: 0 <= i < 3 ==> ',' !in parts[i];
    SplitJoin(parts, ',');
    assert msg == SuggestionPrefix + list + SuggestionSuffix;
    assert msg[|SuggestionPrefix|..|msg| - |SuggestionSuffix|] == list;
  }

  /** The suggestion names the first three keywords of the level itself. */
  lemma SuggestionNamesKeywords(l: Level)
    ensures var msg := Suggestion(l);
      var ks := Keywords(l);
      |SuggestionPrefix| + |SuggestionSuffix| <= |msg|
      && SplitOn(msg[|SuggestionPrefix|..|msg| - |SuggestionSuffix|], ',') == [ks[0], " " + ks[1], " " + ks[2]]
  {
    var ks := Keywords(l);
    KeywordsFormed(l);
    assert IsKeyword(ks[0]) && IsKeyword(ks[1]) && IsKeyword(ks[2]);
    SuggestionForNamesKeywords(ks);
  }

  /** Keyword lists whose messages agree agree in their first three keywords. */
  lemma SuggestionForInjective(ks1: seq<string>, ks2: seq<string>)
    requires |ks1| >= 3 && forall i :: 0 <= i < 3 ==> ',' !in ks1[i]
    requires |ks2| >= 3 && forall i :: 0 <= i < 3 ==> ',' !in ks2[i]
    requires SuggestionFor(ks1) == SuggestionFor(ks2)
    ensures ks1[..3] == ks2[..3]
  {
    SuggestionForNamesKeywords(ks1);
    SuggestionForNamesKeywords(ks2);
    assert ks1[1] == (" " + ks1[1])[1..] && ks2[1] == (" " + ks2[1])[1..];
    assert ks1[2] == (" " + ks1[2])[1..] && ks2[2] == (" " + ks2[2])[1..];
    assert ks1[..3] == [ks1[0], ks1[1], ks1[2]] && ks2[..3] == [ks2[0], ks2[1], ks2[2]];
  }

  /** Two levels get the same suggestion only if their first three keywords
      are the same. */
  lemma SuggestionDeterminesKeywords(l1: Level, l2: Level)
    requires Suggestion(l1) == Suggestion(l2)
    ensures Keywords(l1)[..3] == Keywords(l2)[..3]
  {
    var k1 := Keywords(l1);
    var k2 := Keywords(l2);
    KeywordsFormed(l1);
    KeywordsFormed(l2);
    assert IsKeyword(k1[0]) && IsKeyword(k1[1]) && IsKeyword(k1[2]);
    assert IsKeyword(k2[0]) && IsKeyword(k2[1]) && IsKeyword(k2[2]);
    SuggestionForInjective(k1, k2);
  }

  // ---------------------------------------------------------------------------
  // The result dictionary

  /** The dictionary `analyze_cognitive_levels` returns, before rounding. */
  datatype Analysis = Analysis(
    dominant: Level,
    idealPercent: nat,
    actualPercent: real,
    deviationPercent: real,
    suggestedChanges: string)

  /** The result for a score vector. */
  function Resolve(counts: map<Level, nat>): (a: Analysis)
    requires Populated(counts)
    ensures FirstMaximal(counts, a.dominant)
    ensures a.idealPercent == IdealPercent(a.dominant)
    ensures 0.0 <= a.actualPercent <= 100.0
    ensures a.actualPercent == Percent(counts[a.dominant], Total(counts))
    ensures a.deviationPercent == a.actualPercent - a.idealPercent as real
    ensures a.suggestedChanges == Suggestion(a.dominant)
  {
    var d := Dominant(counts);
    DominantIsFirstMaximal(counts, d);
    ActualPercentRange(counts);
    Analysis(d, IdealPercent(d), ActualPercent(counts), Deviation(counts), Suggestion(d))
  }

  /** A text in which no keyword occurs is classed as Remember with an actual
      share of 0, a deviation of -10 and the Remember suggestion. */
  lemma NoMatchesAnalysis(counts: map<Level, nat>)
    requires Populated(counts) && forall l :: counts[l] == 0
    ensures Resolve(counts) == Analysis(Remember, 10, 0.0, -10.0, Suggestion(Remember))
  {
    AllZeroIsRemember(counts);
    TotalBounds(counts);
  }

  /** The analysis of an empty question text: Remember, 0 percent against an
      ideal of 10, and the Remember suggestion.
      The empty text is a parameter pinned by `requires s == []` rather than
      the literal `""` so that the verifier does not unfold the keyword lists
      on a literal text. */
  lemma EmptyTextAnalysis(s: string)
    requires s == []
    ensures Resolve(Scores(s)) == Analysis(Remember, 10, 0.0, -10.0, Suggestion(Remember))
  {
    NoTextScoresZero(s);
    NoMatchesAnalysis(Scores(s));
  }

  /** `analyze_cognitive_levels(question_text)`: the scoring loops, then the
      dominant level, the shares and the suggestion. */
  method AnalyzeCognitiveLevels(questionText: string) returns (a: Analysis)
    ensures a == Resolve(Scores(questionText))
  {
    var keywordCounts := ScoreLevels(questionText);
    var dominantLevel := Dominant(keywordCounts);
    var total := Total(keywordCounts);
    var actualPercentage := Percent(keywordCounts[dominantLevel], total);
    var deviation := actualPercentage - IdealPercent(dominantLevel) as real;
    var suggestedKeywords := JoinOn(Keywords(dominantLevel)[..3], ", ");
    a := Analysis(dominantLevel, IdealPercent(dominantLevel), actualPercentage, deviation,
                  SuggestionPrefix + suggestedKeywords + SuggestionSuffix);
  }
}
